/** The completion field tables (src/completion/schemas.rs). */
module Schemas {
  datatype FieldType = StringType | ArrayType | ObjectType | BooleanType

  datatype FieldSchema = FieldSchema(name: string, description: string, fieldType: FieldType, required: bool)

  /** The five tables; the getters of the source are the field selectors. */
  datatype TektonSchemas = TektonSchemas(
    metadataFields: seq<FieldSchema>,
    pipelineSpecFields: seq<FieldSchema>,
    pipelineTaskFields: seq<FieldSchema>,
    taskSpecFields: seq<FieldSchema>,
    stepFields: seq<FieldSchema>)

  /** The metadata fields. */
  const MetadataFields: seq<FieldSchema> :=
    [ FieldSchema("name", "Resource name (required)", StringType, true),
      FieldSchema("namespace", "Resource namespace", StringType, false),
      FieldSchema("labels", "Resource labels", ObjectType, false),
      FieldSchema("annotations", "Resource annotations", ObjectType, false) ]

  /** The pipeline spec fields. */
  const PipelineSpecFields: seq<FieldSchema> :=
    [ FieldSchema("tasks", "Pipeline tasks to execute", ArrayType, true),
      FieldSchema("finally", "Tasks to run after all other tasks", ArrayType, false),
      FieldSchema("params", "Pipeline parameters", ArrayType, false),
      FieldSchema("workspaces", "Pipeline workspaces", ArrayType, false),
      FieldSchema("results", "Pipeline results", ArrayType, false) ]

  /** The pipeline task fields. */
  const PipelineTaskFields: seq<FieldSchema> :=
    [ FieldSchema("name", "Task name (required)", StringType, true),
      FieldSchema("taskRef", "Reference to an existing Task", ObjectType, false),
      FieldSchema("taskSpec", "Inline Task specification", ObjectType, false),
      FieldSchema("params", "Task parameters", ArrayType, false),
      FieldSchema("workspaces", "Workspace bindings", ArrayType, false),
      FieldSchema("runAfter", "Tasks that must complete before this task", ArrayType, false) ]

  /** The task spec fields. */
  const TaskSpecFields: seq<FieldSchema> :=
    [ FieldSchema("steps", "Task steps to execute", ArrayType, true),
      FieldSchema("params", "Task parameters", ArrayType, false),
      FieldSchema("workspaces", "Task workspaces", ArrayType, false),
      FieldSchema("results", "Task results", ArrayType, false),
      FieldSchema("volumes", "Kubernetes volumes", ArrayType, false) ]

  /** The step fields. */
  const StepFields: seq<FieldSchema> :=
    [ FieldSchema("name", "Step name (required)", StringType, true),
      FieldSchema("image", "Container image (required)", StringType, true),
      FieldSchema("script", "Script to execute", StringType, false),
      FieldSchema("command", "Container entrypoint", ArrayType, false),
      FieldSchema("args", "Container arguments", ArrayType, false),
      FieldSchema("env", "Environment variables", ArrayType, false),
      FieldSchema("workingDir", "Working directory", StringType, false) ]

  /** `TektonSchemas::new`. */
  function NewSchemas(): TektonSchemas {
    TektonSchemas(MetadataFields, PipelineSpecFields, PipelineTaskFields, TaskSpecFields, StepFields)
  }

  /** The names of a table, in order. */
  function Names(fields: seq<FieldSchema>): (r: seq<string>)
    ensures |r| == |fields|
    ensures forall i :: 0 <= i < |fields| ==> r[i] == fields[i].name
  {
    if fields == [] then [] else [fields[0].name] + Names(fields[1..])
  }

  /** The names of a table's required fields, in order. */
  function RequiredNames(fields: seq<FieldSchema>): (r: seq<string>)
    ensures forall n :: n in r <==> exists i :: 0 <= i < |fields| && fields[i].required && fields[i].name == n
  {
    if fields == [] then []
    else
      var rest := RequiredNames(fields[1..]);
      assert forall n :: n in rest <==> exists i :: 1 <= i < |fields| && fields[i].required && fields[i].name == n by {
        forall n | n in rest ensures exists i :: 1 <= i < |fields| && fields[i].required && fields[i].name == n {
          var k :| 0 <= k < |fields[1..]| && fields[1..][k].required && fields[1..][k].name == n;
          assert fields[k + 1] == fields[1..][k];
        }
        forall n | (exists i :: 1 <= i < |fields| && fields[i].required && fields[i].name == n) ensures n in rest {
          var k :| 1 <= k < |fields| && fields[k].required && fields[k].name == n;
          assert fields[1..][k - 1] == fields[k];
        }
      }
      (if fields[0].required then [fields[0].name] else []) + rest
  }

  /** A table whose fields carry the given names, one by one, has those names. */
  lemma NamesAre(fields: seq<FieldSchema>, names: seq<string>)
    requires |fields| == |names| && forall i :: 0 <= i < |fields| ==> fields[i].name == names[i]
    ensures Names(fields) == names
  {
  }

  ghost predicate DistinctNames(fields: seq<FieldSchema>) {
    forall i, j :: 0 <= i < j < |fields| ==> fields[i].name != fields[j].name
  }

  /** The metadata fields, in order; only `name` is required. */
  lemma MetadataFieldsTable()
    ensures var fs := NewSchemas().metadataFields;
      Names(fs) == ["name", "namespace", "labels", "annotations"]
      && RequiredNames(fs) == ["name"]
  {
    NamesAre(NewSchemas().metadataFields, ["name", "namespace", "labels", "annotations"]);
  }

  /** The pipeline spec fields, in order; only `tasks` is required. */
  lemma PipelineSpecFieldsTable()
    ensures var fs := NewSchemas().pipelineSpecFields;
      Names(fs) == ["tasks", "finally", "params", "workspaces", "results"]
      && RequiredNames(fs) == ["tasks"]
  {
    NamesAre(NewSchemas().pipelineSpecFields, ["tasks", "finally", "params", "workspaces", "results"]);
  }

  /** The pipeline task fields, in order; only `name` is required. */
  lemma PipelineTaskFieldsTable()
    ensures var fs := NewSchemas().pipelineTaskFields;
      Names(fs) == ["name", "taskRef", "taskSpec", "params", "workspaces", "runAfter"]
      && RequiredNames(fs) == ["name"]
  {
    NamesAre(NewSchemas().pipelineTaskFields, ["name", "taskRef", "taskSpec", "params", "workspaces", "runAfter"]);
  }

  /** The task spec fields, in order; only `steps` is required. */
  lemma TaskSpecFieldsTable()
    ensures var fs := NewSchemas().taskSpecFields;
      Names(fs) == ["steps", "params", "workspaces", "results", "volumes"]
      && RequiredNames(fs) == ["steps"]
  {
    NamesAre(NewSchemas().taskSpecFields, ["steps", "params", "workspaces", "results", "volumes"]);
  }

  /** The step fields, in order; `name` and `image` are required. */
  lemma StepFieldsTable()
    ensures var fs := NewSchemas().stepFields;
      Names(fs) == ["name", "image", "script", "command", "args", "env", "workingDir"]
      && RequiredNames(fs) == ["name", "image"]
  {
    NamesAre(NewSchemas().stepFields, ["name", "image", "script", "command", "args", "env", "workingDir"]);
  }

  /** Every spec-level field of pipelines and tasks is an array. */
  lemma SpecFieldsAreArrays()
    ensures forall f :: f in NewSchemas().pipelineSpecFields ==> f.fieldType == ArrayType
    ensures forall f :: f in NewSchemas().taskSpecFields ==> f.fieldType == ArrayType
  {
  }

  lemma MetadataNamesDistinct()
    ensures DistinctNames(NewSchemas().metadataFields)
  {
  }

  lemma PipelineSpecNamesDistinct()
    ensures DistinctNames(NewSchemas().pipelineSpecFields)
  {
  }

  lemma PipelineTaskNamesDistinct()
    ensures DistinctNames(NewSchemas().pipelineTaskFields)
  {
  }

  lemma TaskSpecNamesDistinct()
    ensures DistinctNames(NewSchemas().taskSpecFields)
  {
  }

  lemma StepNamesDistinct()
    ensures DistinctNames(NewSchemas().stepFields)
  {
  }

  /** No table offers a name twice. */
  lemma SchemaNamesDistinct()
    ensures DistinctNames(NewSchemas().metadataFields)
    ensures DistinctNames(NewSchemas().pipelineSpecFields)
    ensures DistinctNames(NewSchemas().pipelineTaskFields)
    ensures DistinctNames(NewSchemas().taskSpecFields)
    ensures DistinctNames(NewSchemas().stepFields)
  {
    MetadataNamesDistinct();
    PipelineSpecNamesDistinct();
    PipelineTaskNamesDistinct();
    TaskSpecNamesDistinct();
    StepNamesDistinct();
  }
}
