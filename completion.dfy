/** Completion (src/completion/provider.rs): the context under the cursor and
    the schema fields offered for it. */
module Completion {
  import opened Wrappers
  import opened Lsp
  import opened Ast
  import opened YamlParser
  import opened Schemas

  datatype CompletionContext = Metadata | PipelineSpec | PipelineTask | TaskSpec | Step | Unknown

  datatype CompletionItemKind = FieldKind | ValueKind | StructKind

  datatype CompletionItem = CompletionItem(
    labelText: string, kind: Option<CompletionItemKind>, detail: Option<string>, documentation: Option<string>)

  /** The context of a list field: `tasks` and `finally` hold pipeline
      tasks, `steps` holds steps. */
  function ListContext(key: string): (r: CompletionContext)
    ensures r == PipelineTask <==> key == "tasks" || key == "finally"
    ensures r == Step <==> key == "steps"
    ensures r == PipelineTask || r == Step || r == Unknown
  {
    match key
    case "tasks" => PipelineTask
    case "finally" => PipelineTask
    case "steps" => Step
    case _ => Unknown
  }

  /** The loop over a `spec` node's entries from the `i`-th on: the context
      of some list entry that contains the position, or Unknown when none. */
  function SpecEntryContext(entries: seq<(string, Node)>, pos: Position, i: nat): (r: CompletionContext)
    requires i <= |entries|
    decreases |entries| - i
    ensures r == PipelineTask || r == Step || r == Unknown
    ensures r != Unknown ==> exists j :: i <= j < |entries| && PositionInRange(pos, entries[j].1.range) && ListContext(entries[j].0) == r
    ensures r == Unknown <==> forall j :: i <= j < |entries| && PositionInRange(pos, entries[j].1.range) ==> ListContext(entries[j].0) == Unknown
  {
    if i == |entries| then Unknown
    else if PositionInRange(pos, entries[i].1.range) && ListContext(entries[i].0) != Unknown then ListContext(entries[i].0)
    else SpecEntryContext(entries, pos, i + 1)
  }

  /** The context a node's own key gives, Unknown when it gives none. A
      `spec` node gives the context of a list entry under the cursor, else
      the spec context of a Pipeline or a Task document. */
  function KeyContext(node: Node, pos: Position, kind: Option<string>): (r: CompletionContext)
    ensures node.key == Some("metadata") ==> r == Metadata
    ensures node.key == Some("tasks") || node.key == Some("finally") ==> r == PipelineTask
    ensures node.key == Some("steps") ==> r == Step
    ensures node.key.None? || node.key.value !in {"metadata", "spec", "tasks", "finally", "steps"} ==> r == Unknown
    ensures node.key == Some("spec") ==>
      var inList := if node.value.Mapping? then SpecEntryContext(node.value.entries, pos, 0) else Unknown;
      r == if inList != Unknown then inList
           else if kind == Some("Pipeline") then PipelineSpec
           else if kind == Some("Task") then TaskSpec
           else Unknown
  {
    match node.key
    case None => Unknown
    case Some(key) =>
      if key == "metadata" then Metadata
      else if key == "spec" then
        var inList := if node.value.Mapping? then SpecEntryContext(node.value.entries, pos, 0) else Unknown;
        if inList != Unknown then inList
        else if kind == Some("Pipeline") then PipelineSpec
        else if kind == Some("Task") then TaskSpec
        else Unknown
      else ListContext(key)
  }

  /** `find_completion_context`: Unknown outside the node's range; the node's
      own context first; otherwise the context of some node on a path
      containing the position, and Unknown only when no such node gives one. */
  function FindCompletionContext(node: Node, pos: Position, kind: Option<string>): (r: CompletionContext)
    decreases node, 1
    ensures !PositionInRange(pos, node.range) ==> r == Unknown
    ensures PositionInRange(pos, node.range) && KeyContext(node, pos, kind) != Unknown ==> r == KeyContext(node, pos, kind)
    ensures r != Unknown ==> exists n :: OnPath(node, n, pos) && KeyContext(n, pos, kind) == r
    ensures r == Unknown ==> forall n :: OnPath(node, n, pos) ==> KeyContext(n, pos, kind) == Unknown
  {
    if !PositionInRange(pos, node.range) then Unknown
    else if KeyContext(node, pos, kind) != Unknown then KeyContext(node, pos, kind)
    else ContextInChildren(node, pos, kind, 0)
  }

  /** The loop over the children from the `i`-th on. */
  function ContextInChildren(node: Node, pos: Position, kind: Option<string>, i: nat): (r: CompletionContext)
    requires i <= |Children(node)|
    decreases node, 0, |Children(node)| - i
    ensures r != Unknown ==> exists j, n :: i <= j < |Children(node)| && OnPath(Children(node)[j], n, pos) && KeyContext(n, pos, kind) == r
    ensures r == Unknown ==> forall j, n :: i <= j < |Children(node)| && OnPath(Children(node)[j], n, pos) ==> KeyContext(n, pos, kind) == Unknown
  {
    if i == |Children(node)| then Unknown
    else
      var c := FindCompletionContext(Children(node)[i], pos, kind);
      if c != Unknown then c else ContextInChildren(node, pos, kind, i + 1)
  }

  /** `get_fields_for_context`: the context's schema table, none for Unknown. */
  function GetFieldsForContext(context: CompletionContext): (r: seq<FieldSchema>)
    ensures r == [] <==> context == Unknown
    ensures context == Metadata ==> r == NewSchemas().metadataFields
    ensures context == PipelineSpec ==> r == NewSchemas().pipelineSpecFields
    ensures context == PipelineTask ==> r == NewSchemas().pipelineTaskFields
    ensures context == TaskSpec ==> r == NewSchemas().taskSpecFields
    ensures context == Step ==> r == NewSchemas().stepFields
  {
    var schemas := NewSchemas();
    match context
    case Metadata => schemas.metadataFields
    case PipelineSpec => schemas.pipelineSpecFields
    case PipelineTask => schemas.pipelineTaskFields
    case TaskSpec => schemas.taskSpecFields
    case Step => schemas.stepFields
    case Unknown => []
  }

  /** `field_to_completion_item`: labelled by the name, detailed by the
      description; strings complete as fields, objects as structs, arrays
      and booleans as values. */
  function FieldToCompletionItem(field: FieldSchema): (item: CompletionItem)
    ensures item.labelText == field.name && item.detail == Some(field.description) && item.documentation.None?
    ensures item.kind == Some(FieldKind) <==> field.fieldType == StringType
    ensures item.kind == Some(StructKind) <==> field.fieldType == ObjectType
    ensures item.kind == Some(ValueKind) <==> field.fieldType == ArrayType || field.fieldType == BooleanType
  {
    var kind := match field.fieldType
      case StringType => FieldKind
      case ArrayType => ValueKind
      case ObjectType => StructKind
      case BooleanType => ValueKind;
    CompletionItem(field.name, Some(kind), Some(field.description), None)
  }

  /** `provide_completions`: one item per field of the context's table, in
      table order. */
  function ProvideCompletions(doc: YamlDocument, pos: Position): (items: seq<CompletionItem>)
    ensures var fields := GetFieldsForContext(FindCompletionContext(doc.root, pos, doc.kind));
      |items| == |fields| && forall i :: 0 <= i < |items| ==> items[i] == FieldToCompletionItem(fields[i])
  {
    var fields := GetFieldsForContext(FindCompletionContext(doc.root, pos, doc.kind));
    seq(|fields|, i requires 0 <= i < |fields| => FieldToCompletionItem(fields[i]))
  }

  /** The labels offered are the table's names, so no label is offered twice. */
  lemma CompletionLabelsDistinct(doc: YamlDocument, pos: Position)
    ensures var items := ProvideCompletions(doc, pos);
      forall i, j :: 0 <= i < j < |items| ==> items[i].labelText != items[j].labelText
  {
    SchemaNamesDistinct();
  }

  /** The parser never sets a node's key, so a parsed document has no
      completion context and gets no completions. */
  lemma ParsedDocumentGetsNoCompletions(filename: string, v: YamlValue, pos: Position)
    ensures ProvideCompletions(NewYamlDocument(filename, Built(v, 0)), pos) == []
  {
    var doc := NewYamlDocument(filename, Built(v, 0));
    BuiltIsEstimated(v, 0);
    forall n | OnPath(doc.root, n, pos)
      ensures KeyContext(n, pos, doc.kind) == Unknown
    {
      EstimatedPathIsRoot(doc.root, n, pos);
    }
  }
}
