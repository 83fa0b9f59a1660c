/** The Tekton validator: a document whose `metadata` has no `name` gets an
    error at the metadata node, and a Pipeline whose `spec.tasks` is empty or
    not a sequence gets an error at the tasks node. */
module Validator {
  import opened Wrappers
  import opened Lsp
  import opened Ast
  import Strings
  import Actions

  const DiagnosticSource: string := "tekton-lsp"
  /** "Required field 'metadata.name' is missing", written in pieces. */
  const MissingNameMessage: string := "Required field " + "'metadata.name'" + " is missing"
  const NoTasksMessage: string := "Pipeline must have at least one task"
  const TasksNotArrayMessage: string := "Field 'tasks' must be an array"

  /** Every diagnostic of the validator is an error reported by the server. */
  function ErrorAt(range: Range, message: string): (d: Diagnostic)
    ensures d.range == range && d.message == message
    ensures d.severity == Some(Error) && d.source == Some(DiagnosticSource)
  {
    Diagnostic(range, Some(Error), Some(DiagnosticSource), message)
  }

  // ---------------------------------------------------------------------
  // What the validator reports

  /** The report about `metadata.name`: one error at the metadata node when it
      has no `name` entry, nothing otherwise. */
  function NameDiagnostics(doc: YamlDocument): seq<Diagnostic> {
    match Get(doc.root, "metadata")
    case None => []
    case Some(metadata) =>
      if Get(metadata, "name").None? then [ErrorAt(metadata.range, MissingNameMessage)] else []
  }

  /** The report about a Pipeline's `spec.tasks`: an error at the tasks node
      when it is an empty sequence or no sequence at all; nothing when the
      spec or the tasks are absent. */
  function PipelineDiagnostics(doc: YamlDocument): seq<Diagnostic> {
    match Get(doc.root, "spec")
    case None => []
    case Some(spec) =>
      match Get(spec, "tasks")
      case None => []
      case Some(tasks) =>
        match tasks.value
        case Sequence(items) => if items == [] then [ErrorAt(tasks.range, NoTasksMessage)] else []
        case _ => [ErrorAt(tasks.range, TasksNotArrayMessage)]
  }

  /** Everything the validator reports, the name error first. */
  function Diagnostics(doc: YamlDocument): seq<Diagnostic> {
    NameDiagnostics(doc) + (if doc.kind == Some("Pipeline") then PipelineDiagnostics(doc) else [])
  }

  // ---------------------------------------------------------------------
  // The validator

  /** `validate`. */
  method Validate(doc: YamlDocument) returns (diagnostics: seq<Diagnostic>)
    ensures diagnostics == Diagnostics(doc)
  {
    diagnostics := [];
    var metadataNode := Get(doc.root, "metadata");
    if metadataNode.Some? {
      if Get(metadataNode.value, "name").None? {
        diagnostics := diagnostics + [ErrorAt(metadataNode.value.range, MissingNameMessage)];
      }
    }
    if doc.kind == Some("Pipeline") {
      diagnostics := ValidatePipeline(doc, diagnostics);
    }
  }

  /** `validate_pipeline`, which appends to the diagnostics it is given. */
  method ValidatePipeline(doc: YamlDocument, diagnostics: seq<Diagnostic>) returns (out: seq<Diagnostic>)
    ensures out == diagnostics + PipelineDiagnostics(doc)
  {
    out := diagnostics;
    var specNode := Get(doc.root, "spec");
    if specNode.Some? {
      var tasksNode := Get(specNode.value, "tasks");
      if tasksNode.Some? {
        match tasksNode.value.value {
          case Sequence(tasks) =>
            if tasks == [] {
              out := out + [ErrorAt(tasksNode.value.range, NoTasksMessage)];
            }
          case _ =>
            out := out + [ErrorAt(tasksNode.value.range, TasksNotArrayMessage)];
        }
      }
    }
  }

  // ---------------------------------------------------------------------
  // Properties

  /** There are at most two diagnostics, all of them errors from the server. */
  lemma DiagnosticsBounded(doc: YamlDocument)
    ensures |Diagnostics(doc)| <= 2
    ensures forall d :: d in Diagnostics(doc) ==>
              d.severity == Some(Error) && d.source == Some(DiagnosticSource)
  {
    var a := NameDiagnostics(doc);
    var b := if doc.kind == Some("Pipeline") then PipelineDiagnostics(doc) else [];
    assert |a| <= 1 && |b| <= 1;
    forall d: Diagnostic | d in a + b ensures d.severity == Some(Error) && d.source == Some(DiagnosticSource) {
      assert d in a || d in b;
    }
  }

  /** The name error is reported exactly when `metadata` is present without a
      `name`, and then it comes first and sits at the metadata node. */
  lemma MissingNameReported(doc: YamlDocument)
    ensures (exists i :: 0 <= i < |Diagnostics(doc)| && Diagnostics(doc)[i].message == MissingNameMessage)
        <==> Get(doc.root, "metadata").Some? && Get(Get(doc.root, "metadata").value, "name").None?
    ensures Get(doc.root, "metadata").Some? && Get(Get(doc.root, "metadata").value, "name").None? ==>
              Diagnostics(doc)[0] == ErrorAt(Get(doc.root, "metadata").value.range, MissingNameMessage)
  {
    var a := NameDiagnostics(doc);
    var b := if doc.kind == Some("Pipeline") then PipelineDiagnostics(doc) else [];
    var all := Diagnostics(doc);
    assert all == a + b;
    forall i | 0 <= i < |b| ensures b[i].message != MissingNameMessage {
      PipelineMessages(doc);
    }
    forall i | |a| <= i < |all| ensures all[i].message != MissingNameMessage {
      assert all[i] == b[i - |a|];
    }
    if a != [] {
      assert all[0] == a[0];
    }
  }

  /** The tasks diagnostics carry one of the two tasks messages. */
  lemma PipelineMessages(doc: YamlDocument)
    ensures forall d :: d in PipelineDiagnostics(doc) ==>
              d.message == NoTasksMessage || d.message == TasksNotArrayMessage
    ensures |PipelineDiagnostics(doc)| <= 1
  {
  }

  /** Only a Pipeline is checked for its tasks: any other kind gets at most
      the name error. */
  lemma OnlyPipelinesCheckTasks(doc: YamlDocument)
    requires doc.kind != Some("Pipeline")
    ensures Diagnostics(doc) == NameDiagnostics(doc)
    ensures forall d :: d in Diagnostics(doc) ==> d.message == MissingNameMessage
  {
    assert Diagnostics(doc) == NameDiagnostics(doc) + [];
  }

  /** A Pipeline's `spec.tasks` that is an empty sequence is reported, at the
      tasks node, after the name error if there is one. */
  lemma EmptyTasksReported(doc: YamlDocument)
    requires doc.kind == Some("Pipeline")
    requires Get(doc.root, "spec").Some?
    requires Get(Get(doc.root, "spec").value, "tasks").Some?
    requires Get(Get(doc.root, "spec").value, "tasks").value.value == Sequence([])
    ensures Diagnostics(doc)
         == NameDiagnostics(doc) + [ErrorAt(Get(Get(doc.root, "spec").value, "tasks").value.range, NoTasksMessage)]
  {
  }

  /** A Pipeline's `spec.tasks` that is not a sequence is reported at the
      tasks node. */
  lemma NonSequenceTasksReported(doc: YamlDocument)
    requires doc.kind == Some("Pipeline")
    requires Get(doc.root, "spec").Some?
    requires Get(Get(doc.root, "spec").value, "tasks").Some?
    requires !Get(Get(doc.root, "spec").value, "tasks").value.value.Sequence?
    ensures Diagnostics(doc)
         == NameDiagnostics(doc) + [ErrorAt(Get(Get(doc.root, "spec").value, "tasks").value.range, TasksNotArrayMessage)]
  {
  }

  /** A Pipeline without a spec, without tasks, or with at least one task gets
      no tasks diagnostic. */
  lemma WellFormedTasksNotReported(doc: YamlDocument)
    requires Get(doc.root, "spec").None?
          || Get(Get(doc.root, "spec").value, "tasks").None?
          || (Get(Get(doc.root, "spec").value, "tasks").value.value.Sequence?
              && Get(Get(doc.root, "spec").value, "tasks").value.value.items != [])
    ensures Diagnostics(doc) == NameDiagnostics(doc)
  {
    assert PipelineDiagnostics(doc) == [];
    assert Diagnostics(doc) == NameDiagnostics(doc) + [];
  }

  /** Every diagnostic carries one of the validator's three messages. */
  lemma DiagnosticMessages(doc: YamlDocument)
    ensures forall d :: d in Diagnostics(doc) ==>
              d.message == MissingNameMessage || d.message == NoTasksMessage || d.message == TasksNotArrayMessage
  {
    PipelineMessages(doc);
    forall d | d in Diagnostics(doc)
      ensures d.message == MissingNameMessage || d.message == NoTasksMessage || d.message == TasksNotArrayMessage
    {
      assert d in NameDiagnostics(doc) || d in PipelineDiagnostics(doc);
    }
  }

  /** The validator's messages have no upper-case `M` or `U`, the first
      letters of the two messages the quick fixes look for. Each message is
      checked on its own, which keeps the character search small. */
  predicate NoFieldInitials(m: string) {
    'M' !in m && 'U' !in m
  }

  lemma MissingNameMessageLacksFieldInitials()
    ensures NoFieldInitials(MissingNameMessage)
  {
  }

  lemma NoTasksMessageLacksFieldInitials()
    ensures NoFieldInitials(NoTasksMessage)
  {
  }

  lemma TasksNotArrayMessageLacksFieldInitials()
    ensures NoFieldInitials(TasksNotArrayMessage)
  {
  }

  /** None of the validator's diagnostics gets a quick fix: none of its
      messages mentions a missing required field or an unknown field. */
  lemma DiagnosticsGetNoQuickFixes(uri: Uri, doc: YamlDocument)
    ensures Actions.ActionsFor(uri, Diagnostics(doc)) == []
  {
    DiagnosticMessages(doc);
    MissingNameMessageLacksFieldInitials();
    NoTasksMessageLacksFieldInitials();
    TasksNotArrayMessageLacksFieldInitials();
    forall d | d in Diagnostics(doc)
      ensures !Strings.Contains(d.message, Actions.MissingFieldPrefix)
      ensures !Strings.Contains(d.message, Actions.UnknownFieldPrefix)
    {
      Actions.FirstCharAbsent(d.message, Actions.MissingFieldPrefix);
      Actions.FirstCharAbsent(d.message, Actions.UnknownFieldPrefix);
    }
    Actions.UnrecognisedMessagesGetNoActions(uri, Diagnostics(doc));
  }
}
