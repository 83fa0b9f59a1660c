/** The document outline (src/symbols/provider.rs): one root symbol for the
    resource, sections for `metadata` and `spec`, and under `spec` a fixed
    per-kind list of array and section symbols. The functions describe the
    outline; the methods build it by pushing, as the source does. */
module Symbols {
  import opened Wrappers
  import opened Lsp
  import opened Strings
  import opened Ast
  import opened Seqs

  datatype SymbolKind = File | Module | Namespace | Class | Property | Function | Variable | Object | Interface | Array

  datatype DocumentSymbol = DocumentSymbol(
    name: string, detail: Option<string>, kind: SymbolKind,
    range: Range, selectionRange: Range, children: Option<seq<DocumentSymbol>>)

  /** A field shown under `spec`: an array with items of a symbol kind, or a
      section of a symbol kind. */
  datatype SpecField = ArrayOf(name: string, itemKind: SymbolKind) | SectionOf(name: string, sectionKind: SymbolKind)

  /** `resource_kind_to_symbol_kind`. */
  function ResourceKindToSymbolKind(kind: string): (r: SymbolKind)
    ensures r == Class <==> kind == "Pipeline" || kind == "Task" || kind == "ClusterTask"
    ensures r == Object <==> kind == "PipelineRun" || kind == "TaskRun"
    ensures r == Interface <==> kind == "TriggerTemplate" || kind == "TriggerBinding" || kind == "EventListener"
    ensures r == File || r == Class || r == Object || r == Interface
  {
    match kind
    case "Pipeline" => Class
    case "Task" => Class
    case "ClusterTask" => Class
    case "PipelineRun" => Object
    case "TaskRun" => Object
    case "TriggerTemplate" => Interface
    case "TriggerBinding" => Interface
    case "EventListener" => Interface
    case _ => File
  }

  /** `get_name_from_node`: the scalar `name` child. */
  function GetNameFromNode(node: Node): Option<string> {
    ScalarAt(node, "name")
  }

  /** `get_resource_name`: the scalar `metadata.name`. */
  function GetResourceName(root: Node): (r: Option<string>)
    ensures r.Some? <==> Get(root, "metadata").Some? && ScalarAt(Get(root, "metadata").value, "name").Some?
    ensures r.Some? ==> r == ScalarAt(Get(root, "metadata").value, "name")
  {
    match Get(root, "metadata")
    case None => None
    case Some(metadata) => GetNameFromNode(metadata)
  }

  /** `create_section_symbol`: named, over the node's range, with an empty
      child list. */
  function CreateSectionSymbol(name: string, node: Node, kind: SymbolKind): DocumentSymbol {
    DocumentSymbol(name, None, kind, node.range, node.range, Some([]))
  }

  /** The symbol of one array item. */
  function ItemSymbol(item: Node, itemKind: SymbolKind): DocumentSymbol {
    DocumentSymbol(GetNameFromNode(item).UnwrapOr("unnamed"), None, itemKind, item.range, item.range, None)
  }

  /** The item symbols of a list of items, in item order. */
  function ItemSymbols(items: seq<Node>, itemKind: SymbolKind): (r: seq<DocumentSymbol>)
    ensures |r| == |items|
    ensures forall i :: 0 <= i < |items| ==>
      r[i].name == ScalarAt(items[i], "name").UnwrapOr("unnamed")
      && r[i].kind == itemKind && r[i].range == items[i].range && r[i].selectionRange == items[i].range
      && r[i].detail.None? && r[i].children.None?
  {
    if items == [] then []
    else ItemSymbols(items[..|items| - 1], itemKind) + [ItemSymbol(items[|items| - 1], itemKind)]
  }

  /** The items of a sequence node, none for any other node. */
  function SequenceItems(node: Node): seq<Node> {
    if node.value.Sequence? then node.value.items else []
  }

  /** The array symbol of a node: "name (n)" for n items, children only
      when there are items. */
  function ArraySymbol(name: string, node: Node, itemKind: SymbolKind): DocumentSymbol {
    var children := ItemSymbols(SequenceItems(node), itemKind);
    DocumentSymbol(name + " (" + NatToString(|children|) + ")", None, Array, node.range, node.range,
                   if children == [] then None else Some(children))
  }

  /** The symbol a present field gets. */
  function FieldSymbol(spec: Node, f: SpecField): seq<DocumentSymbol> {
    match Get(spec, f.name)
    case None => []
    case Some(node) =>
      match f
      case ArrayOf(name, itemKind) => [ArraySymbol(name, node, itemKind)]
      case SectionOf(name, kind) => [CreateSectionSymbol(name, node, kind)]
  }

  /** The symbols of the present fields, in table order. */
  function FieldSymbols(spec: Node, fields: seq<SpecField>): seq<DocumentSymbol> {
    if fields == [] then [] else FieldSymbol(spec, fields[0]) + FieldSymbols(spec, fields[1..])
  }

  const PipelineSpecFields: seq<SpecField> :=
    [ArrayOf("params", Variable), ArrayOf("workspaces", Variable), ArrayOf("tasks", Variable),
     ArrayOf("finally", Variable), ArrayOf("results", Variable)]

  /** Steps and sidecars are shown as functions. */
  const TaskSpecFields: seq<SpecField> :=
    [ArrayOf("params", Variable), ArrayOf("workspaces", Variable), ArrayOf("steps", Function),
     ArrayOf("sidecars", Function), ArrayOf("results", Variable)]

  const PipelineRunSpecFields: seq<SpecField> :=
    [SectionOf("pipelineRef", Property), ArrayOf("params", Variable), ArrayOf("workspaces", Variable)]

  const TaskRunSpecFields: seq<SpecField> :=
    [SectionOf("taskRef", Property), ArrayOf("params", Variable), ArrayOf("workspaces", Variable)]

  /** The fields shown under `spec`, by resource kind. */
  function SpecFields(kind: string): seq<SpecField> {
    if kind == "Pipeline" then PipelineSpecFields
    else if kind == "Task" || kind == "ClusterTask" then TaskSpecFields
    else if kind == "PipelineRun" then PipelineRunSpecFields
    else if kind == "TaskRun" then TaskRunSpecFields
    else []
  }

  /** The `spec` section with its per-kind children. */
  function SpecSymbol(spec: Node, kind: string): DocumentSymbol {
    CreateSectionSymbol("spec", spec, Module).(children := Some(FieldSymbols(spec, SpecFields(kind))))
  }

  /** The root's children: `metadata`, then `spec`, each when present. */
  function ResourceChildren(root: Node, kind: string): seq<DocumentSymbol> {
    (match Get(root, "metadata") case Some(m) => [CreateSectionSymbol("metadata", m, Namespace)] case None => [])
    + (match Get(root, "spec") case Some(spec) => [SpecSymbol(spec, kind)] case None => [])
  }

  /** The symbol of the whole resource. */
  function RootSymbol(doc: YamlDocument): DocumentSymbol {
    var kind := doc.kind.UnwrapOr("Unknown");
    var name := GetResourceName(doc.root).UnwrapOr(kind);
    DocumentSymbol(kind + ": " + name, doc.apiVersion, ResourceKindToSymbolKind(kind),
                   doc.root.range, doc.root.range, Some(ResourceChildren(doc.root, kind)))
  }

  // ----- properties -----

  /** An array symbol counts the node's sequence items in its name, shows
      them as children in order, and has no children exactly when there are
      none. */
  lemma ArraySymbolShape(name: string, node: Node, itemKind: SymbolKind)
    ensures var s := ArraySymbol(name, node, itemKind);
      var items := SequenceItems(node);
      s.name == name + " (" + NatToString(|items|) + ")"
      && s.kind == Array && s.detail.None? && s.range == node.range && s.selectionRange == node.range
      && (s.children.None? <==> |items| == 0)
      && (s.children.Some? ==>
            |s.children.value| == |items|
            && forall i :: 0 <= i < |items| ==>
                 s.children.value[i].name == ScalarAt(items[i], "name").UnwrapOr("unnamed")
                 && s.children.value[i].kind == itemKind
                 && s.children.value[i].range == items[i].range
                 && s.children.value[i].children.None?)
  {
  }

  /** The fields of a table that the spec node has. */
  function PresentFields(spec: Node, fields: seq<SpecField>): (r: seq<SpecField>)
    ensures forall f :: f in r ==> f in fields && Get(spec, f.name).Some?
  {
    if fields == [] then []
    else (if Get(spec, fields[0].name).Some? then [fields[0]] else []) + PresentFields(spec, fields[1..])
  }

  /** One symbol per field, in order, each over its field's node and named
      after it. */
  predicate SymbolsOverFields(spec: Node, syms: seq<DocumentSymbol>, present: seq<SpecField>) {
    |syms| == |present|
    && forall i :: 0 <= i < |syms| ==>
         Get(spec, present[i].name).Some?
         && syms[i].range == Get(spec, present[i].name).value.range
         && StartsWith(syms[i].name, present[i].name)
  }

  /** The spec children are one symbol per present field, in table order,
      each over its field's node and named after it. */
  lemma {:induction false} FieldSymbolsFollowTable(spec: Node, fields: seq<SpecField>)
    ensures SymbolsOverFields(spec, FieldSymbols(spec, fields), PresentFields(spec, fields))
  {
    if fields != [] {
      var f := fields[0];
      FieldSymbolsFollowTable(spec, fields[1..]);
      FieldSymbolOverField(spec, f);
      SymbolsOverFieldsAppend(spec, FieldSymbol(spec, f), if Get(spec, f.name).Some? then [f] else [],
                              FieldSymbols(spec, fields[1..]), PresentFields(spec, fields[1..]));
    }
  }

  /** A single field contributes its own symbol exactly when present. */
  lemma FieldSymbolOverField(spec: Node, f: SpecField)
    ensures SymbolsOverFields(spec, FieldSymbol(spec, f), if Get(spec, f.name).Some? then [f] else [])
  {
    match Get(spec, f.name) {
      case None =>
      case Some(node) =>
        var s := FieldSymbol(spec, f)[0];
        assert StartsWith(s.name, f.name) by {
          assert s.name[..|f.name|] == f.name;
        }
    }
  }

  lemma SymbolsOverFieldsAppend(spec: Node, s1: seq<DocumentSymbol>, p1: seq<SpecField>,
                                s2: seq<DocumentSymbol>, p2: seq<SpecField>)
    requires SymbolsOverFields(spec, s1, p1) && SymbolsOverFields(spec, s2, p2)
    ensures SymbolsOverFields(spec, s1 + s2, p1 + p2)
  {
    var syms, present := s1 + s2, p1 + p2;
    forall i | 0 <= i < |syms|
      ensures Get(spec, present[i].name).Some?
      ensures syms[i].range == Get(spec, present[i].name).value.range
      ensures StartsWith(syms[i].name, present[i].name)
    {
      if i < |s1| {
        assert syms[i] == s1[i] && present[i] == p1[i];
      } else {
        assert syms[i] == s2[i - |s1|] && present[i] == p2[i - |s1|];
      }
    }
  }

  /** Only the five resource kinds with an outline get spec children. */
  lemma OtherKindsHaveNoSpecChildren(spec: Node, kind: string)
    requires kind !in {"Pipeline", "Task", "ClusterTask", "PipelineRun", "TaskRun"}
    ensures SpecSymbol(spec, kind).children == Some([])
  {
  }

  /** The root's children are `metadata` then `spec`, each exactly when
      present. */
  lemma ResourceChildrenOrder(root: Node, kind: string)
    ensures var cs := ResourceChildren(root, kind);
      var hasMetadata := Get(root, "metadata").Some?;
      var hasSpec := Get(root, "spec").Some?;
      |cs| == (if hasMetadata then 1 else 0) + (if hasSpec then 1 else 0)
      && (hasMetadata ==> cs[0].name == "metadata" && cs[0].kind == Namespace && cs[0].range == Get(root, "metadata").value.range)
      && (hasSpec ==> cs[|cs| - 1].name == "spec" && cs[|cs| - 1].kind == Module && cs[|cs| - 1].range == Get(root, "spec").value.range)
  {
  }

  /** The root symbol: "Kind: name", the kind defaulting to "Unknown" and
      the name to the kind; detailed by the apiVersion; over the root's
      range. */
  lemma RootSymbolShape(doc: YamlDocument)
    ensures var s := RootSymbol(doc);
      var kind := if doc.kind.Some? then doc.kind.value else "Unknown";
      s.name == kind + ": " + (if GetResourceName(doc.root).Some? then GetResourceName(doc.root).value else kind)
      && s.detail == doc.apiVersion && s.kind == ResourceKindToSymbolKind(kind)
      && s.range == doc.root.range && s.selectionRange == doc.root.range
      && s.children.Some?
  {
  }

  // ----- the builders -----

  /** `create_array_symbol_with_kind`: the loop over the items. */
  method CreateArraySymbolWithKind(name: string, node: Node, itemKind: SymbolKind) returns (s: DocumentSymbol)
    ensures s == ArraySymbol(name, node, itemKind)
  {
    var children: seq<DocumentSymbol> := [];
    if node.value.Sequence? {
      var items := node.value.items;
      var i := 0;
      while i < |items|
        invariant 0 <= i <= |items|
        invariant children == ItemSymbols(items[..i], itemKind)
      {
        var item := items[i];
        var itemName := GetNameFromNode(item).UnwrapOr("unnamed");
        children := children + [DocumentSymbol(itemName, None, itemKind, item.range, item.range, None)];
        assert items[..i + 1][..i] == items[..i];
        i := i + 1;
      }
      assert items[..|items|] == items;
    }
    var count := |children|;
    s := DocumentSymbol(name + " (" + NatToString(count) + ")", None, Array, node.range, node.range,
                        if children == [] then None else Some(children));
  }

  lemma FieldSymbolsCons(spec: Node, f: SpecField, rest: seq<SpecField>)
    ensures FieldSymbols(spec, [f] + rest) == FieldSymbol(spec, f) + FieldSymbols(spec, rest)
  {
    assert ([f] + rest)[1..] == rest;
  }

  lemma FieldSymbolsOfThree(spec: Node, a: SpecField, b: SpecField, c: SpecField)
    ensures FieldSymbols(spec, [a, b, c]) == FieldSymbol(spec, a) + (FieldSymbol(spec, b) + FieldSymbol(spec, c))
  {
    var t1 := FieldSymbols(spec, [c]);
    assert t1 == FieldSymbol(spec, c) by {
      FieldSymbolsCons(spec, c, []);
      assert [c] + [] == [c];
    }
    var t2 := FieldSymbols(spec, [b, c]);
    assert t2 == FieldSymbol(spec, b) + t1 by {
      FieldSymbolsCons(spec, b, [c]);
      assert [b] + [c] == [b, c];
    }
    assert FieldSymbols(spec, [a, b, c]) == FieldSymbol(spec, a) + t2 by {
      FieldSymbolsCons(spec, a, [b, c]);
      assert [a] + [b, c] == [a, b, c];
    }
  }

  lemma FieldSymbolsOfFive(spec: Node, a: SpecField, b: SpecField, c: SpecField, d: SpecField, e: SpecField)
    ensures FieldSymbols(spec, [a, b, c, d, e]) ==
      FieldSymbol(spec, a) + (FieldSymbol(spec, b) + (FieldSymbol(spec, c) + (FieldSymbol(spec, d) + FieldSymbol(spec, e))))
  {
    var t1 := FieldSymbols(spec, [e]);
    assert t1 == FieldSymbol(spec, e) by {
      FieldSymbolsCons(spec, e, []);
      assert [e] + [] == [e];
    }
    var t2 := FieldSymbols(spec, [d, e]);
    assert t2 == FieldSymbol(spec, d) + t1 by {
      FieldSymbolsCons(spec, d, [e]);
      assert [d] + [e] == [d, e];
    }
    var t3 := FieldSymbols(spec, [c, d, e]);
    assert t3 == FieldSymbol(spec, c) + t2 by {
      FieldSymbolsCons(spec, c, [d, e]);
      assert [c] + [d, e] == [c, d, e];
    }
    var t4 := FieldSymbols(spec, [b, c, d, e]);
    assert t4 == FieldSymbol(spec, b) + t3 by {
      FieldSymbolsCons(spec, b, [c, d, e]);
      assert [b] + [c, d, e] == [b, c, d, e];
    }
    assert FieldSymbols(spec, [a, b, c, d, e]) == FieldSymbol(spec, a) + t4 by {
      FieldSymbolsCons(spec, a, [b, c, d, e]);
      assert [a] + [b, c, d, e] == [a, b, c, d, e];
    }
  }

  /** Five pushes in a row append the table's symbols in order. */
  lemma FivePushes(children: seq<DocumentSymbol>, s0: seq<DocumentSymbol>, s1: seq<DocumentSymbol>,
                   s2: seq<DocumentSymbol>, s3: seq<DocumentSymbol>, s4: seq<DocumentSymbol>)
    ensures children + (s0 + (s1 + (s2 + (s3 + s4)))) == children + s0 + s1 + s2 + s3 + s4
  {
    AppendAssociative(children, s0, s1 + (s2 + (s3 + s4)));
    AppendAssociative(children + s0, s1, s2 + (s3 + s4));
    AppendAssociative(children + s0 + s1, s2, s3 + s4);
    AppendAssociative(children + s0 + s1 + s2, s3, s4);
  }

  /** Pushes a field's symbol when the spec has the field: an array symbol
      or a section symbol. */
  method PushField(children: seq<DocumentSymbol>, spec: Node, f: SpecField) returns (out: seq<DocumentSymbol>)
    ensures out == children + FieldSymbol(spec, f)
  {
    out := children;
    var node := Get(spec, f.name);
    if node.Some? {
      match f {
        case ArrayOf(name, itemKind) =>
          var s := CreateArraySymbolWithKind(name, node.value, itemKind);
          out := out + [s];
        case SectionOf(name, kind) =>
          out := out + [CreateSectionSymbol(name, node.value, kind)];
      }
    }
  }

  /** `add_pipeline_spec_children`. */
  method AddPipelineSpecChildren(children: seq<DocumentSymbol>, spec: Node) returns (out: seq<DocumentSymbol>)
    ensures out == children + FieldSymbols(spec, PipelineSpecFields)
  {
    out := PushField(children, spec, ArrayOf("params", Variable));
    out := PushField(out, spec, ArrayOf("workspaces", Variable));
    out := PushField(out, spec, ArrayOf("tasks", Variable));
    out := PushField(out, spec, ArrayOf("finally", Variable));
    out := PushField(out, spec, ArrayOf("results", Variable));
    FieldSymbolsOfFive(spec, PipelineSpecFields[0], PipelineSpecFields[1], PipelineSpecFields[2],
                       PipelineSpecFields[3], PipelineSpecFields[4]);
    FivePushes(children, FieldSymbol(spec, PipelineSpecFields[0]), FieldSymbol(spec, PipelineSpecFields[1]), FieldSymbol(spec, PipelineSpecFields[2]),
               FieldSymbol(spec, PipelineSpecFields[3]), FieldSymbol(spec, PipelineSpecFields[4]));
  }

  /** `add_task_spec_children`, for Task and ClusterTask. */
  method AddTaskSpecChildren(children: seq<DocumentSymbol>, spec: Node) returns (out: seq<DocumentSymbol>)
    ensures out == children + FieldSymbols(spec, TaskSpecFields)
  {
    out := PushField(children, spec, ArrayOf("params", Variable));
    out := PushField(out, spec, ArrayOf("workspaces", Variable));
    out := PushField(out, spec, ArrayOf("steps", Function));
    out := PushField(out, spec, ArrayOf("sidecars", Function));
    out := PushField(out, spec, ArrayOf("results", Variable));
    FieldSymbolsOfFive(spec, TaskSpecFields[0], TaskSpecFields[1], TaskSpecFields[2],
                       TaskSpecFields[3], TaskSpecFields[4]);
    FivePushes(children, FieldSymbol(spec, TaskSpecFields[0]), FieldSymbol(spec, TaskSpecFields[1]), FieldSymbol(spec, TaskSpecFields[2]),
               FieldSymbol(spec, TaskSpecFields[3]), FieldSymbol(spec, TaskSpecFields[4]));
  }

  /** `add_pipeline_run_spec_children`. */
  method AddPipelineRunSpecChildren(children: seq<DocumentSymbol>, spec: Node) returns (out: seq<DocumentSymbol>)
    ensures out == children + FieldSymbols(spec, PipelineRunSpecFields)
  {
    out := PushField(children, spec, SectionOf("pipelineRef", Property));
    out := PushField(out, spec, ArrayOf("params", Variable));
    out := PushField(out, spec, ArrayOf("workspaces", Variable));
    FieldSymbolsOfThree(spec, PipelineRunSpecFields[0], PipelineRunSpecFields[1], PipelineRunSpecFields[2]);
    AppendAssociative(children + FieldSymbol(spec, PipelineRunSpecFields[0]), FieldSymbol(spec, PipelineRunSpecFields[1]), FieldSymbol(spec, PipelineRunSpecFields[2]));
    AppendAssociative(children, FieldSymbol(spec, PipelineRunSpecFields[0]), FieldSymbol(spec, PipelineRunSpecFields[1]) + FieldSymbol(spec, PipelineRunSpecFields[2]));
  }

  /** `add_task_run_spec_children`. */
  method AddTaskRunSpecChildren(children: seq<DocumentSymbol>, spec: Node) returns (out: seq<DocumentSymbol>)
    ensures out == children + FieldSymbols(spec, TaskRunSpecFields)
  {
    out := PushField(children, spec, SectionOf("taskRef", Property));
    out := PushField(out, spec, ArrayOf("params", Variable));
    out := PushField(out, spec, ArrayOf("workspaces", Variable));
    FieldSymbolsOfThree(spec, TaskRunSpecFields[0], TaskRunSpecFields[1], TaskRunSpecFields[2]);
    AppendAssociative(children + FieldSymbol(spec, TaskRunSpecFields[0]), FieldSymbol(spec, TaskRunSpecFields[1]), FieldSymbol(spec, TaskRunSpecFields[2]));
    AppendAssociative(children, FieldSymbol(spec, TaskRunSpecFields[0]), FieldSymbol(spec, TaskRunSpecFields[1]) + FieldSymbol(spec, TaskRunSpecFields[2]));
  }

  /** `add_resource_children`. */
  method AddResourceChildren(children: seq<DocumentSymbol>, root: Node, kind: string) returns (out: seq<DocumentSymbol>)
    ensures out == children + ResourceChildren(root, kind)
  {
    var first := match Get(root, "metadata") case Some(m) => [CreateSectionSymbol("metadata", m, Namespace)] case None => [];
    var second := match Get(root, "spec") case Some(spec) => [SpecSymbol(spec, kind)] case None => [];
    out := children;
    var metadata := Get(root, "metadata");
    if metadata.Some? {
      out := out + [CreateSectionSymbol("metadata", metadata.value, Namespace)];
    }
    assert out == children + first;
    var spec := Get(root, "spec");
    if spec.Some? {
      var specSymbol := CreateSectionSymbol("spec", spec.value, Module);
      var specChildren := AddSpecChildren(specSymbol.children.value, spec.value, kind);
      assert specChildren == FieldSymbols(spec.value, SpecFields(kind)) by {
        assert specSymbol.children.value == [];
      }
      specSymbol := specSymbol.(children := Some(specChildren));
      out := out + [specSymbol];
    }
    assert out == (children + first) + second;
    AppendAssociative(children, first, second);
  }

  /** The choice of spec children by resource kind in `add_resource_children`. */
  method AddSpecChildren(children: seq<DocumentSymbol>, spec: Node, kind: string) returns (out: seq<DocumentSymbol>)
    ensures out == children + FieldSymbols(spec, SpecFields(kind))
  {
    if kind == "Pipeline" {
      out := AddPipelineSpecChildren(children, spec);
    } else if kind == "Task" || kind == "ClusterTask" {
      out := AddTaskSpecChildren(children, spec);
    } else if kind == "PipelineRun" {
      out := AddPipelineRunSpecChildren(children, spec);
    } else if kind == "TaskRun" {
      out := AddTaskRunSpecChildren(children, spec);
    } else {
      out := children;
      assert children + [] == children;
    }
  }

  /** `provide_symbols`: exactly the root symbol. */
  method ProvideSymbols(doc: YamlDocument) returns (symbols: seq<DocumentSymbol>)
    ensures symbols == [RootSymbol(doc)]
  {
    var kind := doc.kind.UnwrapOr("Unknown");
    var name := GetResourceName(doc.root).UnwrapOr(kind);
    var children := AddResourceChildren([], doc.root, kind);
    assert children == ResourceChildren(doc.root, kind);
    var rootSymbol := DocumentSymbol(kind + ": " + name, doc.apiVersion, ResourceKindToSymbolKind(kind),
                                     doc.root.range, doc.root.range, Some(children));
    symbols := [rootSymbol];
  }
}
