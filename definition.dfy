/** Go-to-definition (src/definition/provider.rs): the reference under the
    cursor, looked up in the workspace index. */
module Definition {
  import opened Wrappers
  import opened Lsp
  import opened Ast
  import opened YamlParser
  import opened IndexModel
  import opened Workspace

  /** What is being referred to. */
  datatype ReferenceContext = ReferenceContext(kind: string, name: string)

  /** The provider's own range test, written as its chain of early returns. */
  function InRange(pos: Position, range: Range): (b: bool)
    ensures b == PositionInRange(pos, range)
  {
    if pos.line < range.start.line || pos.line > range.end.line then false
    else if pos.line == range.start.line && pos.character < range.start.character then false
    else if pos.line == range.end.line && pos.character > range.end.character then false
    else true
  }

  /** The reference a node itself names: a node keyed "taskRef" or
      "pipelineRef" whose scalar `name` child contains the position. A
      `taskRef` has the kind of its scalar `kind` child, "Task" by default; a
      `pipelineRef` always refers to a Pipeline. */
  function SiteContext(node: Node, pos: Position): (r: Option<ReferenceContext>)
    ensures r.Some? <==>
      (node.key == Some("taskRef") || node.key == Some("pipelineRef"))
      && Get(node, "name").Some? && PositionInRange(pos, Get(node, "name").value.range)
      && ScalarAt(node, "name").Some?
    ensures r.Some? ==> r.value.name == ScalarAt(node, "name").value
    ensures r.Some? && node.key == Some("taskRef") ==> r.value.kind == ScalarAt(node, "kind").UnwrapOr("Task")
    ensures r.Some? && node.key == Some("pipelineRef") ==> r.value.kind == "Pipeline"
  {
    match node.key
    case None => None
    case Some(key) =>
      if key != "taskRef" && key != "pipelineRef" then None
      else
        match Get(node, "name")
        case None => None
        case Some(nameNode) =>
          if !InRange(pos, nameNode.range) then None
          else
            match AsScalar(nameNode)
            case None => None
            case Some(name) =>
              var kind := if key == "taskRef" then ScalarAt(node, "kind").UnwrapOr("Task") else "Pipeline";
              Some(ReferenceContext(kind, name))
  }

  /** `find_reference_context`: nothing outside the node's range; the node's
      own reference first; otherwise some reference on a path of nodes
      containing the position, and none only when no such node names one. */
  function FindReferenceContext(node: Node, pos: Position): (r: Option<ReferenceContext>)
    decreases node, 1
    ensures !PositionInRange(pos, node.range) ==> r.None?
    ensures PositionInRange(pos, node.range) && SiteContext(node, pos).Some? ==> r == SiteContext(node, pos)
    ensures r.Some? ==> exists n :: OnPath(node, n, pos) && SiteContext(n, pos) == r
    ensures r.None? ==> forall n :: OnPath(node, n, pos) ==> SiteContext(n, pos).None?
  {
    if !InRange(pos, node.range) then None
    else
      match SiteContext(node, pos)
      case Some(context) => Some(context)
      case None => ContextInChildren(node, pos, 0)
  }

  /** The loop over the children from the `i`-th on. */
  function ContextInChildren(node: Node, pos: Position, i: nat): (r: Option<ReferenceContext>)
    requires i <= |Children(node)|
    decreases node, 0, |Children(node)| - i
    ensures r.Some? ==> exists j, n :: i <= j < |Children(node)| && OnPath(Children(node)[j], n, pos) && SiteContext(n, pos) == r
    ensures r.None? ==> forall j, n :: i <= j < |Children(node)| && OnPath(Children(node)[j], n, pos) ==> SiteContext(n, pos).None?
  {
    if i == |Children(node)| then None
    else
      match FindReferenceContext(Children(node)[i], pos)
      case Some(context) => Some(context)
      case None => ContextInChildren(node, pos, i + 1)
  }

  /** `provide_definition`: the location of the indexed definition of the
      reference under the cursor. */
  function ProvideDefinition(index: WorkspaceIndex, doc: YamlDocument, pos: Position): (r: Option<Location>)
    reads index
    ensures r.Some? <==>
      FindReferenceContext(doc.root, pos).Some?
      && Key(FindReferenceContext(doc.root, pos).value.kind, FindReferenceContext(doc.root, pos).value.name) in index.resources
    ensures r.Some? ==>
      var context := FindReferenceContext(doc.root, pos).value;
      r == Some(index.resources[Key(context.kind, context.name)].location)
  {
    match FindReferenceContext(doc.root, pos)
    case None => None
    case Some(context) =>
      match index.FindResource(context.kind, context.name)
      case None => None
      case Some(definition) => Some(definition.location)
  }

  /** With a valid index and names free of '/', the definition found is the
      one of the kind and name under the cursor. */
  lemma ProvidedDefinitionMatches(index: WorkspaceIndex, doc: YamlDocument, pos: Position)
    requires index.Valid()
    requires ProvideDefinition(index, doc, pos).Some?
    ensures var context := FindReferenceContext(doc.root, pos).value;
      var d := index.resources[Key(context.kind, context.name)];
      '/' !in context.name && '/' !in d.name ==> d.kind == context.kind && d.name == context.name
  {
    var context := FindReferenceContext(doc.root, pos).value;
    var d := index.resources[Key(context.kind, context.name)];
    if '/' !in context.name && '/' !in d.name {
      FoundDefinitionMatches(index.State(), context.kind, context.name);
    }
  }

  /** The parser never sets a node's key, so on a parsed document no
      position is ever on a reference. */
  lemma ParsedDocumentHasNoReferenceContext(filename: string, v: YamlValue, pos: Position)
    ensures FindReferenceContext(NewYamlDocument(filename, Built(v, 0)).root, pos).None?
  {
    var root := Built(v, 0);
    BuiltIsEstimated(v, 0);
    forall n | OnPath(root, n, pos)
      ensures SiteContext(n, pos).None?
    {
      EstimatedPathIsRoot(root, n, pos);
    }
  }
}
