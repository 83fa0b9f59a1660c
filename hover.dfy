/** Hover (src/hover/provider.rs): the node under the cursor and the first
    documented name among the ones it offers. The documentation table of
    src/hover/docs.rs is a parameter `docs`. */
module Hover {
  import opened Wrappers
  import opened Lsp
  import opened Ast
  import opened YamlParser

  datatype MarkupKind = PlainText | Markdown
  datatype MarkupContent = MarkupContent(kind: MarkupKind, value: string)
  datatype Hover = Hover(contents: MarkupContent, range: Option<Range>)

  /** Documentation by field name or value. */
  type Docs = map<string, string>

  /** `find_node_with_key_at_position`: nothing outside the node's range;
      otherwise an innermost node on a path containing the position, paired
      with that node's own key. */
  function FindNodeWithKey(node: Node, pos: Position): (r: Option<(Node, Option<string>)>)
    decreases node, 1
    ensures r.None? <==> !PositionInRange(pos, node.range)
    ensures r.Some? ==> r.value.1 == r.value.0.key
    ensures r.Some? ==> OnPath(node, r.value.0, pos) && Innermost(r.value.0, pos)
  {
    if !PositionInRange(pos, node.range) then None
    else
      match KeyedInChildren(node, pos, 0)
      case Some(found) => Some(found)
      case None => Some((node, node.key))
  }

  /** The loop over the children from the `i`-th on. A mapping entry whose
      child contains the position but yields nothing returns the child with
      the entry's key; the recursive call never yields nothing there, so the
      key returned is always the node's own. */
  function KeyedInChildren(node: Node, pos: Position, i: nat): (r: Option<(Node, Option<string>)>)
    requires i <= |Children(node)|
    decreases node, 0, |Children(node)| - i
    ensures r.Some? ==> r.value.1 == r.value.0.key
    ensures r.Some? ==> (exists j :: i <= j < |Children(node)| && OnPath(Children(node)[j], r.value.0, pos))
                        && Innermost(r.value.0, pos)
    ensures r.None? <==> forall j :: i <= j < |Children(node)| ==> !PositionInRange(pos, Children(node)[j].range)
  {
    if i == |Children(node)| then None
    else
      var child := Children(node)[i];
      var entryKey := if node.value.Mapping? then Some(node.value.entries[i].0) else None;
      match FindNodeWithKey(child, pos)
      case Some(found) => Some(found)
      case None =>
        if entryKey.Some? && PositionInRange(pos, child.range) then Some((child, entryKey))
        else KeyedInChildren(node, pos, i + 1)
  }

  /** The names hover tries, in order: the key, the node's scalar value, the
      node's own key, and the document's kind when the key is "kind". */
  function HoverCandidates(node: Node, key: Option<string>, doc: YamlDocument): seq<string> {
    OptionToSeq(key)
    + (if node.value.Scalar? then [node.value.text] else [])
    + OptionToSeq(node.key)
    + (if key == Some("kind") then OptionToSeq(doc.kind) else [])
  }

  /** The documentation of the first documented name. */
  function FirstDocumented(docs: Docs, names: seq<string>): (r: Option<string>)
    ensures r.None? <==> forall i :: 0 <= i < |names| ==> names[i] !in docs
    ensures r.Some? ==> exists i :: 0 <= i < |names| && names[i] in docs && r.value == docs[names[i]]
                                    && forall j :: 0 <= j < i ==> names[j] !in docs
  {
    if names == [] then None
    else if names[0] in docs then Some(docs[names[0]])
    else
      var rest := FirstDocumented(docs, names[1..]);
      assert forall i :: 1 <= i < |names| ==> names[i] == names[1..][i - 1];
      rest
  }

  /** `get_hover_documentation`: its chain of lookups finds the first
      documented candidate. */
  function GetHoverDocumentation(docs: Docs, node: Node, key: Option<string>, doc: YamlDocument): (r: Option<string>)
    ensures r == FirstDocumented(docs, HoverCandidates(node, key, doc))
  {
    HoverLookupOrder(docs, node, key, doc);
    if key.Some? && key.value in docs then
      Some(docs[key.value])
    else if node.value.Scalar? && node.value.text in docs then
      Some(docs[node.value.text])
    else if node.key.Some? && node.key.value in docs then
      Some(docs[node.key.value])
    else if key == Some("kind") && doc.kind.Some? && doc.kind.value in docs then
      Some(docs[doc.kind.value])
    else
      None
  }

  /** The first documented name of a concatenation. */
  lemma {:induction false} FirstDocumentedAppend(docs: Docs, a: seq<string>, b: seq<string>)
    ensures FirstDocumented(docs, a + b) ==
      if FirstDocumented(docs, a).Some? then FirstDocumented(docs, a) else FirstDocumented(docs, b)
  {
    if a == [] {
      assert a + b == b;
    } else {
      assert (a + b)[0] == a[0];
      assert (a + b)[1..] == a[1..] + b;
      FirstDocumentedAppend(docs, a[1..], b);
    }
  }

  lemma HoverLookupOrder(docs: Docs, node: Node, key: Option<string>, doc: YamlDocument)
    ensures FirstDocumented(docs, HoverCandidates(node, key, doc)) ==
      if key.Some? && key.value in docs then Some(docs[key.value])
      else if node.value.Scalar? && node.value.text in docs then Some(docs[node.value.text])
      else if node.key.Some? && node.key.value in docs then Some(docs[node.key.value])
      else if key == Some("kind") && doc.kind.Some? && doc.kind.value in docs then Some(docs[doc.kind.value])
      else None
  {
    var a := OptionToSeq(key);
    var b := if node.value.Scalar? then [node.value.text] else [];
    var c := OptionToSeq(node.key);
    var d := if key == Some("kind") then OptionToSeq(doc.kind) else [];
    FirstDocumentedAppend(docs, a + b + c, d);
    FirstDocumentedAppend(docs, a + b, c);
    FirstDocumentedAppend(docs, a, b);
  }

  /** `provide_hover`: Markdown documentation over the found node's range,
      which contains the position. */
  function ProvideHover(docs: Docs, doc: YamlDocument, pos: Position): (r: Option<Hover>)
    ensures r.Some? <==>
      FindNodeWithKey(doc.root, pos).Some?
      && GetHoverDocumentation(docs, FindNodeWithKey(doc.root, pos).value.0, FindNodeWithKey(doc.root, pos).value.1, doc).Some?
    ensures r.Some? ==>
      var (node, key) := FindNodeWithKey(doc.root, pos).value;
      r.value.contents == MarkupContent(Markdown, GetHoverDocumentation(docs, node, key, doc).value)
      && r.value.range == Some(node.range)
      && PositionInRange(pos, node.range)
  {
    match FindNodeWithKey(doc.root, pos)
    case None => None
    case Some((node, key)) =>
      OnPathContains(doc.root, node, pos);
      match GetHoverDocumentation(docs, node, key, doc)
      case None => None
      case Some(documentation) => Some(Hover(MarkupContent(Markdown, documentation), Some(node.range)))
  }

  /** On a parsed document the search finds only the root, with no key, so
      hover can only document the root's scalar value. */
  lemma ParsedHoverUsesRootScalar(docs: Docs, filename: string, v: YamlValue, pos: Position)
    ensures var doc := NewYamlDocument(filename, Built(v, 0));
      FindNodeWithKey(doc.root, pos) == (if PositionInRange(pos, doc.root.range) then Some((doc.root, None)) else None)
      && (ProvideHover(docs, doc, pos).Some? ==> doc.root.value.Scalar? && doc.root.value.text in docs)
  {
    var doc := NewYamlDocument(filename, Built(v, 0));
    BuiltIsEstimated(v, 0);
    var r := FindNodeWithKey(doc.root, pos);
    if r.Some? {
      EstimatedPathIsRoot(doc.root, r.value.0, pos);
    }
  }
}
