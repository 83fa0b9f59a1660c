/** The YAML syntax tree the providers walk: a node has an optional key (the
    mapping key it sits under), a value and a source range. A YAML mapping is a
    Rust `HashMap<String, Node>`; it is modelled as the list of its entries in
    the map's (unspecified) iteration order, so nothing proved here depends on
    one particular order. */
module Ast {
  import opened Wrappers
  import opened Lsp

  datatype Node = Node(key: Option<string>, value: NodeValue, range: Range)

  datatype NodeValue =
    | Scalar(text: string)
    | Mapping(entries: seq<(string, Node)>)
    | Sequence(items: seq<Node>)
    | Null

  /** A parsed resource file: the tree and the two top-level scalars extracted
      from it. */
  datatype YamlDocument = YamlDocument(
    filename: string,
    root: Node,
    apiVersion: Option<string>,
    kind: Option<string>)

  /** No two entries of a mapping share a key. */
  ghost predicate DistinctKeys(entries: seq<(string, Node)>) {
    forall i, j :: 0 <= i < j < |entries| ==> entries[i].0 != entries[j].0
  }

  /** The values of a mapping or the items of a sequence; nothing for a scalar
      or null. */
  function Children(n: Node): (cs: seq<Node>)
    ensures forall i :: 0 <= i < |cs| ==> cs[i] < n
  {
    match n.value
    case Mapping(es) =>
      var cs := seq(|es|, i requires 0 <= i < |es| => es[i].1);
      assert forall i :: 0 <= i < |es| ==> es[i] in es;
      cs
    case Sequence(items) => items
    case _ => []
  }

  /** Every mapping of the tree has distinct keys, as a `HashMap` does. */
  ghost predicate WellFormed(n: Node) {
    (n.value.Mapping? ==> DistinctKeys(n.value.entries))
    && forall i :: 0 <= i < |Children(n)| ==> WellFormed(Children(n)[i])
  }

  /** The index of the entry with key `k`, if any. */
  function KeyIndex(entries: seq<(string, Node)>, k: string): (r: Option<nat>)
    ensures r.Some? ==> r.value < |entries| && entries[r.value].0 == k
    ensures r.Some? ==> forall j :: 0 <= j < r.value ==> entries[j].0 != k
    ensures r.None? <==> forall j :: 0 <= j < |entries| ==> entries[j].0 != k
  {
    if |entries| == 0 then None
    else if entries[0].0 == k then Some(0)
    else
      var rest := KeyIndex(entries[1..], k);
      if rest.Some? then Some(rest.value + 1) else None
  }

  /** The first entry with key `k` decides: `k` is found at index `i`. */
  lemma KeyIndexAt(entries: seq<(string, Node)>, k: string, i: nat)
    requires i < |entries| && entries[i].0 == k
    requires forall j :: 0 <= j < i ==> entries[j].0 != k
    ensures KeyIndex(entries, k) == Some(i)
  {
  }

  /** The value stored under `k` in a mapping's entries. */
  function Lookup(entries: seq<(string, Node)>, k: string): (r: Option<Node>)
    ensures r.Some? <==> exists j :: 0 <= j < |entries| && entries[j].0 == k
    ensures r.Some? ==> exists j :: 0 <= j < |entries| && entries[j] == (k, r.value)
  {
    match KeyIndex(entries, k)
    case Some(i) => Some(entries[i].1)
    case None => None
  }

  /** Under distinct keys every entry is what a lookup of its key finds. */
  lemma LookupDistinct(entries: seq<(string, Node)>, j: nat)
    requires DistinctKeys(entries) && j < |entries|
    ensures Lookup(entries, entries[j].0) == Some(entries[j].1)
  {
    KeyIndexAt(entries, entries[j].0, j);
  }

  /** Changing or appending the entry of `k` leaves every other key's lookup alone. */
  lemma LookupOthers(entries: seq<(string, Node)>, r: seq<(string, Node)>, k: string)
    requires |entries| <= |r|
    requires forall j :: 0 <= j < |entries| && entries[j].0 != k ==> r[j] == entries[j]
    requires forall j :: 0 <= j < |entries| && entries[j].0 == k ==> r[j].0 == k
    requires forall j :: |entries| <= j < |r| ==> r[j].0 == k
    ensures forall k' :: k' != k ==> Lookup(r, k') == Lookup(entries, k')
  {
    forall k' | k' != k
      ensures Lookup(r, k') == Lookup(entries, k')
    {
      match KeyIndex(entries, k')
      case Some(m) => KeyIndexAt(r, k', m);
      case None =>
    }
  }

  /** `HashMap::insert`: a present key has its value replaced in place, a new
      key is added at the end of the iteration order. */
  function MapInsert(entries: seq<(string, Node)>, k: string, v: Node): (r: seq<(string, Node)>)
    ensures Lookup(r, k) == Some(v)
    ensures forall k' :: k' != k ==> Lookup(r, k') == Lookup(entries, k')
    ensures |r| == if Lookup(entries, k).Some? then |entries| else |entries| + 1
    ensures forall e :: e in r ==> e == (k, v) || e in entries
    ensures DistinctKeys(entries) ==> DistinctKeys(r)
  {
    match KeyIndex(entries, k)
    case Some(i) =>
      var r := entries[i := (k, v)];
      KeyIndexAt(r, k, i);
      LookupOthers(entries, r, k);
      r
    case None =>
      var r := entries + [(k, v)];
      KeyIndexAt(r, k, |entries|);
      LookupOthers(entries, r, k);
      r
  }

  /** A new key is appended at the end. */
  lemma MapInsertNewKey(entries: seq<(string, Node)>, k: string, v: Node)
    requires forall j :: 0 <= j < |entries| ==> entries[j].0 != k
    ensures MapInsert(entries, k, v) == entries + [(k, v)]
  {
    assert KeyIndex(entries, k).None?;
  }

  /** `Node::get`: the value under `k` when the node is a mapping. */
  function Get(n: Node, k: string): (r: Option<Node>)
    ensures r.Some? <==> n.value.Mapping? && exists j :: 0 <= j < |n.value.entries| && n.value.entries[j].0 == k
    ensures r.Some? ==> exists j :: 0 <= j < |n.value.entries| && n.value.entries[j] == (k, r.value)
  {
    match n.value
    case Mapping(es) => Lookup(es, k)
    case _ => None
  }

  /** `Node::as_scalar`. */
  function AsScalar(n: Node): (r: Option<string>)
    ensures r.Some? <==> IsScalar(n)
    ensures r.Some? ==> n.value == Scalar(r.value)
  {
    match n.value
    case Scalar(s) => Some(s)
    case _ => None
  }

  predicate IsMapping(n: Node) { n.value.Mapping? }

  predicate IsSequence(n: Node) { n.value.Sequence? }

  predicate IsScalar(n: Node) { n.value.Scalar? }

  /** The scalar text under key `k`, the lookup `get(k).and_then(as_scalar)`. */
  function ScalarAt(n: Node, k: string): (r: Option<string>)
    ensures r.Some? <==> Get(n, k).Some? && IsScalar(Get(n, k).value)
    ensures r.Some? ==> Get(n, k).value.value == Scalar(r.value)
  {
    match Get(n, k)
    case Some(c) => AsScalar(c)
    case None => None
  }

  /** `YamlDocument::new`: `apiVersion` and `kind` are the root's scalar entries
      of those names, and absent otherwise. */
  function NewYamlDocument(filename: string, root: Node): (d: YamlDocument)
    ensures d.filename == filename && d.root == root
    ensures d.apiVersion.Some? <==> Get(root, "apiVersion").Some? && IsScalar(Get(root, "apiVersion").value)
    ensures d.kind.Some? <==> Get(root, "kind").Some? && IsScalar(Get(root, "kind").value)
    ensures d.apiVersion.Some? ==> Get(root, "apiVersion").value.value == Scalar(d.apiVersion.value)
    ensures d.kind.Some? ==> Get(root, "kind").value.value == Scalar(d.kind.value)
  {
    YamlDocument(filename, root, ScalarAt(root, "apiVersion"), ScalarAt(root, "kind"))
  }

  /** `n` is `root` or a node below it, and every node on the way down,
      both ends included, contains `pos`. */
  ghost predicate OnPath(root: Node, n: Node, pos: Position)
    decreases root
  {
    PositionInRange(pos, root.range)
    && (n == root || exists i :: 0 <= i < |Children(root)| && OnPath(Children(root)[i], n, pos))
  }

  /** Every node on a path contains the position. */
  lemma {:induction false} OnPathContains(root: Node, n: Node, pos: Position)
    requires OnPath(root, n, pos)
    ensures PositionInRange(pos, n.range)
    decreases root
  {
    if n != root {
      var i :| 0 <= i < |Children(root)| && OnPath(Children(root)[i], n, pos);
      OnPathContains(Children(root)[i], n, pos);
    }
  }

  /** Following a child that contains the position extends a path. */
  lemma OnPathStep(root: Node, i: nat, n: Node, pos: Position)
    requires i < |Children(root)|
    requires PositionInRange(pos, root.range)
    requires OnPath(Children(root)[i], n, pos)
    ensures OnPath(root, n, pos)
  {
  }

  /** No node on `n`'s path is reached through a child containing `pos`: the
      search below stops at such a node. */
  ghost predicate Innermost(n: Node, pos: Position) {
    forall i :: 0 <= i < |Children(n)| ==> !PositionInRange(pos, Children(n)[i].range)
  }

  /** `find_node_at_position`: the search starts at the document's root. */
  function FindNodeAtPosition(doc: YamlDocument, pos: Position): (r: Option<Node>)
    ensures r.None? <==> !PositionInRange(pos, doc.root.range)
    ensures r.Some? ==> OnPath(doc.root, r.value, pos) && Innermost(r.value, pos)
  {
    FindNodeAtPositionRecursive(doc.root, pos)
  }

  /** `find_node_at_position_recursive`: nothing outside the node's range;
      otherwise the first child (in iteration order) whose search succeeds
      decides, and the node itself when none does. */
  function FindNodeAtPositionRecursive(node: Node, pos: Position): (r: Option<Node>)
    decreases node, 1
    ensures r.None? <==> !PositionInRange(pos, node.range)
    ensures r.Some? ==> OnPath(node, r.value, pos) && Innermost(r.value, pos)
  {
    if !PositionInRange(pos, node.range) then None
    else
      match FindInChildren(node, pos, 0)
      case Some(found) => Some(found)
      case None => Some(node)
  }

  /** The search over children `i`, `i + 1`, ... of `node`. */
  function FindInChildren(node: Node, pos: Position, i: nat): (r: Option<Node>)
    requires i <= |Children(node)|
    decreases node, 0, |Children(node)| - i
    ensures r.Some? ==> exists j :: i <= j < |Children(node)| && OnPath(Children(node)[j], r.value, pos)
    ensures r.Some? ==> Innermost(r.value, pos)
    ensures r.None? <==> forall j :: i <= j < |Children(node)| ==> !PositionInRange(pos, Children(node)[j].range)
  {
    if i == |Children(node)| then None
    else
      match FindNodeAtPositionRecursive(Children(node)[i], pos)
      case Some(found) => Some(found)
      case None => FindInChildren(node, pos, i + 1)
  }
}
