/** `parse_yaml` and `build_node_from_value`: the tree is built from the value
    the YAML deserializer returns. The deserializer itself is not modelled; its
    outcome is a parameter. The parser has no source spans: every node gets a
    one-line placeholder range on an estimated line. */
module YamlParser {
  import opened Wrappers
  import opened Lsp
  import opened Ast

  /** The deserializer's value. The text of a number is its formatting
      (`Number::to_string`), which is not modelled. */
  datatype YamlValue =
    | NullValue
    | BoolValue(b: bool)
    | NumberValue(text: string)
    | StringValue(s: string)
    | SequenceValue(items: seq<YamlValue>)
    | MappingValue(entries: seq<(YamlValue, YamlValue)>)
    | TaggedValue(tag: string, inner: YamlValue)

  /** The range every node gets: characters 0 to 100 of its estimated line. */
  function PlaceholderRange(line: nat): Range {
    Range(Position(line, 0), Position(line, 100))
  }

  /** The node built for `v` at estimated line `line`. */
  function Built(v: YamlValue, line: nat): Node
    decreases v, 1
  {
    var value := match v
      case NullValue => Null
      case BoolValue(b) => Scalar(if b then "true" else "false")
      case NumberValue(t) => Scalar(t)
      case StringValue(s) => Scalar(s)
      case SequenceValue(items) =>
        Sequence(seq(|items|, i requires 0 <= i < |items| => Built(items[i], line + i + 1)))
      case MappingValue(entries) => Mapping(BuiltEntries(v, line, |entries|).0)
      case TaggedValue(_, inner) => Built(inner, line).value;
    Node(None, value, PlaceholderRange(line))
  }

  /** The entries built from the first `count` entries of mapping `v`, and the
      line counter after them: each string key advances the counter and its
      value is built on the new line; entries with other keys are skipped. */
  function BuiltEntries(v: YamlValue, line: nat, count: nat): (r: (seq<(string, Node)>, nat))
    requires v.MappingValue? && count <= |v.entries|
    decreases v, 0, count
  {
    if count == 0 then ([], line)
    else
      var (nodes, current) := BuiltEntries(v, line, count - 1);
      var entry := v.entries[count - 1];
      assert entry in v.entries;
      if entry.0.StringValue? then
        (MapInsert(nodes, entry.0.s, Built(entry.1, current + 1)), current + 1)
      else (nodes, current)
  }

  /** `build_node_from_value`. */
  method BuildNodeFromValue(v: YamlValue, line: nat) returns (node: Node)
    ensures node == Built(v, line)
    decreases v
  {
    var value: NodeValue;
    match v {
      case NullValue =>
        value := Null;
      case BoolValue(b) =>
        value := Scalar(if b then "true" else "false");
      case NumberValue(t) =>
        value := Scalar(t);
      case StringValue(s) =>
        value := Scalar(s);
      case SequenceValue(items) =>
        value := Sequence(seq(|items|, i requires 0 <= i < |items| => Built(items[i], line + i + 1)));
      case MappingValue(entries) =>
        var nodes: seq<(string, Node)> := [];
        var currentLine := line;
        var i := 0;
        while i < |entries|
          invariant i <= |entries|
          invariant (nodes, currentLine) == BuiltEntries(v, line, i)
        {
          var entry := entries[i];
          assert entry in entries;
          if entry.0.StringValue? {
            currentLine := currentLine + 1;
            var child := BuildNodeFromValue(entry.1, currentLine);
            nodes := MapInsert(nodes, entry.0.s, child);
          }
          i := i + 1;
        }
        value := Mapping(nodes);
      case TaggedValue(_, inner) =>
        var innerNode := BuildNodeFromValue(inner, line);
        value := innerNode.value;
    }
    node := Node(None, value, PlaceholderRange(line));
  }

  /** `parse_yaml`: a deserialization error is passed on; otherwise the tree is
      built at line 0 and the document's `apiVersion` and `kind` are read from it. */
  method ParseYaml(filename: string, deserialized: Result<YamlValue, string>) returns (r: Result<YamlDocument, string>)
    ensures deserialized.Err? ==> r == Err(deserialized.error)
    ensures deserialized.Ok? ==> r == Ok(NewYamlDocument(filename, Built(deserialized.value, 0)))
  {
    match deserialized {
      case Err(e) =>
        r := Err(e);
      case Ok(v) =>
        var root := BuildNodeFromValue(v, 0);
        r := Ok(NewYamlDocument(filename, root));
    }
  }

  /** The shape every built tree has: no node carries a key, every range is the
      placeholder of its line, keys are distinct, and children lie on strictly
      later lines than their parent. */
  ghost predicate Estimated(n: Node)
    decreases n
  {
    n.key == None
    && n.range == PlaceholderRange(n.range.start.line)
    && (n.value.Mapping? ==> DistinctKeys(n.value.entries))
    && forall i :: 0 <= i < |Children(n)| ==>
         Children(n)[i].range.start.line > n.range.start.line && Estimated(Children(n)[i])
  }

  lemma {:induction false} EstimatedIsWellFormed(n: Node)
    requires Estimated(n)
    ensures WellFormed(n)
    decreases n
  {
    forall i | 0 <= i < |Children(n)|
      ensures WellFormed(Children(n)[i])
    {
      EstimatedIsWellFormed(Children(n)[i]);
    }
  }

  /** Every built tree has the estimated shape, hence distinct mapping keys. */
  lemma {:induction false} BuiltIsEstimated(v: YamlValue, line: nat)
    ensures Estimated(Built(v, line))
    ensures WellFormed(Built(v, line))
    decreases v, 1
  {
    var n := Built(v, line);
    match v {
      case SequenceValue(items) =>
        forall i | 0 <= i < |items|
          ensures Estimated(Built(items[i], line + i + 1))
        {
          BuiltIsEstimated(items[i], line + i + 1);
        }
      case MappingValue(entries) =>
        BuiltEntriesEstimated(v, line, |entries|);
        var es := n.value.entries;
        assert forall i :: 0 <= i < |es| ==> es[i] in es;
      case TaggedValue(_, inner) =>
        BuiltIsEstimated(inner, line);
        assert Children(n) == Children(Built(inner, line));
      case _ =>
    }
    EstimatedIsWellFormed(n);
  }

  lemma {:induction false} BuiltEntriesEstimated(v: YamlValue, line: nat, count: nat)
    requires v.MappingValue? && count <= |v.entries|
    ensures var (nodes, current) := BuiltEntries(v, line, count);
      EstimatedEntries(nodes, line, current)
    decreases v, 0, count
  {
    if count > 0 {
      BuiltEntriesEstimated(v, line, count - 1);
      var (nodes, current) := BuiltEntries(v, line, count - 1);
      var entry := v.entries[count - 1];
      assert entry in v.entries;
      if entry.0.StringValue? {
        var node := Built(entry.1, current + 1);
        BuiltIsEstimated(entry.1, current + 1);
        assert node.range.start.line == current + 1;
        EstimatedEntriesStep(nodes, line, current, entry.0.s, node);
      }
    }
  }

  /** Entries with distinct keys and estimated values, on the lines after
      `line` up to `current`. */
  ghost predicate EstimatedEntries(nodes: seq<(string, Node)>, line: nat, current: nat) {
    line <= current
    && DistinctKeys(nodes)
    && forall e :: e in nodes ==> Estimated(e.1) && line < e.1.range.start.line <= current
  }

  lemma EstimatedEntriesStep(nodes: seq<(string, Node)>, line: nat, current: nat, key: string, node: Node)
    requires EstimatedEntries(nodes, line, current)
    requires Estimated(node) && node.range.start.line == current + 1
    ensures EstimatedEntries(MapInsert(nodes, key, node), line, current + 1)
  {
  }

  /** The `i`-th item of a sequence is built on the `i + 1`-th line after its
      parent, so items appear in order on consecutive lines. */
  lemma BuiltSequenceLines(items: seq<YamlValue>, line: nat)
    ensures var n := Built(SequenceValue(items), line);
      |Children(n)| == |items|
      && forall i :: 0 <= i < |items| ==>
           Children(n)[i] == Built(items[i], line + i + 1)
           && Children(n)[i].range.start.line == line + i + 1
  {
  }

  /** A tagged value is built as its inner value, on the same line. */
  lemma BuiltTagged(tag: string, inner: YamlValue, line: nat)
    ensures Built(TaggedValue(tag, inner), line).value == Built(inner, line).value
    ensures Built(TaggedValue(tag, inner), line).range == PlaceholderRange(line)
  {
  }

  /** The string-keyed entries of a YAML mapping, in order. */
  function StringKeyed(entries: seq<(YamlValue, YamlValue)>): (r: seq<(string, YamlValue)>)
    ensures |r| <= |entries|
  {
    if entries == [] then []
    else
      var last := entries[|entries| - 1];
      StringKeyed(entries[..|entries| - 1]) + (if last.0.StringValue? then [(last.0.s, last.1)] else [])
  }

  lemma {:induction false} StringKeyedKeys(entries: seq<(YamlValue, YamlValue)>, j: nat)
    requires j < |StringKeyed(entries)|
    ensures exists i :: 0 <= i < |entries| && entries[i].0 == StringValue(StringKeyed(entries)[j].0)
    decreases |entries|
  {
    var prefix := entries[..|entries| - 1];
    if j < |StringKeyed(prefix)| {
      StringKeyedKeys(prefix, j);
      var i :| 0 <= i < |prefix| && prefix[i].0 == StringValue(StringKeyed(prefix)[j].0);
      assert entries[i] == prefix[i];
    } else {
      assert entries[|entries| - 1].0 == StringValue(StringKeyed(entries)[j].0);
    }
  }

  /** Keys of the deserializer's mapping are distinct, as in any YAML mapping. */
  ghost predicate DistinctYamlKeys(entries: seq<(YamlValue, YamlValue)>) {
    forall i, j :: 0 <= i < j < |entries| ==> entries[i].0 != entries[j].0
  }

  /** A mapping is built from its string-keyed entries alone, in order: the
      `j`-th of them lands on the `j + 1`-th line after the mapping's line. */
  lemma {:induction false} BuiltMappingEntries(entries: seq<(YamlValue, YamlValue)>, line: nat)
    requires DistinctYamlKeys(entries)
    ensures var es := Built(MappingValue(entries), line).value.entries;
      var sk := StringKeyed(entries);
      |es| == |sk|
      && forall j :: 0 <= j < |sk| ==> es[j] == (sk[j].0, Built(sk[j].1, line + j + 1))
  {
    BuiltEntriesPrefix(MappingValue(entries), line, |entries|);
    assert entries[..|entries|] == entries;
  }

  /** The entries built so far are the string-keyed entries `sk`, in order,
      each built by `build` on its own line after `line`. */
  predicate BuiltInOrder(nodes: seq<(string, Node)>, current: nat, line: nat, sk: seq<(string, YamlValue)>,
                         build: (YamlValue, nat) -> Node) {
    current == line + |sk|
    && |nodes| == |sk|
    && forall j :: 0 <= j < |sk| ==> nodes[j] == (sk[j].0, build(sk[j].1, line + j + 1))
  }

  lemma {:induction false} BuiltEntriesPrefix(v: YamlValue, line: nat, count: nat)
    requires v.MappingValue? && count <= |v.entries| && DistinctYamlKeys(v.entries)
    ensures var (nodes, current) := BuiltEntries(v, line, count);
      BuiltInOrder(nodes, current, line, StringKeyed(v.entries[..count]), Built)
    decreases count
  {
    if count > 0 {
      var prefix := v.entries[..count - 1];
      BuiltEntriesPrefix(v, line, count - 1);
      assert v.entries[..count - 1] == prefix;
      var (nodes, current) := BuiltEntries(v, line, count - 1);
      var entry := v.entries[count - 1];
      var sk := StringKeyed(prefix);
      assert StringKeyed(v.entries[..count])
          == sk + (if entry.0.StringValue? then [(entry.0.s, entry.1)] else []) by {
        assert v.entries[..count][..count - 1] == prefix;
        assert v.entries[..count][count - 1] == entry;
      }
      if entry.0.StringValue? {
        StringKeyedFresh(v.entries, count - 1);
        forall j | 0 <= j < |nodes| ensures nodes[j].0 != entry.0.s {
          assert nodes[j].0 == sk[j].0;
          assert sk[j].0 != v.entries[count - 1].0.s;
        }
        BuiltInOrderStep(nodes, current, line, sk, entry.0.s, entry.1, Built);
        assert BuiltEntries(v, line, count) == (MapInsert(nodes, entry.0.s, Built(entry.1, current + 1)), current + 1);
      } else {
        assert BuiltEntries(v, line, count) == (nodes, current);
        assert sk + [] == sk;
      }
    }
  }

  /** With distinct keys, a string key is not among the string keys before it. */
  lemma StringKeyedFresh(entries: seq<(YamlValue, YamlValue)>, count: nat)
    requires DistinctYamlKeys(entries) && count < |entries| && entries[count].0.StringValue?
    ensures forall j :: 0 <= j < |StringKeyed(entries[..count])| ==> StringKeyed(entries[..count])[j].0 != entries[count].0.s
  {
    var prefix := entries[..count];
    var sk := StringKeyed(prefix);
    forall j | 0 <= j < |sk| ensures sk[j].0 != entries[count].0.s {
      StringKeyedKeys(prefix, j);
      var k :| 0 <= k < |prefix| && prefix[k].0 == StringValue(sk[j].0);
      assert entries[k] == prefix[k];
    }
  }

  /** An entry under a new key is built on the next line and appended. */
  lemma BuiltInOrderStep(nodes: seq<(string, Node)>, current: nat, line: nat, sk: seq<(string, YamlValue)>,
                         key: string, value: YamlValue, build: (YamlValue, nat) -> Node)
    requires BuiltInOrder(nodes, current, line, sk, build)
    requires forall j :: 0 <= j < |nodes| ==> nodes[j].0 != key
    ensures BuiltInOrder(MapInsert(nodes, key, build(value, current + 1)), current + 1, line, sk + [(key, value)], build)
  {
    var node := build(value, current + 1);
    var next := MapInsert(nodes, key, node);
    MapInsertNewKey(nodes, key, node);
    var sk' := sk + [(key, value)];
    forall j | 0 <= j < |sk'| ensures next[j] == (sk'[j].0, build(sk'[j].1, line + j + 1)) {
      if j < |sk| {
        assert next[j] == nodes[j] && sk'[j] == sk[j];
      }
    }
  }

  /** Built trees never nest ranges: a parent's one-line range contains no
      position of any of its children's ranges. */
  lemma ParentRangeMissesChildren(v: YamlValue, line: nat, i: nat, pos: Position)
    requires i < |Children(Built(v, line))|
    requires PositionInRange(pos, Children(Built(v, line))[i].range)
    ensures !PositionInRange(pos, Built(v, line).range)
  {
    BuiltIsEstimated(v, line);
  }

  /** Consequently a position search over a parsed document never leaves the
      root: it finds the root or nothing. */
  lemma ParsedSearchFindsRoot(filename: string, v: YamlValue, pos: Position)
    ensures var doc := NewYamlDocument(filename, Built(v, 0));
      FindNodeAtPosition(doc, pos) == if PositionInRange(pos, doc.root.range) then Some(doc.root) else None
  {
    var root := Built(v, 0);
    BuiltIsEstimated(v, 0);
    if PositionInRange(pos, root.range) {
      assert FindInChildren(root, pos, 0).None?;
    }
  }

  /** On a built tree every search path stops at the root: a position in the
      root's one-line range lies in no child's range. */
  lemma EstimatedPathIsRoot(root: Node, n: Node, pos: Position)
    requires Estimated(root)
    requires OnPath(root, n, pos)
    ensures n == root
  {
    if n != root {
      assert false;
    }
  }
}
