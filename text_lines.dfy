/** Rust's `str::lines` and the inverse join the document editor performs
    (every line followed by `'\n'`). */
module TextLines {
  import opened Wrappers
  import opened Strings

  /** A line ended by `"\r\n"` loses its `'\r'` too. */
  function StripCR(line: string): string {
    if |line| > 0 && line[|line| - 1] == '\r' then line[..|line| - 1] else line
  }

  /** `str::lines`: pieces between `'\n'` characters, without a final empty
      piece; a `'\r'` is dropped only before a `'\n'`. */
  function Lines(s: string): (ls: seq<string>)
    ensures s == [] <==> ls == []
    decreases |s|
  {
    if s == [] then []
    else
      match IndexOf(s, '\n')
      case None => [s]
      case Some(i) => [StripCR(s[..i])] + Lines(s[i + 1..])
  }

  /** Every line followed by a newline. */
  function JoinLines(ls: seq<string>): (s: string)
    ensures ls != [] ==> EndsWithNewline(s)
  {
    if ls == [] then "" else JoinLines(ls[..|ls| - 1]) + ls[|ls| - 1] + "\n"
  }

  lemma {:induction false} JoinLinesAppend(a: seq<string>, b: seq<string>)
    ensures JoinLines(a + b) == JoinLines(a) + JoinLines(b)
    decreases |b|
  {
    if b != [] {
      var b' := b[..|b| - 1];
      assert (a + b)[..|a + b| - 1] == a + b';
      JoinLinesAppend(a, b');
    } else {
      assert a + b == a;
    }
  }

  /** Extending a run of joined lines by the next line. */
  lemma JoinLinesExtend(ls: seq<string>, a: nat, b: nat)
    requires a <= b < |ls|
    ensures JoinLines(ls[a..b + 1]) == JoinLines(ls[a..b]) + ls[b] + "\n"
  {
    assert ls[a..b + 1][..b - a] == ls[a..b];
  }

  lemma JoinLinesSingle(line: string)
    ensures JoinLines([line]) == line + "\n"
  {
    assert [line][..0] == [];
  }

  /** The joined text around line `k`: the lines before it, the line, its
      newline, and the lines after it. */
  lemma JoinLinesSplit(ls: seq<string>, k: nat)
    requires k < |ls|
    ensures JoinLines(ls) == JoinLines(ls[..k]) + ls[k] + "\n" + JoinLines(ls[k + 1..])
  {
    var before, after := ls[..k], ls[k + 1..];
    assert ls == (before + [ls[k]]) + after;
    JoinLinesAppend(before + [ls[k]], after);
    JoinLinesAppend(before, [ls[k]]);
    JoinLinesSingle(ls[k]);
  }

  /** A text that starts with a line and its newline: that line, without a
      carriage return before the newline, then the lines of the rest. */
  lemma LinesAfterFirst(x: string, y: string)
    requires '\n' !in x
    ensures Lines(x + "\n" + y) == [StripCR(x)] + Lines(y)
  {
    var s := x + "\n" + y;
    assert s[|x|] == '\n' && s[..|x|] == x && s[|x| + 1..] == y;
    var r := IndexOf(s, '\n');
    assert r.Some?;
    assert forall k :: 0 <= k < |x| ==> s[k] == x[k];
    assert r.value >= |x|;
    assert forall k :: 0 <= k < r.value ==> s[k] == s[..r.value][k] && s[k] != '\n';
    assert r.value <= |x|;
  }

  /** A non-empty text without a newline is a single line. */
  lemma LinesOfOneLine(y: string)
    requires y != [] && '\n' !in y
    ensures Lines(y) == [y]
  {
  }

  /** A `"\r\n"` line ending comes back from the join as a bare newline. */
  lemma JoinedLinesDropCarriageReturn()
    ensures JoinLines(Lines("a\r\n")) == "a\n"
  {
    LinesAfterFirst("a\r", "");
    assert StripCR("a\r") == "a";
    JoinLinesSingle("a");
  }

  /** Splitting a text without `'\r'` into lines and joining them gives the
      text back, with a final newline added when it had none. */
  lemma {:induction false} LinesRoundTrip(s: string)
    requires '\r' !in s
    ensures JoinLines(Lines(s)) == if s == [] || EndsWithNewline(s) then s else s + "\n"
    decreases |s|
  {
    if s != [] {
      match IndexOf(s, '\n')
      case None =>
        JoinLinesSingle(s);
      case Some(i) =>
        var head, tail := s[..i], s[i + 1..];
        assert s == head + "\n" + tail;
        NoCRInParts(s, i);
        var rest := Lines(tail);
        assert Lines(s) == [head] + rest;
        LinesRoundTrip(tail);
        JoinLinesAppend([head], rest);
        JoinLinesSingle(head);
        LineBeforeRoundTrip(head, tail, JoinLines(rest));
    }
  }

  /** The round trip of a text extends over one more line in front. */
  lemma LineBeforeRoundTrip(head: string, tail: string, joined: string)
    requires joined == if tail == [] || EndsWithNewline(tail) then tail else tail + "\n"
    ensures var s := head + "\n" + tail;
      head + "\n" + joined == if EndsWithNewline(s) then s else s + "\n"
  {
    var s := head + "\n" + tail;
    if tail != [] {
      assert s[|s| - 1] == tail[|tail| - 1];
    }
  }

  lemma NoCRInParts(s: string, i: nat)
    requires '\r' !in s && i < |s|
    ensures '\r' !in s[i + 1..]
    ensures StripCR(s[..i]) == s[..i]
  {
    var tail := s[i + 1..];
    forall c | c in tail ensures c != '\r' {
      var m :| 0 <= m < |tail| && tail[m] == c;
      assert s[i + 1 + m] == c;
    }
    if i > 0 {
      assert s[..i][i - 1] == s[i - 1];
    }
  }

  /** The text is the joined lines, or the joined lines less their final
      newline: either way a prefix of them. */
  lemma ContentIsPrefixOfJoined(s: string)
    requires '\r' !in s
    ensures var j := JoinLines(Lines(s));
      (|j| == |s| || |j| == |s| + 1) && s == j[..|s|]
      && (|j| == |s| <==> s == [] || EndsWithNewline(s))
  {
    LinesRoundTrip(s);
  }
}
