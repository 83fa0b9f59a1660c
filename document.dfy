/** The open-document store: each document's text is kept current by applying
    the editor's change events, whole-text or incremental. */
module Documents {
  import opened Wrappers
  import opened Lsp
  import opened Strings
  import opened TextLines
  import opened Seqs

  /** One change event: with a range it replaces that range, without one it
      replaces the whole text. */
  datatype ContentChange = ContentChange(range: Option<Range>, text: string)

  /** The text the editor builds before the final-newline correction: the
      lines before the start line, the start line up to the start character,
      the new text, the end line from the end character with its newline, and
      the lines after the end line. Parts naming a line past the last one are
      empty. */
  function Stitch(lines: seq<string>, range: Range, text: string): string {
    StitchHead(lines, range.start) + text + StitchTail(lines, range.end)
  }

  /** The lines before `p`'s line, each with its newline, then `p`'s line up to
      `p`'s character. */
  function StitchHead(lines: seq<string>, p: Position): string {
    JoinLines(lines[..Min(p.line, |lines|)])
    + (if p.line < |lines| then Take(lines[p.line], p.character) else "")
  }

  /** `p`'s line from `p`'s character with its newline, then the lines after
      it, each with its newline. */
  function StitchTail(lines: seq<string>, p: Position): string {
    (if p.line < |lines| then Drop(lines[p.line], p.character) + "\n" else "")
    + JoinLines(lines[Min(p.line + 1, |lines|)..])
  }

  /** The incremental edit as `apply_incremental_change` is written: a final
      newline is removed whenever the old text had none and the new one has. */
  function ApplyRangeAsWritten(content: string, range: Range, text: string): string {
    var built := Stitch(Lines(content), range, text);
    if !EndsWithNewline(content) && EndsWithNewline(built) then built[..|built| - 1] else built
  }

  /** The stitching gave the last line of a non-empty text without a final
      newline a newline it did not have: the end line is one of the lines
      (its tail carries that newline to the end), or the whole edit lies past
      the last line and inserts nothing (the lines end the stitched text). */
  predicate AddsNewline(ls: seq<string>, content: string, range: Range, text: string) {
    content != [] && !EndsWithNewline(content)
    && (range.end.line < |ls| || (range.start.line >= |ls| && text == []))
  }

  /** The stitched text with the final-newline correction of the corrected
      edit: only a newline the stitching added is removed. */
  function DropAddedNewline(ls: seq<string>, content: string, range: Range, text: string): string {
    var built := Stitch(ls, range, text);
    if AddsNewline(ls, content, range, text) && EndsWithNewline(built) then built[..|built| - 1] else built
  }

  /** An edit of an empty document loses a trailing newline of the inserted
      text: inserting "\n" into "" yields "". */
  lemma EmptyDocumentNewlineLostAsWritten()
    ensures ApplyRangeAsWritten("", Range(Position(0, 0), Position(0, 0)), "\n") == ""
  {
    assert Stitch([], Range(Position(0, 0), Position(0, 0)), "\n") == "\n";
  }

  /** As written, an edit of "a" from its start to the line past its end that
      inserts "b\n" loses the inserted newline as well. */
  lemma PastEndNewlineLostAsWritten()
    ensures ApplyRangeAsWritten("a", Range(Position(0, 0), Position(1, 0)), "b\n") == "b"
  {
    assert Lines("a") == ["a"];
    assert Stitch(["a"], Range(Position(0, 0), Position(1, 0)), "b\n") == "b\n";
  }

  /** As written, removing the last line of "a\nb", which has no final newline,
      also removes the newline that ends the line before it. */
  lemma DocumentNewlineLostAsWritten()
    ensures ApplyRangeAsWritten("a\nb", Range(Position(1, 0), Position(2, 0)), "") == "a"
  {
    var ls := ["a", "b"];
    LinesAfterFirst("a", "b");
    LinesOfOneLine("b");
    assert "a" + "\n" + "b" == "a\nb";
    assert StripCR("a") == "a";
    assert Lines("a\nb") == ls;
    JoinLinesSingle("a");
    assert ls[..1] == ["a"] && ls[2..] == [];
    assert StitchHead(ls, Position(1, 0)) == "a\n";
    assert StitchTail(ls, Position(2, 0)) == "";
  }

  /** The incremental edit with the newline correction restricted to what it is
      for: a non-empty text without a final newline may get one appended
      after its last line by the stitching, and only that one is removed. An
      empty text has no lines, so nothing was appended. */
  function ApplyRange(content: string, range: Range, text: string): string {
    DropAddedNewline(Lines(content), content, range, text)
  }

  /** The corrected edit inserts into an empty document exactly the text given. */
  lemma EmptyDocumentTakesText(range: Range, text: string)
    ensures ApplyRange("", range, text) == text
  {
    assert Stitch([], range, text) == text;
  }

  /** The corrected edit and the edit as written differ exactly when the text
      has no final newline, the stitched text ends in one, and the stitching did
      not add it: then only the edit as written removes it. */
  lemma CorrectionDiffersExactly(content: string, range: Range, text: string)
    ensures ApplyRange(content, range, text) != ApplyRangeAsWritten(content, range, text)
        <==> !EndsWithNewline(content) && EndsWithNewline(Stitch(Lines(content), range, text))
             && !AddsNewline(Lines(content), content, range, text)
  {
    var built := Stitch(Lines(content), range, text);
    if EndsWithNewline(built) {
      assert |built[..|built| - 1]| < |built|;
    }
  }

  /** The lines of "a\r\nb": the carriage return goes with the line break. */
  lemma CarriageReturnLines()
    ensures Lines("a\r\nb") == ["a", "b"]
  {
    LinesAfterFirst("a\r", "b");
    LinesOfOneLine("b");
    assert "a\r" + "\n" + "b" == "a\r\nb";
    assert StripCR("a\r") == "a";
  }

  /** The stitching ends every line with a bare newline, so an edit of a text
      with Windows line endings rewrites them: inserting "x" at the start of
      the second line of "a\r\nb" gives "a\nxb", not the splice "a\r\nxb". */
  lemma CarriageReturnDroppedByInsert()
    ensures ApplyRange("a\r\nb", Range(Position(1, 0), Position(1, 0)), "x") == "a\nxb"
  {
    var ls := ["a", "b"];
    CarriageReturnLines();
    JoinLinesSingle("a");
    JoinLinesSingle("b");
    assert ls[..1] == ["a"] && ls[2..] == [];
    assert StitchHead(ls, Position(1, 0)) == "a\n";
    assert StitchTail(ls, Position(1, 0)) == "b\n";
    assert Stitch(ls, Range(Position(1, 0), Position(1, 0)), "x") == "a\nxb" + "\n";
    assert AddsNewline(ls, "a\r\nb", Range(Position(1, 0), Position(1, 0)), "x");
    DropAppendedNewline("a\nxb");
  }

  /** Replacing the empty range at the start of "a\r\nb" by the empty text,
      the text it covers, still gives "a\nb". */
  lemma CarriageReturnDroppedByEmptyEdit()
    ensures ApplyRange("a\r\nb", Range(Position(0, 0), Position(0, 0)), "") == "a\nb"
  {
    var ls := ["a", "b"];
    CarriageReturnLines();
    JoinLinesSingle("b");
    assert JoinLines(ls) == JoinLines(ls[..1]) + "b\n";
    JoinLinesSingle("a");
    assert ls[..0] == [] && ls[1..] == ["b"];
    assert StitchHead(ls, Position(0, 0)) == "";
    assert StitchTail(ls, Position(0, 0)) == "a\nb" + "\n";
    assert Stitch(ls, Range(Position(0, 0), Position(0, 0)), "") == "a\nb" + "\n";
    assert AddsNewline(ls, "a\r\nb", Range(Position(0, 0), Position(0, 0)), "");
    DropAppendedNewline("a\nb");
  }

  /** A line an edit may address: an existing line, or the empty line after a
      final newline (or of an empty text). */
  predicate LineInDocument(content: string, line: nat) {
    var n := |Lines(content)|;
    line < n || (line == n && (content == [] || EndsWithNewline(content)))
  }

  /** The offset in `content` a position denotes; a character past the end of
      its line denotes the end of the line, a line past the last one the end of
      the text. */
  function Offset(content: string, p: Position): nat {
    OffsetIn(Lines(content), content, p)
  }

  function OffsetIn(ls: seq<string>, content: string, p: Position): nat {
    if p.line < |ls| then |JoinLines(ls[..p.line])| + Min(p.character, |ls[p.line]|)
    else |content|
  }

  /** The facts about the joined lines of a text that the edit lemmas use. */
  predicate JoinedPrefix(ls: seq<string>, content: string) {
    |content| <= |JoinLines(ls)| <= |content| + 1 && content == JoinLines(ls)[..|content|]
  }

  lemma LinesJoinedPrefix(content: string)
    requires '\r' !in content
    ensures JoinedPrefix(Lines(content), content)
    ensures JoinLines(Lines(content)) == content <==> content == [] || EndsWithNewline(content)
  {
    ContentIsPrefixOfJoined(content);
  }

  /** The lines before line `k` and line `k` up to character `ch` are the
      joined text up to that point. */
  lemma HeadPiece(ls: seq<string>, content: string, k: nat, ch: nat)
    requires k < |ls| && JoinedPrefix(ls, content)
    ensures |JoinLines(ls[..k])| + Min(ch, |ls[k]|) <= |content|
    ensures JoinLines(ls[..k]) + Take(ls[k], ch) == content[..|JoinLines(ls[..k])| + Min(ch, |ls[k]|)]
  {
    JoinLinesSplit(ls, k);
    var before := JoinLines(ls[..k]);
    AppendAssociative(before + ls[k], "\n", JoinLines(ls[k + 1..]));
    PrefixThrough(JoinLines(ls), content, before, ls[k], "\n" + JoinLines(ls[k + 1..]), Min(ch, |ls[k]|));
  }

  /** A piece of a text that is followed by at least one more character lies
      within any prefix of the text that is at most one character short. */
  lemma PrefixThrough(j: string, content: string, before: string, mid: string, rest: string, m: nat)
    requires j == before + mid + rest && rest != [] && m <= |mid|
    requires |content| <= |j| <= |content| + 1 && content == j[..|content|]
    ensures |before| + m <= |content|
    ensures before + mid[..m] == content[..|before| + m]
  {
    var n := |before| + m;
    assert content[..n] == j[..n];
    assert j[..n] == before + mid[..m];
  }

  /** Line `k` from character `ch` with its newline, and the lines after it,
      are the joined text from that point. */
  lemma TailPiece(ls: seq<string>, content: string, k: nat, ch: nat)
    requires k < |ls| && JoinedPrefix(ls, content)
    ensures |JoinLines(ls[..k])| + Min(ch, |ls[k]|) <= |content|
    ensures Drop(ls[k], ch) + "\n" + JoinLines(ls[k + 1..])
         == JoinLines(ls)[|JoinLines(ls[..k])| + Min(ch, |ls[k]|)..]
  {
    JoinLinesSplit(ls, k);
    var m := Min(ch, |ls[k]|);
    SuffixAfterLinePrefix(JoinLines(ls[..k]), ls[k], JoinLines(ls[k + 1..]), m);
  }

  /** Cutting a joined text inside one of its lines leaves the rest of that
      line, its newline and the lines after it. */
  lemma SuffixAfterLinePrefix(before: string, line: string, after: string, m: nat)
    requires m <= |line|
    ensures (before + line + "\n" + after)[|before| + m..] == line[m..] + "\n" + after
  {
  }

  /** A position on an addressable line denotes an offset within the text. */
  lemma OffsetInContent(content: string, p: Position)
    requires '\r' !in content
    requires LineInDocument(content, p.line)
    ensures Offset(content, p) <= |content|
  {
    var ls := Lines(content);
    if p.line < |ls| {
      LinesJoinedPrefix(content);
      HeadPiece(ls, content, p.line, p.character);
    }
  }

  /** Removing the newline appended to a text gives the text back. */
  lemma DropAppendedNewline(x: string)
    ensures EndsWithNewline(x + "\n") && (x + "\n")[..|x|] == x
  {
  }

  /** The part of the stitched text before the new text is the old text up to
      the start offset. */
  lemma StitchHeadEq(ls: seq<string>, content: string, p: Position)
    requires JoinedPrefix(ls, content)
    requires p.line < |ls| || (p.line == |ls| && |JoinLines(ls)| == |content|)
    ensures OffsetIn(ls, content, p) <= |content|
    ensures StitchHead(ls, p) == content[..OffsetIn(ls, content, p)]
  {
    if p.line < |ls| {
      HeadPiece(ls, content, p.line, p.character);
    } else {
      assert ls[..|ls|] == ls;
      assert JoinLines(ls) == content;
    }
  }

  /** The part of the stitched text after the new text is the old text from
      the end offset, plus the newline the stitching gives a last line that had
      none. */
  lemma StitchTailEq(ls: seq<string>, content: string, p: Position)
    requires JoinedPrefix(ls, content)
    requires p.line < |ls| || (p.line == |ls| && |JoinLines(ls)| == |content|)
    ensures OffsetIn(ls, content, p) <= |content|
    ensures if |JoinLines(ls)| == |content| then StitchTail(ls, p) == content[OffsetIn(ls, content, p)..]
      else p.line < |ls| && StitchTail(ls, p) == content[OffsetIn(ls, content, p)..] + "\n"
  {
    var j := JoinLines(ls);
    if p.line < |ls| {
      TailPiece(ls, content, p.line, p.character);
      var b := OffsetIn(ls, content, p);
      assert StitchTail(ls, p) == j[b..];
      if |j| == |content| {
        assert j == content;
      } else {
        NewlineSuffix(j, content, b);
      }
    } else {
      assert ls[|ls|..] == [];
    }
  }

  /** A suffix of a text with one more newline than its prefix of the text's
      length carries that newline. */
  lemma NewlineSuffix(j: string, content: string, b: nat)
    requires |j| == |content| + 1 && content == j[..|content|] && b <= |content|
    ensures j == content + "\n" ==> j[b..] == content[b..] + "\n"
  {
  }

  /** The splice, for any lines whose join the text is a prefix of. */
  lemma StitchSplices(ls: seq<string>, content: string, range: Range, text: string)
    requires JoinedPrefix(ls, content)
    requires |JoinLines(ls)| == |content| <==> content == [] || EndsWithNewline(content)
    requires range.start.line < |ls| || (range.start.line == |ls| && |JoinLines(ls)| == |content|)
    requires range.end.line < |ls| || (range.end.line == |ls| && |JoinLines(ls)| == |content|)
    ensures OffsetIn(ls, content, range.start) <= |content| && OffsetIn(ls, content, range.end) <= |content|
    ensures DropAddedNewline(ls, content, range, text)
         == content[..OffsetIn(ls, content, range.start)] + text + content[OffsetIn(ls, content, range.end)..]
  {
    var a, b := OffsetIn(ls, content, range.start), OffsetIn(ls, content, range.end);
    StitchHeadEq(ls, content, range.start);
    StitchTailEq(ls, content, range.end);
    var spliced := content[..a] + text + content[b..];
    if |JoinLines(ls)| == |content| {
      assert !AddsNewline(ls, content, range, text);
      assert Stitch(ls, range, text) == spliced;
    } else {
      assert AddsNewline(ls, content, range, text);
      assert Stitch(ls, range, text) == spliced + "\n";
    }
    DropOfStitched(ls, content, range, text, spliced);
  }

  /** The correction removes exactly the newline the stitching added. */
  lemma DropOfStitched(ls: seq<string>, content: string, range: Range, text: string, r: string)
    requires AddsNewline(ls, content, range, text) ==> Stitch(ls, range, text) == r + "\n"
    requires !AddsNewline(ls, content, range, text) ==> Stitch(ls, range, text) == r
    ensures DropAddedNewline(ls, content, range, text) == r
  {
    DropAppendedNewline(r);
  }

  /** An edit from an addressable position is an LSP splice: the text before
      the start, the new text, the text after the end, an end past the last
      line denoting the end of the text. */
  lemma ApplyRangeSplices(content: string, range: Range, text: string)
    requires '\r' !in content
    requires LineInDocument(content, range.start.line)
    ensures Offset(content, range.start) <= |content| && Offset(content, range.end) <= |content|
    ensures ApplyRange(content, range, text)
         == content[..Offset(content, range.start)] + text + content[Offset(content, range.end)..]
  {
    LinesJoinedPrefix(content);
    var ls := Lines(content);
    if LineInDocument(content, range.end.line) {
      StitchSplices(ls, content, range, text);
    } else {
      assert Offset(content, range.end) == |content|;
      assert content[|content|..] == [];
      if range.start.line < |ls| {
        TruncatedAfterJoined(ls, content, range, text);
      } else {
        assert Offset(content, range.start) == |content|;
        JoinedIsContentOrNewline(ls, content);
        AppendedAfterJoined(ls, content, range, text);
      }
    }
  }

  /** Replacing a range by the text it covers changes nothing. */
  lemma ReplaceByCoveredTextIsIdentity(content: string, range: Range)
    requires '\r' !in content
    requires LineInDocument(content, range.start.line)
    requires Offset(content, range.start) <= Offset(content, range.end)
    ensures Offset(content, range.end) <= |content|
    ensures ApplyRange(content, range, content[Offset(content, range.start)..Offset(content, range.end)]) == content
  {
    var a, b := Offset(content, range.start), Offset(content, range.end);
    ApplyRangeSplices(content, range, "");
    ApplyRangeSplices(content, range, content[a..b]);
    SplitTwice(content, a, b);
  }

  lemma SplitTwice(s: string, a: nat, b: nat)
    requires a <= b <= |s|
    ensures s[..a] + s[a..b] + s[b..] == s
  {
  }

  /** Past the last line the stitching contributes nothing after the new text. */
  lemma StitchTailPastEnd(ls: seq<string>, p: Position)
    requires p.line >= |ls|
    ensures StitchTail(ls, p) == ""
  {
    assert ls[|ls|..] == [];
  }

  /** Past the last line the stitching keeps every line before the new text. */
  lemma StitchHeadPastEnd(ls: seq<string>, p: Position)
    requires p.line >= |ls|
    ensures StitchHead(ls, p) == JoinLines(ls)
  {
    assert ls[..|ls|] == ls;
  }

  /** With both positions past the last line, the new text follows the
      stitched lines; the newline the stitching gave the last line stays,
      unless nothing is inserted. */
  lemma AppendedAfterJoined(ls: seq<string>, content: string, range: Range, text: string)
    requires content == [] || EndsWithNewline(content) ==> JoinLines(ls) == content
    requires !(content == [] || EndsWithNewline(content)) ==> JoinLines(ls) == content + "\n"
    requires range.start.line >= |ls| && range.end.line >= |ls|
    ensures DropAddedNewline(ls, content, range, text)
         == content + (if text == [] || content == [] || EndsWithNewline(content) then "" else "\n") + text
  {
    StitchHeadPastEnd(ls, range.start);
    StitchTailPastEnd(ls, range.end);
    assert Stitch(ls, range, text) == JoinLines(ls) + text;
    AppendedText(content, JoinLines(ls), text, AddsNewline(ls, content, range, text));
  }

  /** The three ways new text follows the joined lines: after a text that
      needed no newline, in place of the newline added when nothing is
      inserted, or after that newline. */
  lemma AppendedText(content: string, j: string, text: string, drop: bool)
    requires content == [] || EndsWithNewline(content) ==> j == content
    requires !(content == [] || EndsWithNewline(content)) ==> j == content + "\n"
    requires drop <==> !(content == [] || EndsWithNewline(content)) && text == []
    ensures (if drop && EndsWithNewline(j + text) then (j + text)[..|j + text| - 1] else j + text)
         == content + (if text == [] || content == [] || EndsWithNewline(content) then "" else "\n") + text
  {
    if drop {
      assert j + text == content + "\n";
      DropAppendedNewline(content);
    }
  }

  /** The joined lines are the text, or the text and the newline the joining
      gave a last line without one. */
  lemma JoinedIsContentOrNewline(ls: seq<string>, content: string)
    requires JoinedPrefix(ls, content)
    requires |JoinLines(ls)| == |content| <==> content == [] || EndsWithNewline(content)
    ensures content == [] || EndsWithNewline(content) ==> JoinLines(ls) == content
    ensures !(content == [] || EndsWithNewline(content)) ==> JoinLines(ls) == content + "\n"
  {
    var j := JoinLines(ls);
    if |j| != |content| {
      assert ls != [];
      assert j == j[..|content|] + [j[|content|]];
    }
  }

  /** When both positions lie past the last line, the new text goes after the
      last line, followed by the newline the stitching gave that line when
      there is new text. */
  lemma EditPastLastLineAppends(content: string, range: Range, text: string)
    requires '\r' !in content
    requires range.start.line >= |Lines(content)| && range.end.line >= |Lines(content)|
    ensures ApplyRange(content, range, text)
         == content + (if text == [] || content == [] || EndsWithNewline(content) then "" else "\n") + text
  {
    LinesJoinedPrefix(content);
    JoinedIsContentOrNewline(Lines(content), content);
    AppendedAfterJoined(Lines(content), content, range, text);
  }

  /** With the start on a line and the end past the last line, everything from
      the start on is replaced; the stitching adds no newline there. */
  lemma TruncatedAfterJoined(ls: seq<string>, content: string, range: Range, text: string)
    requires JoinedPrefix(ls, content)
    requires range.start.line < |ls| <= range.end.line
    ensures OffsetIn(ls, content, range.start) <= |content|
    ensures DropAddedNewline(ls, content, range, text) == content[..OffsetIn(ls, content, range.start)] + text
  {
    StitchHeadEq(ls, content, range.start);
    StitchTailPastEnd(ls, range.end);
    assert Stitch(ls, range, text) == content[..OffsetIn(ls, content, range.start)] + text;
  }

  /** When only the end lies past the last line, everything from the start on
      is replaced. */
  lemma EditToPastLastLineTruncates(content: string, range: Range, text: string)
    requires '\r' !in content
    requires range.start.line < |Lines(content)| <= range.end.line
    ensures Offset(content, range.start) <= |content|
    ensures ApplyRange(content, range, text) == content[..Offset(content, range.start)] + text
  {
    LinesJoinedPrefix(content);
    TruncatedAfterJoined(Lines(content), content, range, text);
  }

  /** One change event: a whole-text change replaces the text. */
  function ApplyChange(content: string, change: ContentChange): string {
    match change.range
    case None => change.text
    case Some(r) => ApplyRange(content, r, change.text)
  }

  /** The change events of one notification, applied in order. */
  function ApplyAll(content: string, changes: seq<ContentChange>): string
    decreases |changes|
  {
    if changes == [] then content else ApplyAll(ApplyChange(content, changes[0]), changes[1..])
  }

  /** Applying two batches one after the other is applying their concatenation. */
  lemma {:induction false} ApplyAllAppend(content: string, a: seq<ContentChange>, b: seq<ContentChange>)
    ensures ApplyAll(content, a + b) == ApplyAll(ApplyAll(content, a), b)
    decreases |a|
  {
    if a == [] {
      assert a + b == b;
    } else {
      assert (a + b)[1..] == a[1..] + b;
      ApplyAllAppend(ApplyChange(content, a[0]), a[1..], b);
    }
  }

  /** A whole-text change discards every earlier change of the batch and the
      old text. */
  lemma WholeTextChangeSupersedes(content: string, changes: seq<ContentChange>, k: nat)
    requires k < |changes| && changes[k].range.None?
    ensures ApplyAll(content, changes) == ApplyAll(changes[k].text, changes[k + 1..])
  {
    assert changes == changes[..k] + changes[k..];
    ApplyAllAppend(content, changes[..k], changes[k..]);
    assert changes[k..][1..] == changes[k + 1..];
  }

  /** An open document (`Document`). */
  class Document {
    var uri: Uri
    var languageId: string
    var version: int
    var content: string

    constructor (uri: Uri, languageId: string, version: int, content: string)
      ensures this.uri == uri && this.languageId == languageId
      ensures this.version == version && this.content == content
    {
      this.uri := uri;
      this.languageId := languageId;
      this.version := version;
      this.content := content;
    }

    /** `apply_changes`: each event in order, a whole-text event by assignment. */
    method ApplyChanges(changes: seq<ContentChange>)
      modifies this`content
      ensures content == ApplyAll(old(content), changes)
    {
      var i := 0;
      while i < |changes|
        invariant 0 <= i <= |changes|
        invariant ApplyAll(content, changes[i..]) == ApplyAll(old(content), changes)
      {
        assert changes[i..][1..] == changes[i + 1..];
        match changes[i].range {
          case None =>
            content := changes[i].text;
          case Some(r) =>
            ApplyIncrementalChange(r, changes[i].text);
        }
        i := i + 1;
      }
      assert changes[i..] == [];
    }

    /** `apply_incremental_change`, with the final-newline correction limited
        to a newline the stitching added (see `AddsNewline`). */
    method ApplyIncrementalChange(range: Range, text: string)
      modifies this`content
      ensures content == ApplyRange(old(content), range, text)
    {
      var lines := Lines(content);
      var newContent := StitchLines(lines, range, text);
      if content != [] && !EndsWithNewline(content) && EndsWithNewline(newContent)
         && (range.end.line < |lines| || (range.start.line >= |lines| && text == []))
      {
        newContent := newContent[..|newContent| - 1];
      }
      content := newContent;
    }
  }

  /** The text `apply_incremental_change` builds before the final-newline
      correction: the head of the start line, the new text, the tail of the
      end line and the lines after it. */
  method StitchLines(lines: seq<string>, range: Range, text: string) returns (out: string)
    ensures out == Stitch(lines, range, text)
  {
    var n := |lines|;
    out := PushLines("", lines, 0, Min(range.start.line, n));
    assert lines[0..Min(range.start.line, n)] == lines[..Min(range.start.line, n)];
    if range.start.line < n {
      out := out + Take(lines[range.start.line], range.start.character);
    }
    assert out == StitchHead(lines, range.start);
    out := out + text;
    ghost var middle := out;
    var endPiece := if range.end.line < n then Drop(lines[range.end.line], range.end.character) + "\n" else "";
    out := out + endPiece;
    var rest := Min(range.end.line + 1, n);
    out := PushLines(out, lines, rest, n);
    assert lines[rest..n] == lines[rest..];
    assert out == middle + (endPiece + JoinLines(lines[rest..])) by {
      AppendAssociative(middle, endPiece, JoinLines(lines[rest..]));
    }
    assert endPiece + JoinLines(lines[rest..]) == StitchTail(lines, range.end);
  }

  /** The loop both halves of the edit use: lines `from` to `to`, each followed
      by a newline, appended to `acc`. */
  method PushLines(acc: string, lines: seq<string>, from: nat, to: nat) returns (out: string)
    requires from <= to <= |lines|
    ensures out == acc + JoinLines(lines[from..to])
  {
    out := acc;
    var i := from;
    while i < to
      invariant from <= i <= to
      invariant out == acc + JoinLines(lines[from..i])
    {
      JoinLinesExtend(lines, from, i);
      assert acc + JoinLines(lines[from..i + 1]) == out + lines[i] + "\n";
      out := out + lines[i] + "\n";
      i := i + 1;
    }
  }

  /** What `DocumentCache::get` hands out: a copy of a document. */
  datatype DocumentSnapshot = DocumentSnapshot(uri: Uri, languageId: string, version: int, content: string)

  /** The documents currently open, by URI (`DocumentCache`). */
  class DocumentCache {
    var documents: map<Uri, Document>

    /** Each document is stored under its own URI, so no document object is
        shared by two URIs. */
    ghost predicate Valid()
      reads this, documents.Values
    {
      forall u :: u in documents ==> documents[u].uri == u
    }

    constructor ()
      ensures Valid() && documents == map[]
    {
      documents := map[];
    }

    function Snapshot(d: Document): DocumentSnapshot
      reads d
    {
      DocumentSnapshot(d.uri, d.languageId, d.version, d.content)
    }

    /** `get`: a copy of the document open under `uri`. */
    function Get(uri: Uri): (r: Option<DocumentSnapshot>)
      reads this, documents.Values
      ensures r.Some? <==> uri in documents
      ensures Valid() && r.Some? ==> r.value.uri == uri
    {
      if uri in documents then Some(Snapshot(documents[uri])) else None
    }

    /** `insert`: opening a document replaces any document under the same URI. */
    method Insert(uri: Uri, languageId: string, version: int, content: string)
      requires Valid()
      modifies this
      ensures Valid()
      ensures Get(uri) == Some(DocumentSnapshot(uri, languageId, version, content))
      ensures forall u :: u != uri ==> Get(u) == old(Get(u))
    {
      var doc := new Document(uri, languageId, version, content);
      documents := documents[uri := doc];
    }

    /** `update`: the document's version is set and the changes applied; an
        unknown URI is ignored. */
    method Update(uri: Uri, version: int, changes: seq<ContentChange>)
      requires Valid()
      modifies if uri in documents then {documents[uri]} else {}
      ensures Valid()
      ensures match old(Get(uri))
        case None => Get(uri) == None
        case Some(d) => Get(uri) == Some(d.(version := version, content := ApplyAll(d.content, changes)))
      ensures forall u :: u != uri ==> Get(u) == old(Get(u))
    {
      if uri in documents {
        var doc := documents[uri];
        doc.version := version;
        doc.ApplyChanges(changes);
      }
    }

    /** `remove`: the document is closed. */
    method Remove(uri: Uri)
      requires Valid()
      modifies this
      ensures Valid()
      ensures Get(uri) == None
      ensures forall u :: u != uri ==> Get(u) == old(Get(u))
    {
      documents := documents - {uri};
    }

    /** `all`: a copy of every open document, in no particular order. */
    method All() returns (docs: seq<DocumentSnapshot>)
      requires Valid()
      ensures |docs| == |documents|
      ensures forall u :: u in documents ==> Get(u).value in docs
      ensures forall d :: d in docs ==> Get(d.uri) == Some(d)
    {
      docs := [];
      var remaining := documents.Keys;
      while remaining != {}
        invariant remaining <= documents.Keys
        invariant |docs| + |remaining| == |documents|
        invariant forall d :: d in docs ==> d.uri in documents && d.uri !in remaining && Get(d.uri) == Some(d)
        invariant forall u :: u in documents && u !in remaining ==> Get(u).value in docs
        decreases remaining
      {
        var u :| u in remaining;
        docs := docs + [Snapshot(documents[u])];
        remaining := remaining - {u};
      }
    }
  }
}
