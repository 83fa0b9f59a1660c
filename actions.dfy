/** Quick fixes for diagnostics: a missing required field gets an action that
    inserts a template for the field on the line after the diagnostic, an
    unknown field an action that deletes the diagnostic's first line. */
module Actions {
  import opened Wrappers
  import opened Lsp
  import opened Strings
  import opened TextLines
  import opened Documents
  import opened Seqs

  datatype TextEdit = TextEdit(range: Range, newText: string)

  /** Only the `changes` member of a workspace edit is ever set. */
  datatype WorkspaceEdit = WorkspaceEdit(changes: Option<map<Uri, seq<TextEdit>>>)

  /** The members of a code action the server fills in; the others stay empty. */
  datatype CodeAction = CodeAction(
    title: string,
    kind: Option<string>,
    diagnostics: Option<seq<Diagnostic>>,
    edit: Option<WorkspaceEdit>)

  /** The server answers with code actions only, never with commands. */
  datatype CodeActionOrCommand = CodeActionItem(action: CodeAction)

  const QuickFix: string := "quickfix"
  const MissingFieldPrefix: string := "Missing required field"
  const UnknownFieldPrefix: string := "Unknown field"

  // ---------------------------------------------------------------------
  // Field names in messages

  /** `s` holds at least two quote characters. */
  predicate TwoQuotes(s: string) {
    exists i, j :: 0 <= i < j < |s| && s[i] == '\'' && s[j] == '\''
  }

  /** `f` is quoted at index `i` of `s`: a quote at `i`, none before it, and
      `f` followed by a quote after it. */
  predicate QuotedAt(s: string, f: string, i: nat) {
    i + |f| + 1 < |s| && '\'' !in s[..i] && s[i] == '\''
    && s[i + 1..i + 1 + |f|] == f && s[i + 1 + |f|] == '\''
  }

  /** `f` is the text strictly between the first two quote characters of `s`. */
  predicate FirstQuoted(s: string, f: string) {
    '\'' !in f && exists i: nat :: i < |s| && QuotedAt(s, f, i)
  }

  /** The text after the first occurrence of `prefix`. */
  function AfterPrefix(message: string, prefix: string): (r: Option<string>)
    ensures r.None? <==> !Contains(message, prefix)
    ensures r.Some? ==> exists i: nat :: OccursAt(message, prefix, i) && r.value == message[i + |prefix|..]
  {
    match Find(message, prefix)
    case None => None
    case Some(start) => Some(message[start + |prefix|..])
  }

  /** `extract_field_name`: the text between the first two quotes after the
      first occurrence of `prefix`; nothing when the prefix is absent or fewer
      than two quotes follow it. */
  function ExtractFieldName(message: string, prefix: string): (r: Option<string>)
    ensures AfterPrefix(message, prefix).None? ==> r.None?
    ensures AfterPrefix(message, prefix).Some? ==>
              (r.Some? <==> TwoQuotes(AfterPrefix(message, prefix).value))
    ensures r.Some? ==> FirstQuoted(AfterPrefix(message, prefix).value, r.value)
  {
    match AfterPrefix(message, prefix)
    case None => None
    case Some(after) => QuotedName(after)
  }

  /** The text between the first two quotes of `after`, if it has two. */
  function QuotedName(after: string): (r: Option<string>)
    ensures r.Some? <==> TwoQuotes(after)
    ensures r.Some? ==> FirstQuoted(after, r.value)
  {
    match IndexOf(after, '\'')
    case None => None
    case Some(quoteStart) =>
      var rest := after[quoteStart + 1..];
      match IndexOf(rest, '\'')
      case None =>
        NoSecondQuote(after, quoteStart);
        None
      case Some(quoteEnd) =>
        var name := rest[..quoteEnd];
        assert after[quoteStart + 1 + quoteEnd] == '\'';
        assert after[quoteStart + 1..quoteStart + 1 + quoteEnd] == name;
        assert QuotedAt(after, name, quoteStart);
        Some(name)
  }

  /** When no quote follows the first one, `s` does not hold two quotes. */
  lemma NoSecondQuote(s: string, q: nat)
    requires q < |s| && '\'' !in s[..q] && '\'' !in s[q + 1..]
    ensures !TwoQuotes(s)
  {
    forall k | 0 <= k < q ensures s[k] != '\'' {
      assert s[k] == s[..q][k];
    }
    forall k | q < k < |s| ensures s[k] != '\'' {
      assert s[k] == s[q + 1..][k - q - 1];
    }
  }

  /** Before a quote position, and inside the quoted text, there is no quote. */
  lemma QuotedAtFacts(s: string, f: string, i: nat)
    requires QuotedAt(s, f, i) && '\'' !in f
    ensures forall m :: 0 <= m < i ==> s[m] != '\''
    ensures forall m :: i < m < i + 1 + |f| ==> s[m] != '\''
  {
    forall m | 0 <= m < i ensures s[m] != '\'' {
      assert s[m] == s[..i][m];
    }
    forall m | i < m < i + 1 + |f| ensures s[m] != '\'' {
      assert s[m] == f[m - i - 1];
    }
  }

  /** A string has at most one first quoted text: the contract of
      `ExtractFieldName` determines its result. */
  lemma FirstQuotedUnique(s: string, f: string, g: string)
    requires FirstQuoted(s, f) && FirstQuoted(s, g)
    ensures f == g
  {
    var i: nat :| i < |s| && QuotedAt(s, f, i);
    var k: nat :| k < |s| && QuotedAt(s, g, k);
    QuotedAtFacts(s, f, i);
    QuotedAtFacts(s, g, k);
    assert i == k;
    assert |f| == |g|;
    assert f == s[i + 1..i + 1 + |f|];
  }

  /** A prefix at the very start of a message is its first occurrence. */
  lemma FindAtStart(s: string, prefix: string)
    requires StartsWith(s, prefix)
    ensures Find(s, prefix) == Some(0)
  {
    assert OccursAt(s, prefix, 0);
  }

  /** The messages the quick fixes are written for give back their field
      name: for `"<prefix>… 'f'…"` with no quote between the prefix and `f`,
      the name extracted is `f`. */
  lemma ExtractFieldNameRoundTrip(prefix: string, gap: string, f: string, trail: string)
    requires '\'' !in gap && '\'' !in f
    ensures ExtractFieldName(prefix + gap + "'" + f + "'" + trail, prefix) == Some(f)
  {
    var message := prefix + gap + "'" + f + "'" + trail;
    assert message[..|prefix|] == prefix;
    FindAtStart(message, prefix);
    var after := message[|prefix|..];
    assert after == gap + "'" + f + "'" + trail;
    assert QuotedAt(after, f, |gap|) by {
      assert after[..|gap|] == gap;
      assert after[|gap|] == '\'';
      assert after[|gap| + 1..|gap| + 1 + |f|] == f;
      assert after[|gap| + 1 + |f|] == '\'';
    }
    assert TwoQuotes(after) by {
      assert after[|gap|] == '\'' && after[|gap| + 1 + |f|] == '\'';
    }
    var r := ExtractFieldName(message, prefix);
    FirstQuotedUnique(after, r.value, f);
  }

  // ---------------------------------------------------------------------
  // Templates

  /** `get_field_template`: the YAML inserted for a missing field. In each
      fixed case `f` is the name matched, so `f + ":" + "\n  name: \n"` is the
      text `"metadata:\n  name: \n"`, and so on. */
  function FieldTemplate(f: string): (t: string)
    ensures EndsWithNewline(t)
    ensures f !in {"metadata", "spec", "name", "steps", "tasks", "image"} ==> t == "  " + f + ":" + " \n"
  {
    if f == "metadata" then f + ":" + "\n  name: \n"
    else if f == "spec" then f + ":" + "\n  steps:\n    - name: step-1\n      image: alpine\n"
    else if f == "name" then "  " + f + ":" + " \n"
    else if f == "steps" then "  " + f + ":" + "\n    - name: step-1\n      image: alpine\n"
    else if f == "tasks" then "  " + f + ":" + "\n    - name: task-1\n      taskRef:\n        name: \n"
    else if f == "image" then "      " + f + ":" + " alpine\n"
    else "  " + f + ":" + " \n"
  }

  /** A field name followed by `:` is a key right after the indentation `lead`. */
  lemma KeyAfter(lead: string, f: string, tail: string)
    ensures OccursAt(lead + f + ":" + tail, f + ":", |lead|)
  {
    var s := lead + f + ":" + tail;
    assert s[|lead|..|lead| + |f| + 1] == f + ":";
  }

  /** Every template declares the field it is for, as a key followed by `:`. */
  lemma TemplateDeclaresField(f: string)
    ensures Contains(FieldTemplate(f), f + ":")
  {
    var t := FieldTemplate(f);
    if f == "metadata" {
      KeyAfter("", f, "\n  name: \n");
      assert t == "" + f + ":" + "\n  name: \n";
    } else if f == "spec" {
      KeyAfter("", f, "\n  steps:\n    - name: step-1\n      image: alpine\n");
      assert t == "" + f + ":" + "\n  steps:\n    - name: step-1\n      image: alpine\n";
    } else if f == "steps" {
      KeyAfter("  ", f, "\n    - name: step-1\n      image: alpine\n");
    } else if f == "tasks" {
      KeyAfter("  ", f, "\n    - name: task-1\n      taskRef:\n        name: \n");
    } else if f == "image" {
      KeyAfter("      ", f, " alpine\n");
    } else {
      KeyAfter("  ", f, " \n");
    }
  }

  // ---------------------------------------------------------------------
  // Actions

  /** An action with the quick-fix kind that resolves `d` by the one edit
      `e` to the document `uri` and touches no other document. */
  predicate QuickFixFor(a: CodeAction, uri: Uri, d: Diagnostic, e: TextEdit) {
    a.kind == Some(QuickFix) && a.diagnostics == Some([d])
    && a.edit == Some(WorkspaceEdit(Some(map[uri := [e]])))
  }

  /** The edit that inserts `text` at the start of the line after `d`'s range. */
  function InsertAfter(d: Diagnostic, text: string): (e: TextEdit)
    ensures e.range.start == e.range.end == Position(d.range.end.line + 1, 0)
    ensures e.newText == text
  {
    var p := Position(d.range.end.line + 1, 0);
    TextEdit(Range(p, p), text)
  }

  /** The edit that deletes the first line of `d`'s range, its newline included. */
  function DeleteLine(d: Diagnostic): (e: TextEdit)
    ensures e.range == Range(Position(d.range.start.line, 0), Position(d.range.start.line + 1, 0))
    ensures e.newText == ""
  {
    TextEdit(Range(Position(d.range.start.line, 0), Position(d.range.start.line + 1, 0)), "")
  }

  /** `create_add_field_action`. */
  function AddFieldAction(uri: Uri, d: Diagnostic): (r: Option<CodeAction>)
    ensures r.Some? <==> ExtractFieldName(d.message, MissingFieldPrefix).Some?
    ensures r.Some? ==>
      var f := ExtractFieldName(d.message, MissingFieldPrefix).value;
      r.value.title == "Add missing field '" + f + "'"
      && QuickFixFor(r.value, uri, d, InsertAfter(d, FieldTemplate(f)))
  {
    match ExtractFieldName(d.message, MissingFieldPrefix)
    case None => None
    case Some(f) =>
      Some(CodeAction("Add missing field '" + f + "'", Some(QuickFix), Some([d]),
                      Some(WorkspaceEdit(Some(map[uri := [InsertAfter(d, FieldTemplate(f))]])))))
  }

  /** `create_remove_field_action`. */
  function RemoveFieldAction(uri: Uri, d: Diagnostic): (r: Option<CodeAction>)
    ensures r.Some? <==> ExtractFieldName(d.message, UnknownFieldPrefix).Some?
    ensures r.Some? ==>
      var f := ExtractFieldName(d.message, UnknownFieldPrefix).value;
      r.value.title == "Remove unknown field '" + f + "'"
      && QuickFixFor(r.value, uri, d, DeleteLine(d))
  {
    match ExtractFieldName(d.message, UnknownFieldPrefix)
    case None => None
    case Some(f) =>
      Some(CodeAction("Remove unknown field '" + f + "'", Some(QuickFix), Some([d]),
                      Some(WorkspaceEdit(Some(map[uri := [DeleteLine(d)]])))))
  }

  /** `create_action_for_diagnostic`: a missing-field message is handled
      first, and then only by the add action, even when no field name can be
      extracted; messages of neither kind get no action. */
  function ActionFor(uri: Uri, d: Diagnostic): (r: Option<CodeAction>)
    ensures Contains(d.message, MissingFieldPrefix) ==> r == AddFieldAction(uri, d)
    ensures !Contains(d.message, MissingFieldPrefix) ==>
              (Contains(d.message, UnknownFieldPrefix) ==> r == RemoveFieldAction(uri, d))
    ensures !Contains(d.message, MissingFieldPrefix) ==>
              (!Contains(d.message, UnknownFieldPrefix) ==> r.None?)
  {
    if Contains(d.message, MissingFieldPrefix) then AddFieldAction(uri, d)
    else if Contains(d.message, UnknownFieldPrefix) then RemoveFieldAction(uri, d)
    else None
  }

  /** Every action resolves exactly the diagnostic it was made for, with one
      quick-fix edit to the given document. */
  lemma ActionForShape(uri: Uri, d: Diagnostic)
    requires ActionFor(uri, d).Some?
    ensures exists e :: QuickFixFor(ActionFor(uri, d).value, uri, d, e)
  {
    if Contains(d.message, MissingFieldPrefix) {
      var f := ExtractFieldName(d.message, MissingFieldPrefix).value;
      assert QuickFixFor(ActionFor(uri, d).value, uri, d, InsertAfter(d, FieldTemplate(f)));
    } else {
      assert QuickFixFor(ActionFor(uri, d).value, uri, d, DeleteLine(d));
    }
  }

  function ActionItems(a: Option<CodeAction>): (r: seq<CodeActionOrCommand>)
    ensures |r| <= 1 && (r != [] <==> a.Some?)
    ensures a.Some? ==> r == [CodeActionItem(a.value)]
  {
    if a.Some? then [CodeActionItem(a.value)] else []
  }

  /** The actions for a list of diagnostics, in diagnostic order. */
  function ActionsFor(uri: Uri, ds: seq<Diagnostic>): seq<CodeActionOrCommand> {
    Gather((d: Diagnostic) => ActionItems(ActionFor(uri, d)), ds)
  }

  /** `provide_actions`: one action per diagnostic that produces one. */
  method ProvideActions(uri: Uri, diagnostics: seq<Diagnostic>) returns (actions: seq<CodeActionOrCommand>)
    ensures actions == ActionsFor(uri, diagnostics)
  {
    actions := [];
    var i := 0;
    while i < |diagnostics|
      invariant 0 <= i <= |diagnostics|
      invariant actions == ActionsFor(uri, diagnostics[..i])
    {
      var action := ActionFor(uri, diagnostics[i]);
      if action.Some? {
        actions := actions + [CodeActionItem(action.value)];
      }
      assert diagnostics[..i + 1][..i] == diagnostics[..i];
      i := i + 1;
    }
    assert diagnostics[..i] == diagnostics;
  }

  /** The actions for two runs of diagnostics are those of the first run
      followed by those of the second. */
  lemma ActionsForAppend(uri: Uri, a: seq<Diagnostic>, b: seq<Diagnostic>)
    ensures ActionsFor(uri, a + b) == ActionsFor(uri, a) + ActionsFor(uri, b)
  {
    GatherAppend((d: Diagnostic) => ActionItems(ActionFor(uri, d)), a, b);
  }

  /** A single diagnostic contributes its own action, if it has one. */
  lemma ActionsForSingle(uri: Uri, d: Diagnostic)
    ensures ActionsFor(uri, [d]) == ActionItems(ActionFor(uri, d))
  {
    var f := (d: Diagnostic) => ActionItems(ActionFor(uri, d));
    assert [d][..0] == [];
    assert Gather(f, [d]) == [] + f(d);
  }

  /** There are never more actions than diagnostics. */
  lemma {:induction false} ActionsForAtMostOnePerDiagnostic(uri: Uri, ds: seq<Diagnostic>)
    ensures |ActionsFor(uri, ds)| <= |ds|
    decreases |ds|
  {
    if ds != [] {
      ActionsForAtMostOnePerDiagnostic(uri, ds[..|ds| - 1]);
    }
  }

  /** Every action is the action of one of the diagnostics. */
  lemma {:induction false} ActionsForFrom(uri: Uri, ds: seq<Diagnostic>, k: nat)
    requires k < |ActionsFor(uri, ds)|
    ensures exists d :: d in ds && ActionFor(uri, d) == Some(ActionsFor(uri, ds)[k].action)
    decreases |ds|
  {
    var init := ds[..|ds| - 1];
    var last := ds[|ds| - 1];
    var prev := ActionsFor(uri, init);
    var own := ActionItems(ActionFor(uri, last));
    assert ActionsFor(uri, ds) == prev + own;
    if k < |prev| {
      ActionsForFrom(uri, init, k);
      var d :| d in init && ActionFor(uri, d) == Some(prev[k].action);
      assert d in ds;
    } else {
      assert own == [CodeActionItem(ActionFor(uri, last).value)];
      assert last in ds;
    }
  }

  /** Every action answers one of the diagnostics, with a quick-fix edit to
      the given document only. */
  lemma ActionsForSound(uri: Uri, ds: seq<Diagnostic>, k: nat)
    requires k < |ActionsFor(uri, ds)|
    ensures exists d, e :: d in ds && QuickFixFor(ActionsFor(uri, ds)[k].action, uri, d, e)
  {
    ActionsForFrom(uri, ds, k);
    var d :| d in ds && ActionFor(uri, d) == Some(ActionsFor(uri, ds)[k].action);
    ActionForShape(uri, d);
  }

  /** The answer splits at any diagnostic into the actions before it, its
      own and the actions after it. */
  lemma ActionsForSplit(uri: Uri, ds: seq<Diagnostic>, i: nat)
    requires i < |ds|
    ensures ActionsFor(uri, ds)
         == ActionsFor(uri, ds[..i]) + ActionItems(ActionFor(uri, ds[i])) + ActionsFor(uri, ds[i + 1..])
  {
    var before, d, after := ds[..i], ds[i], ds[i + 1..];
    assert ds == before + [d] + after;
    ActionsForAppend(uri, before + [d], after);
    ActionsForAppend(uri, before, [d]);
    ActionsForSingle(uri, d);
  }

  /** Every diagnostic that produces an action has it in the answer, after the
      actions of all diagnostics before it and before those of all after it. */
  lemma ActionsForComplete(uri: Uri, ds: seq<Diagnostic>, i: nat)
    requires i < |ds| && ActionFor(uri, ds[i]).Some?
    ensures ActionsFor(uri, ds)
         == ActionsFor(uri, ds[..i]) + [CodeActionItem(ActionFor(uri, ds[i]).value)] + ActionsFor(uri, ds[i + 1..])
  {
    ActionsForSplit(uri, ds, i);
  }

  /** A list of diagnostics none of which is about a missing or unknown field
      gets no actions. */
  lemma {:induction false} UnrecognisedMessagesGetNoActions(uri: Uri, ds: seq<Diagnostic>)
    requires forall d :: d in ds ==>
               !Contains(d.message, MissingFieldPrefix) && !Contains(d.message, UnknownFieldPrefix)
    ensures ActionsFor(uri, ds) == []
    decreases |ds|
  {
    if ds != [] {
      assert ds[|ds| - 1] in ds;
      UnrecognisedMessagesGetNoActions(uri, ds[..|ds| - 1]);
    }
  }

  // ---------------------------------------------------------------------
  // What the edits do to a document

  /** Applying the add action's edit to a document (with the corrected
      incremental edit) puts the template at the start of the line after the
      diagnostic, and leaves the text before and after it as it was. */
  lemma InsertAfterPutsTextAtLineStart(content: string, d: Diagnostic, text: string)
    requires '\r' !in content
    requires LineInDocument(content, d.range.end.line + 1)
    ensures var e := InsertAfter(d, text);
      var at := Offset(content, e.range.start);
      at <= |content|
      && (at == 0 || content[at - 1] == '\n')
      && ApplyRange(content, e.range, e.newText) == content[..at] + text + content[at..]
  {
    var e := InsertAfter(d, text);
    ApplyRangeSplices(content, e.range, e.newText);
    LineStartFollowsNewline(content, d.range.end.line + 1);
  }

  /** A line's first character is the start of the text or follows a newline. */
  lemma LineStartFollowsNewline(content: string, line: nat)
    requires '\r' !in content
    requires LineInDocument(content, line)
    ensures var at := Offset(content, Position(line, 0));
      at <= |content| && (at == 0 || content[at - 1] == '\n')
  {
    var ls := Lines(content);
    LinesJoinedPrefix(content);
    OffsetInContent(content, Position(line, 0));
    var at := Offset(content, Position(line, 0));
    if line < |ls| {
      if line > 0 {
        JoinLinesSplit(ls, line);
        var before := JoinLines(ls[..line]);
        assert at == |before|;
        assert EndsWithNewline(before);
        assert JoinLines(ls)[at - 1] == before[at - 1];
      }
    } else {
      assert at == |content|;
    }
  }

  /** In joined lines, line `l` and its newline start where the lines before
      it end. */
  lemma JoinedLineSpan(ls: seq<string>, l: nat)
    requires l < |ls|
    ensures var a := |JoinLines(ls[..l])|;
      a + |ls[l]| + 1 <= |JoinLines(ls)|
      && JoinLines(ls)[a..a + |ls[l]| + 1] == ls[l] + "\n"
      && (l + 1 < |ls| ==> a + |ls[l]| + 1 < |JoinLines(ls)|)
  {
    JoinLinesSplit(ls, l);
    var before := JoinLines(ls[..l]);
    var after := JoinLines(ls[l + 1..]);
    assert JoinLines(ls) == before + (ls[l] + "\n") + after;
    if l + 1 < |ls| {
      assert |after| > 0;
    }
  }

  /** The start of line `l + 1` is just past line `l` and its newline, when
      line `l` is not the last one or the text ends with its newline. */
  lemma NextLineStart(ls: seq<string>, content: string, l: nat)
    requires l < |ls|
    requires l + 1 < |ls| || |JoinLines(ls)| == |content|
    ensures OffsetIn(ls, content, Position(l, 0)) == |JoinLines(ls[..l])|
    ensures OffsetIn(ls, content, Position(l + 1, 0)) == |JoinLines(ls[..l])| + |ls[l]| + 1
  {
    if l + 1 < |ls| {
      assert ls[..l + 1][..l] == ls[..l];
    } else {
      JoinLinesSplit(ls, l);
      assert ls[l + 1..] == [];
    }
  }

  lemma LineSpanIn(ls: seq<string>, content: string, l: nat)
    requires JoinedPrefix(ls, content) && l < |ls|
    requires l + 1 < |ls| || |JoinLines(ls)| == |content|
    ensures var a, b := OffsetIn(ls, content, Position(l, 0)), OffsetIn(ls, content, Position(l + 1, 0));
      a <= b <= |content| && content[a..b] == ls[l] + "\n"
  {
    var a := |JoinLines(ls[..l])|;
    var b := a + |ls[l]| + 1;
    JoinedLineSpan(ls, l);
    NextLineStart(ls, content, l);
    SliceOfPrefix(JoinLines(ls), content, a, b);
  }

  /** A slice that ends within a prefix of `j` is the same slice of `j`. */
  lemma SliceOfPrefix(j: string, content: string, a: nat, b: nat)
    requires |content| <= |j| && content == j[..|content|] && a <= b <= |content|
    ensures content[a..b] == j[a..b]
  {
  }

  /** Line `l` and its newline lie between the starts of lines `l` and `l + 1`. */
  lemma LineSpan(content: string, l: nat)
    requires '\r' !in content
    requires l < |Lines(content)| && LineInDocument(content, l + 1)
    ensures var a, b := Offset(content, Position(l, 0)), Offset(content, Position(l + 1, 0));
      a <= b <= |content| && content[a..b] == Lines(content)[l] + "\n"
  {
    LinesJoinedPrefix(content);
    assert l + 1 == |Lines(content)| ==> JoinLines(Lines(content)) == content;
    LineSpanIn(Lines(content), content, l);
  }

  /** Applying the remove action's edit deletes exactly the diagnostic's first
      line and its newline. */
  lemma DeleteLineRemovesTheLine(content: string, d: Diagnostic)
    requires '\r' !in content
    requires d.range.start.line < |Lines(content)|
    requires LineInDocument(content, d.range.start.line + 1)
    ensures var e := DeleteLine(d);
      var a, b := Offset(content, e.range.start), Offset(content, e.range.end);
      a <= b <= |content|
      && content[a..b] == Lines(content)[d.range.start.line] + "\n"
      && ApplyRange(content, e.range, e.newText) == content[..a] + content[b..]
  {
    var l := d.range.start.line;
    var e := DeleteLine(d);
    assert e.range == Range(Position(l, 0), Position(l + 1, 0)) && e.newText == "";
    LineSpan(content, l);
    var a, b := Offset(content, Position(l, 0)), Offset(content, Position(l + 1, 0));
    assert LineInDocument(content, l);
    ApplyRangeSplices(content, e.range, "");
    EmptyMiddle(content[..a], content[b..]);
  }

  lemma EmptyMiddle(x: string, y: string)
    ensures x + "" + y == x + y
  {
  }

  /** A needle whose first character is not in a text does not occur in it. */
  lemma FirstCharAbsent(s: string, needle: string)
    requires |needle| > 0 && needle[0] !in s
    ensures !Contains(s, needle)
  {
    forall j | 0 <= j <= |s| ensures !OccursAt(s, needle, j) {
      if j + |needle| <= |s| {
        assert s[j..j + |needle|][0] == s[j];
      }
    }
  }

}
