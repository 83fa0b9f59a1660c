/** The Language Server Protocol types the core works with: positions, ranges,
    locations and diagnostics (LSP 3.17, sections "Position", "Range", "Location"
    and "Diagnostic"). Lines and characters are the protocol's `uinteger`; they are
    unbounded here. */
module Lsp {
  import opened Wrappers

  type Uri = string

  datatype Position = Position(line: nat, character: nat)

  datatype Range = Range(start: Position, end: Position)

  datatype Location = Location(uri: Uri, range: Range)

  datatype DiagnosticSeverity = Error | Warning | Information | Hint

  /** A diagnostic; the fields the server always leaves empty (code, code
      description, related information, tags, data) are not represented. */
  datatype Diagnostic = Diagnostic(
    range: Range,
    severity: Option<DiagnosticSeverity>,
    source: Option<string>,
    message: string)

  /** Lexicographic order on positions: first by line, then by character. */
  predicate PositionLe(a: Position, b: Position) {
    a.line < b.line || (a.line == b.line && a.character <= b.character)
  }

  /** The containment test every provider uses: the range is closed at BOTH ends. */
  function PositionInRange(pos: Position, range: Range): (b: bool)
    ensures b <==> PositionLe(range.start, pos) && PositionLe(pos, range.end)
  {
    if pos.line < range.start.line || pos.line > range.end.line then false
    else if pos.line == range.start.line && pos.character < range.start.character then false
    else if pos.line == range.end.line && pos.character > range.end.character then false
    else true
  }

  /** Both end points of a range lie in it, and so does nothing before its start
      or after its end. */
  lemma PositionInRangeInclusive(range: Range, pos: Position)
    requires PositionLe(range.start, range.end)
    ensures PositionInRange(range.start, range) && PositionInRange(range.end, range)
    ensures !PositionLe(range.start, pos) ==> !PositionInRange(pos, range)
    ensures !PositionLe(pos, range.end) ==> !PositionInRange(pos, range)
  {
  }
}
