/** A grammar of Rust source text, independent of the scanner, and what the scanner reports on it.

  A source is a sequence of segments. `Render` spells them, and `Well` says that a segment is
  what its neighbours let it be: a bare character opens nothing, a raw string starts at a token
  boundary, only the last segment may be cut off by the end of the source. `Reported` reads the
  comment positions off the segments. `ScanSegments` proves that the scanner reports exactly
  those, and `EverySourceHasSegments` that no source is left out.
  */
module CommentGrammar {

  import opened Wrappers
  import opened Comments

  /** A character of a quoted literal, or a backslash and the character it escapes. */
  datatype Piece = Plain(c: char) | Escaped(c: char)

  /** The inside of a block comment. */
  datatype Inner = Done | Glyph(c: char, rest: Inner) | Nested(inner: Inner, rest: Inner)

  /** How a segment ends. A literal may be cut off just after a backslash. */
  datatype Ending = Closed | Cut | CutEscape

  datatype Segment =
    | Bare(c: char)
    | Quoted(quote: char, pieces: seq<Piece>, ending: Ending)
    | RawQuoted(hashes: nat, body: string, ending: Ending)
    | LineComment(body: string, ending: Ending)
    | BlockComment(inner: Inner)
    | CutBlock(levels: seq<Inner>)

  // ---------------------------------------------------------------- rendering

  function RenderPiece(piece: Piece): string {
    match piece case Plain(c) => [c] case Escaped(c) => ['\\', c]
  }

  function RenderPieces(ps: seq<Piece>): string {
    if ps == [] then "" else RenderPiece(ps[0]) + RenderPieces(ps[1..])
  }

  function RenderInner(inner: Inner): string {
    match inner
    case Done => ""
    case Glyph(c, rest) => [c] + RenderInner(rest)
    case Nested(i, rest) => "/*" + RenderInner(i) + "*/" + RenderInner(rest)
  }

  /** Nested comments none of which is closed: the inside of each up to the next one. */
  function RenderLevels(levels: seq<Inner>): string {
    if levels == [] then "" else "/*" + RenderInner(levels[0]) + RenderLevels(levels[1..])
  }

  function Hashes(n: nat): string {
    if n == 0 then "" else "#" + Hashes(n - 1)
  }

  function RawOpening(n: nat): string {
    "r" + Hashes(n) + "\""
  }

  function RenderEnding(ending: Ending, closing: string): string {
    match ending case Closed => closing case Cut => "" case CutEscape => "\\"
  }

  function RenderSegment(segment: Segment): string {
    match segment
    case Bare(c) => [c]
    case Quoted(quote, pieces, ending) => [quote] + RenderPieces(pieces) + RenderEnding(ending, [quote])
    case RawQuoted(n, body, ending) => RawOpening(n) + body + RenderEnding(ending, "\"" + Hashes(n))
    case LineComment(body, ending) => "//" + body + RenderEnding(ending, "\n")
    case BlockComment(inner) => "/*" + RenderInner(inner) + "*/"
    case CutBlock(levels) => RenderLevels(levels)
  }

  function Render(segments: seq<Segment>): string {
    if segments == [] then "" else RenderSegment(segments[0]) + Render(segments[1..])
  }

  // ---------------------------------------------------------------- spelling, character by character

  function Length(inner: Inner): nat {
    match inner
    case Done => 0
    case Glyph(_, rest) => 1 + Length(rest)
    case Nested(i, rest) => 4 + Length(i) + Length(rest)
  }

  function LevelsSize(levels: seq<Inner>): nat {
    if levels == [] then 0 else 2 + Length(levels[0]) + LevelsSize(levels[1..])
  }

  function PieceSize(piece: Piece): nat {
    if piece.Plain? then 1 else 2
  }

  function PiecesSize(ps: seq<Piece>): nat {
    if ps == [] then 0 else PieceSize(ps[0]) + PiecesSize(ps[1..])
  }

  function EndingSize(ending: Ending, closing: nat): nat {
    match ending case Closed => closing case Cut => 0 case CutEscape => 1
  }

  function Size(segment: Segment): nat {
    match segment
    case Bare(_) => 1
    case Quoted(_, pieces, ending) => 1 + PiecesSize(pieces) + EndingSize(ending, 1)
    case RawQuoted(n, body, ending) => 2 + n + |body| + EndingSize(ending, 1 + n)
    case LineComment(body, ending) => 2 + |body| + EndingSize(ending, 1)
    case BlockComment(inner) => 4 + Length(inner)
    case CutBlock(levels) => LevelsSize(levels)
  }

  predicate SpelledPiece(s: string, at: nat, piece: Piece) {
    match piece
    case Plain(c) => At(s, at, c)
    case Escaped(c) => At(s, at, '\\') && At(s, at + 1, c)
  }

  predicate SpelledPieces(s: string, at: nat, ps: seq<Piece>)
    decreases |ps|
  {
    if ps == [] then at <= |s| else
    SpelledPiece(s, at, ps[0]) && SpelledPieces(s, at + PieceSize(ps[0]), ps[1..])
  }

  predicate SpelledInner(s: string, at: nat, inner: Inner)
    decreases inner, at
  {
    match inner
    case Done => at <= |s|
    case Glyph(c, rest) => At(s, at, c) && SpelledInner(s, at + 1, rest)
    case Nested(i, rest) =>
      var mid := at + 2 + Length(i);
      && At(s, at, '/') && At(s, at + 1, '*') && SpelledInner(s, at + 2, i)
      && At(s, mid, '*') && At(s, mid + 1, '/') && SpelledInner(s, mid + 2, rest)
  }

  predicate SpelledLevels(s: string, at: nat, levels: seq<Inner>)
    decreases |levels|
  {
    if levels == [] then at <= |s| else
    && At(s, at, '/') && At(s, at + 1, '*')
    && SpelledInner(s, at + 2, levels[0])
    && SpelledLevels(s, at + 2 + Length(levels[0]), levels[1..])
  }

  predicate SpelledEnding(s: string, at: nat, ending: Ending, closes: bool) {
    match ending
    case Closed => closes
    case Cut => at <= |s|
    case CutEscape => At(s, at, '\\')
  }

  predicate Spelled(s: string, at: nat, segment: Segment) {
    match segment
    case Bare(c) => At(s, at, c)
    case Quoted(quote, pieces, ending) =>
      var end := at + 1 + PiecesSize(pieces);
      && At(s, at, quote) && SpelledPieces(s, at + 1, pieces)
      && SpelledEnding(s, end, ending, At(s, end, quote))
    case RawQuoted(n, body, ending) =>
      var end := at + 2 + n + |body|;
      && RawOpens(s, at, n) && StartsAt(s, at + 2 + n, body)
      && SpelledEnding(s, end, ending, RawCloses(s, end, n))
    case LineComment(body, ending) =>
      var end := at + 2 + |body|;
      && At(s, at, '/') && At(s, at + 1, '/') && StartsAt(s, at + 2, body)
      && SpelledEnding(s, end, ending, At(s, end, '\n'))
    case BlockComment(inner) =>
      var end := at + 2 + Length(inner);
      && At(s, at, '/') && At(s, at + 1, '*') && SpelledInner(s, at + 2, inner)
      && At(s, end, '*') && At(s, end + 1, '/')
    case CutBlock(levels) => SpelledLevels(s, at, levels)
  }

  // ---------------------------------------------------------------- well-formedness

  predicate WellPieces(ps: seq<Piece>, quote: char) {
    forall i :: 0 <= i < |ps| ==> ps[i].Plain? ==> ps[i].c != quote && ps[i].c != '\\'
  }

  /** No character of `inner`, which stands at `at`, opens or closes a comment by itself. */
  predicate WellInner(s: string, at: nat, inner: Inner)
    decreases inner, at
  {
    match inner
    case Done => true
    case Glyph(c, rest) =>
      && !(c == '/' && At(s, at + 1, '*'))
      && !(c == '*' && At(s, at + 1, '/'))
      && WellInner(s, at + 1, rest)
    case Nested(i, rest) =>
      WellInner(s, at + 2, i) && WellInner(s, at + 4 + Length(i), rest)
  }

  predicate WellLevels(s: string, at: nat, levels: seq<Inner>)
    decreases |levels|
  {
    levels != [] ==>
      && WellInner(s, at + 2, levels[0])
      && WellLevels(s, at + 2 + Length(levels[0]), levels[1..])
  }

  predicate NoRawClose(s: string, from: nat, end: nat, n: nat) {
    forall i :: from <= i < end ==> !RawCloses(s, i, n)
  }

  /** No literal and no comment starts at `at`. */
  ghost predicate OpensNothing(alphanumeric: char -> bool, s: string, at: nat)
    requires at <= |s|
  {
    && !CommentOpens(s, at)
    && !At(s, at, '"')
    && !CharOpens(s, at)
    && (RawBoundary(alphanumeric, Before(s, at)) ==> forall n :: !RawOpens(s, at, n))
  }

  /** A segment that is cut off is the last of the source. */
  predicate EndsWell(s: string, at: nat, segment: Segment) {
    match segment
    case Bare(_) => true
    case Quoted(_, _, ending) => ending != Closed ==> at + Size(segment) == |s|
    case RawQuoted(_, _, ending) => ending != CutEscape && (ending == Cut ==> at + Size(segment) == |s|)
    case LineComment(_, ending) => ending != CutEscape && (ending == Cut ==> at + Size(segment) == |s|)
    case BlockComment(_) => true
    case CutBlock(_) => at + Size(segment) == |s|
  }

  ghost predicate Well(alphanumeric: char -> bool, s: string, at: nat, segment: Segment)
    requires at <= |s|
  {
    && EndsWell(s, at, segment)
    && match segment
       case Bare(_) => OpensNothing(alphanumeric, s, at)
       case Quoted(quote, pieces, _) =>
         WellPieces(pieces, quote) && (quote == '"' || (quote == '\'' && CharOpens(s, at)))
       case RawQuoted(n, body, _) =>
         RawBoundary(alphanumeric, Before(s, at)) && NoRawClose(s, at + 2 + n, at + 2 + n + |body|, n)
       case LineComment(body, _) => '\n' !in body
       case BlockComment(inner) => WellInner(s, at + 2, inner)
       case CutBlock(levels) => levels != [] && WellLevels(s, at, levels)
  }

  /** `segments` are well formed at their places in `s`, from `at` to the end of the source. */
  ghost predicate AllWell(alphanumeric: char -> bool, s: string, at: nat, segments: seq<Segment>)
    decreases |segments|
  {
    if segments == [] then at == |s| else
    && at <= |s|
    && Well(alphanumeric, s, at, segments[0])
    && AllWell(alphanumeric, s, at + Size(segments[0]), segments[1..])
  }

  predicate AllSpelled(s: string, at: nat, segments: seq<Segment>)
    decreases |segments|
  {
    segments == [] || (Spelled(s, at, segments[0]) && AllSpelled(s, at + Size(segments[0]), segments[1..]))
  }

  // ---------------------------------------------------------------- what must be reported

  /** A comment segment that is not a licence header. */
  predicate IsReported(segment: Segment) {
    match segment
    case LineComment(body, _) => !StartsAt(body, 0, LICENSE[2..])
    case BlockComment(_) => true
    case CutBlock(_) => true
    case _ => false
  }

  /** How long a segment is and whether it must be reported. */
  datatype Mark = Mark(size: nat, reported: bool)

  function Marks(segments: seq<Segment>): seq<Mark> {
    if segments == [] then [] else
    [Mark(Size(segments[0]), IsReported(segments[0]))] + Marks(segments[1..])
  }

  /** Where mark `i` starts. */
  function Start(marks: seq<Mark>, i: nat): nat
    requires i <= |marks|
  {
    if i == 0 then 0 else marks[0].size + Start(marks[1..], i - 1)
  }

  /** The positions at which marks to be reported start. */
  function Reported(at: nat, marks: seq<Mark>): seq<nat>
    decreases |marks|
  {
    if marks == [] then [] else
    Note(marks[0].reported, at, Reported(at + marks[0].size, marks[1..]))
  }
}
