/** What the scanner of `Comments` reports on a source spelled by the segments of `CommentGrammar`. */
module CommentScan {

  import opened Wrappers
  import opened Comments
  import opened CommentGrammar
  import opened CommentRendering

  // ---------------------------------------------------------------- inside one segment

  /** `end` stands for `BlockEnd` on `s`; proofs by induction use it without unfolding it. */
  ghost predicate IsBlockEnd(s: string, end: (nat, nat) -> nat) {
    forall at: nat, depth: nat {:trigger BlockEnd(s, at, depth)} ::
      at <= |s| ==> end(at, depth) == BlockEnd(s, at, depth)
  }

  /** One turn inside a block comment. */
  lemma BlockTurn(s: string, at: nat, depth: nat, end: (nat, nat) -> nat)
    requires IsBlockEnd(s, end) && depth > 0 && at < |s|
    ensures At(s, at, '/') && At(s, at + 1, '*') ==> end(at, depth) == end(at + 2, depth + 1)
    ensures At(s, at, '*') && At(s, at + 1, '/') ==> end(at, depth) == end(at + 2, depth - 1)
    ensures !(At(s, at, '/') && At(s, at + 1, '*')) && !(At(s, at, '*') && At(s, at + 1, '/')) ==>
      end(at, depth) == end(at + 1, depth)
  {
    assert BlockEnd(s, at, depth) == end(at, depth);
  }

  lemma {:induction false} BlockInner(s: string, at: nat, inner: Inner, depth: nat, end: (nat, nat) -> nat)
    requires IsBlockEnd(s, end) && depth > 0 && SpelledInner(s, at, inner) && WellInner(s, at, inner)
    ensures at + Length(inner) <= |s|
    ensures end(at, depth) == end(at + Length(inner), depth)
    decreases inner
  {
    match inner
    case Done =>
    case Glyph(_, rest) =>
      BlockTurn(s, at, depth, end);
      BlockInner(s, at + 1, rest, depth, end);
    case Nested(i, rest) =>
      BlockTurn(s, at, depth, end);
      BlockInner(s, at + 2, i, depth + 1, end);
      BlockTurn(s, at + 2 + Length(i), depth + 1, end);
      BlockInner(s, at + 4 + Length(i), rest, depth, end);
  }

  lemma {:induction false} BlockLevels(s: string, at: nat, levels: seq<Inner>, depth: nat, end: (nat, nat) -> nat)
    requires IsBlockEnd(s, end) && depth > 0 && SpelledLevels(s, at, levels) && WellLevels(s, at, levels)
    requires at + LevelsSize(levels) == |s|
    ensures end(at, depth) == |s|
    decreases |levels|
  {
    if levels == [] {
      assert BlockEnd(s, |s|, depth) == |s|;
    } else {
      BlockTurn(s, at, depth, end);
      BlockInner(s, at + 2, levels[0], depth + 1, end);
      BlockLevels(s, at + 2 + Length(levels[0]), levels[1..], depth + 1, end);
    }
  }

  lemma {:induction false} TextPieces(s: string, at: nat, ps: seq<Piece>)
    requires SpelledPieces(s, at, ps) && WellPieces(ps, '"')
    ensures at + PiecesSize(ps) <= |s|
    ensures TextEnd(s, at) == TextEnd(s, at + PiecesSize(ps))
    decreases |ps|
  {
    if ps != [] {
      TextPieces(s, at + PieceSize(ps[0]), ps[1..]);
    }
  }

  lemma {:induction false} CharPieces(s: string, at: nat, ps: seq<Piece>)
    requires SpelledPieces(s, at, ps) && WellPieces(ps, '\'')
    ensures at + PiecesSize(ps) <= |s|
    ensures CharEnd(s, at) == CharEnd(s, at + PiecesSize(ps))
    decreases |ps|
  {
    if ps != [] {
      CharPieces(s, at + PieceSize(ps[0]), ps[1..]);
    }
  }

  lemma {:induction false} RawBody(s: string, at: nat, end: nat, n: nat)
    requires at <= end <= |s| && NoRawClose(s, at, end, n)
    ensures RawEnd(s, at, n) == RawEnd(s, end, n)
    decreases end - at
  {
    if at < end {
      assert !RawCloses(s, at, n);
      RawBody(s, at + 1, end, n);
    }
  }

  lemma {:induction false} LineBody(s: string, at: nat, end: nat)
    requires at <= end <= |s| && forall i :: at <= i < end ==> s[i] != '\n'
    ensures LineEnd(s, at) == LineEnd(s, end)
    decreases end - at
  {
    if at < end {
      LineBody(s, at + 1, end);
    }
  }

  // ---------------------------------------------------------------- over one segment

  /** The scanner, in code at `at`, is next in code after `segment`, and has reported it or not. */
  ghost predicate Passes(alphanumeric: char -> bool, s: string, at: nat, segment: Segment) {
    var end := at + Size(segment);
    && at < end <= |s|
    && var m := CodeMove(alphanumeric, s, at);
       m.reports == IsReported(segment) && Resume(s, m.to, m.mode) == end
  }

  lemma PassBare(alphanumeric: char -> bool, s: string, at: nat, c: char)
    requires at <= |s| && Spelled(s, at, Bare(c)) && Well(alphanumeric, s, at, Bare(c))
    ensures Passes(alphanumeric, s, at, Bare(c))
  {
    if RawHashes(s, at).Some? {
      RawHashesFinds(s, at, RawHashes(s, at).value);
    }
  }

  lemma PassQuoted(alphanumeric: char -> bool, s: string, at: nat, segment: Segment)
    requires at <= |s| && segment.Quoted? && Spelled(s, at, segment) && Well(alphanumeric, s, at, segment)
    ensures Passes(alphanumeric, s, at, segment)
  {
    if segment.quote == '"' {
      TextPieces(s, at + 1, segment.pieces);
    } else {
      CharPieces(s, at + 1, segment.pieces);
    }
  }

  lemma PassRaw(alphanumeric: char -> bool, s: string, at: nat, segment: Segment)
    requires at <= |s| && segment.RawQuoted? && Spelled(s, at, segment) && Well(alphanumeric, s, at, segment)
    ensures Passes(alphanumeric, s, at, segment)
  {
    var n, body := segment.hashes, segment.body;
    RawHashesFinds(s, at, n);
    RawBody(s, at + 2 + n, at + 2 + n + |body|, n);
  }

  /** A line comment is exempt exactly when its body starts like a licence header. */
  lemma LicenceBody(s: string, at: nat, segment: Segment)
    requires segment.LineComment? && Spelled(s, at, segment) && '\n' !in segment.body && EndsWell(s, at, segment)
    ensures StartsAt(s, at, LICENSE) <==> StartsAt(segment.body, 0, LICENSE[2..])
  {
    var body, licence := segment.body, LICENSE[2..];
    assert "//" + licence == LICENSE;
    StartsConcat(s, at, "//", licence);
    assert At(s, at, '/') && At(s, at + 1, '/') ==> StartsAt(s, at, "//");
    if |body| < 6 && at + 8 <= |s| {
      assert s[at + 2 + |body|] != licence[|body|];
    }
    if StartsAt(s, at + 2, licence) {
      forall k | 0 <= k < 6 ensures body[0 + k] == licence[k] {
        assert s[at + 2 + k] == licence[k];
      }
    }
  }

  lemma PassLine(alphanumeric: char -> bool, s: string, at: nat, segment: Segment)
    requires at <= |s| && segment.LineComment? && Spelled(s, at, segment) && Well(alphanumeric, s, at, segment)
    ensures Passes(alphanumeric, s, at, segment)
  {
    var end := at + 2 + |segment.body|;
    LicenceBody(s, at, segment);
    forall i | at + 1 <= i < end ensures s[i] != '\n' {
      if i > at + 1 {
        assert s[at + 2 + (i - at - 2)] == segment.body[i - at - 2];
      }
    }
    LineBody(s, at + 1, end);
  }

  lemma PassBlock(alphanumeric: char -> bool, s: string, at: nat, inner: Inner)
    requires Spelled(s, at, BlockComment(inner)) && WellInner(s, at + 2, inner)
    ensures Passes(alphanumeric, s, at, BlockComment(inner))
  {
    var end := (at: nat, depth: nat) => if at <= |s| then BlockEnd(s, at, depth) else 0;
    var mid := at + 2 + Length(inner);
    BlockInner(s, at + 2, inner, 1, end);
    BlockTurn(s, mid, 1, end);
    assert end(at + 2, 1) == BlockEnd(s, mid + 2, 0);
  }

  lemma CutBlockEnd(s: string, at: nat, levels: seq<Inner>, end: (nat, nat) -> nat)
    requires IsBlockEnd(s, end) && levels != [] && SpelledLevels(s, at, levels) && WellLevels(s, at, levels)
    requires at + LevelsSize(levels) == |s|
    ensures At(s, at, '/') && At(s, at + 1, '*') && end(at + 2, 1) == |s|
  {
    var first, rest := levels[0], levels[1..];
    BlockInner(s, at + 2, first, 1, end);
    BlockLevels(s, at + 2 + Length(first), rest, 1, end);
  }

  lemma PassCutBlock(alphanumeric: char -> bool, s: string, at: nat, levels: seq<Inner>)
    requires levels != [] && SpelledLevels(s, at, levels) && WellLevels(s, at, levels)
    requires at + LevelsSize(levels) == |s|
    ensures Passes(alphanumeric, s, at, CutBlock(levels))
  {
    var end := (at: nat, depth: nat) => if at <= |s| then BlockEnd(s, at, depth) else 0;
    CutBlockEnd(s, at, levels, end);
    assert BlockEnd(s, at + 2, 1) == |s|;
    assert CodeMove(alphanumeric, s, at) == Move(at + 2, Block(1), true);
  }

  lemma PassSegment(alphanumeric: char -> bool, s: string, at: nat, segment: Segment)
    requires at <= |s| && Spelled(s, at, segment) && Well(alphanumeric, s, at, segment)
    ensures Passes(alphanumeric, s, at, segment)
  {
    match segment
    case Bare(c) => PassBare(alphanumeric, s, at, c);
    case Quoted(_, _, _) => PassQuoted(alphanumeric, s, at, segment);
    case RawQuoted(_, _, _) => PassRaw(alphanumeric, s, at, segment);
    case LineComment(_, _) => PassLine(alphanumeric, s, at, segment);
    case BlockComment(inner) => PassBlock(alphanumeric, s, at, inner);
    case CutBlock(levels) => PassCutBlock(alphanumeric, s, at, levels);
  }

  // ---------------------------------------------------------------- over the whole source

  lemma ScanHead(alphanumeric: char -> bool, s: string, at: nat, segment: Segment) returns (end: nat)
    requires at <= |s| && Spelled(s, at, segment) && Well(alphanumeric, s, at, segment)
    ensures at < end <= |s| && end == at + Size(segment)
    ensures Scan(alphanumeric, s, at) == Note(IsReported(segment), at, Scan(alphanumeric, s, end))
  {
    PassSegment(alphanumeric, s, at, segment);
    end := at + Size(segment);
  }

  /** `scan` stands for `Scan` on `s`; proofs use it without unfolding `Scan`. */
  ghost predicate IsScan(alphanumeric: char -> bool, s: string, scan: nat -> seq<nat>) {
    forall at: nat {:trigger Scan(alphanumeric, s, at)} :: at <= |s| ==> scan(at) == Scan(alphanumeric, s, at)
  }

  lemma ScanNothing(alphanumeric: char -> bool, s: string, scan: nat -> seq<nat>)
    requires IsScan(alphanumeric, s, scan)
    ensures scan(|s|) == []
  {
    assert Scan(alphanumeric, s, |s|) == [];
  }

  lemma ScanFirst(alphanumeric: char -> bool, s: string, scan: nat -> seq<nat>, at: nat, segments: seq<Segment>)
    returns (end: nat)
    requires IsScan(alphanumeric, s, scan) && segments != [] && at <= |s|
    requires AllSpelled(s, at, segments) && AllWell(alphanumeric, s, at, segments)
    ensures end == at + Size(segments[0]) && end <= |s|
    ensures AllSpelled(s, end, segments[1..]) && AllWell(alphanumeric, s, end, segments[1..])
    ensures scan(at) == Note(IsReported(segments[0]), at, scan(end))
  {
    end := ScanHead(alphanumeric, s, at, segments[0]);
  }

  lemma {:induction false} ScanSegmentsBy(
    alphanumeric: char -> bool, s: string, scan: nat -> seq<nat>, at: nat, segments: seq<Segment>)
    requires IsScan(alphanumeric, s, scan)
    requires at <= |s| && AllSpelled(s, at, segments) && AllWell(alphanumeric, s, at, segments)
    ensures scan(at) == Reported(at, Marks(segments))
    decreases |segments|
  {
    if segments == [] {
      ScanNothing(alphanumeric, s, scan);
    } else {
      var end := ScanFirst(alphanumeric, s, scan, at, segments);
      ScanSegmentsBy(alphanumeric, s, scan, end, segments[1..]);
      ReportedFirst(at, segments);
    }
  }

  /** The scanner reports exactly the comment segments. */
  lemma ScanSegments(alphanumeric: char -> bool, s: string, at: nat, segments: seq<Segment>)
    requires at <= |s| && AllSpelled(s, at, segments) && AllWell(alphanumeric, s, at, segments)
    ensures Scan(alphanumeric, s, at) == Reported(at, Marks(segments))
  {
    var scan := (i: nat) => if i <= |s| then Scan(alphanumeric, s, i) else [];
    ScanSegmentsBy(alphanumeric, s, scan, at, segments);
  }

  lemma ReportedFirst(at: nat, segments: seq<Segment>)
    requires segments != []
    ensures Reported(at, Marks(segments))
      == Note(IsReported(segments[0]), at, Reported(at + Size(segments[0]), Marks(segments[1..])))
  {
    var marks := Marks(segments);
    assert marks[1..] == Marks(segments[1..]);
  }
}
