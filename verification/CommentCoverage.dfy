/** Every text is spelled by well-formed segments, so the theorem of `CommentScan` covers all inputs. */
module CommentCoverage {

  import opened Wrappers
  import opened Comments
  import opened CommentGrammar
  import CommentScan

  /** `segment` is spelled at `at` and well formed there. */
  ghost predicate Fits(alphanumeric: char -> bool, s: string, at: nat, segment: Segment) {
    at <= |s| && Spelled(s, at, segment) && Well(alphanumeric, s, at, segment)
  }

  /** Reads the pieces of a literal up to its closing quote or the end of the source. */
  lemma {:induction false} ParsePieces(s: string, at: nat, quote: char) returns (ps: seq<Piece>, ending: Ending)
    requires at <= |s| && quote != '\\'
    ensures WellPieces(ps, quote) && SpelledPieces(s, at, ps)
    ensures var end := at + PiecesSize(ps); SpelledEnding(s, end, ending, At(s, end, quote))
    ensures ending != Closed ==> at + PiecesSize(ps) + EndingSize(ending, 1) == |s|
    decreases |s| - at
  {
    ps, ending := [], if at == |s| then Cut else if s[at] == quote then Closed else CutEscape;
    if at < |s| && s[at] != quote && !(s[at] == '\\' && at + 1 == |s|) {
      var head := if s[at] == '\\' then Escaped(s[at + 1]) else Plain(s[at]);
      var tail;
      tail, ending := ParsePieces(s, at + PieceSize(head), quote);
      ps := [head] + tail;
      assert ps[1..] == tail;
    }
  }

  /** `inner` is spelled at `at`, closes or opens nothing by itself, and its closing follows or never comes. */
  ghost predicate InnerAt(s: string, at: nat, inner: Inner) {
    SpelledInner(s, at, inner) && WellInner(s, at, inner) && at + Length(inner) <= |s|
  }

  ghost predicate ClosedAt(s: string, at: nat) {
    At(s, at, '*') && At(s, at + 1, '/')
  }

  /** Reads the inside of a block comment, and of the ones it opens, to its end or the end of the source. */
  lemma {:induction false} ParseInner(s: string, at: nat) returns (closed: bool, inner: Inner, deeper: seq<Inner>)
    requires at <= |s|
    ensures InnerAt(s, at, inner)
    ensures if closed then ClosedAt(s, at + Length(inner)) else CutAt(s, at + Length(inner), deeper)
    decreases |s| - at, 1
  {
    closed, inner, deeper := false, Done, [];
    if at == |s| {
    } else if ClosedAt(s, at) {
      closed := true;
    } else if At(s, at, '/') && At(s, at + 1, '*') {
      closed, inner, deeper := ParseNested(s, at);
    } else {
      var rest;
      closed, rest, deeper := ParseInner(s, at + 1);
      inner := Glyph(s[at], rest);
    }
  }

  lemma {:induction false} ParseNested(s: string, at: nat) returns (closed: bool, inner: Inner, deeper: seq<Inner>)
    requires At(s, at, '/') && At(s, at + 1, '*')
    ensures InnerAt(s, at, inner)
    ensures if closed then ClosedAt(s, at + Length(inner)) else CutAt(s, at + Length(inner), deeper)
    decreases |s| - at, 0
  {
    var first, levels;
    closed, first, levels := ParseInner(s, at + 2);
    if closed {
      var rest;
      closed, rest, deeper := ParseInner(s, at + 4 + Length(first));
      inner := NestedAt(s, at, first, rest);
    } else {
      inner := Done;
      deeper := CutCons(s, at, first, levels);
    }
  }

  lemma NestedAt(s: string, at: nat, first: Inner, rest: Inner) returns (inner: Inner)
    requires At(s, at, '/') && At(s, at + 1, '*') && InnerAt(s, at + 2, first)
    requires ClosedAt(s, at + 2 + Length(first)) && InnerAt(s, at + 4 + Length(first), rest)
    ensures InnerAt(s, at, inner) && Length(inner) == 4 + Length(first) + Length(rest)
  {
    inner := Nested(first, rest);
  }

  /** From `at` to the end of the source there are only comments that nobody closes. */
  ghost predicate CutAt(s: string, at: nat, levels: seq<Inner>) {
    SpelledLevels(s, at, levels) && WellLevels(s, at, levels) && at + LevelsSize(levels) == |s|
  }

  lemma CutCons(s: string, at: nat, first: Inner, rest: seq<Inner>) returns (levels: seq<Inner>)
    requires At(s, at, '/') && At(s, at + 1, '*') && InnerAt(s, at + 2, first)
    requires CutAt(s, at + 2 + Length(first), rest)
    ensures CutAt(s, at, levels) && levels != []
  {
    levels := [first] + rest;
    assert levels[1..] == rest;
  }

  lemma BlockSegment(alphanumeric: char -> bool, s: string, at: nat) returns (segment: Segment)
    requires At(s, at, '/') && At(s, at + 1, '*')
    ensures Fits(alphanumeric, s, at, segment)
  {
    var closed, inner, deeper := ParseInner(s, at + 2);
    if closed {
      segment := BlockComment(inner);
    } else {
      var levels := CutCons(s, at, inner, deeper);
      segment := CutBlock(levels);
    }
  }

  lemma {:induction false} FindLineEnd(s: string, at: nat) returns (end: nat)
    requires at <= |s|
    ensures at <= end <= |s| && '\n' !in s[at..end] && (end == |s| || s[end] == '\n')
    decreases |s| - at
  {
    end := at;
    if at < |s| && s[at] != '\n' {
      end := FindLineEnd(s, at + 1);
      assert s[at..end] == [s[at]] + s[at + 1..end];
    }
  }

  lemma LineSegment(alphanumeric: char -> bool, s: string, at: nat) returns (segment: Segment)
    requires At(s, at, '/') && At(s, at + 1, '/')
    ensures Fits(alphanumeric, s, at, segment)
  {
    var end := FindLineEnd(s, at + 2);
    segment := LineComment(s[at + 2..end], if end == |s| then Cut else Closed);
  }

  lemma {:induction false} FindRawClose(s: string, at: nat, n: nat) returns (end: nat)
    requires at <= |s|
    ensures at <= end <= |s| && NoRawClose(s, at, end, n) && (end == |s| || RawCloses(s, end, n))
    decreases |s| - at
  {
    end := at;
    if at < |s| && !RawCloses(s, at, n) {
      end := FindRawClose(s, at + 1, n);
    }
  }

  lemma RawSegment(alphanumeric: char -> bool, s: string, at: nat, n: nat) returns (segment: Segment)
    requires RawOpens(s, at, n) && RawBoundary(alphanumeric, Before(s, at))
    ensures Fits(alphanumeric, s, at, segment)
  {
    var end := FindRawClose(s, at + 2 + n, n);
    segment := RawQuoted(n, s[at + 2 + n..end], if end == |s| then Cut else Closed);
  }

  lemma QuotedSegment(alphanumeric: char -> bool, s: string, at: nat) returns (segment: Segment)
    requires At(s, at, '"') || CharOpens(s, at)
    ensures Fits(alphanumeric, s, at, segment)
  {
    var ps, ending := ParsePieces(s, at + 1, s[at]);
    segment := Quoted(s[at], ps, ending);
  }

  lemma NextSegment(alphanumeric: char -> bool, s: string, at: nat) returns (segment: Segment)
    requires at < |s|
    ensures Fits(alphanumeric, s, at, segment)
  {
    if At(s, at, '/') && At(s, at + 1, '/') {
      segment := LineSegment(alphanumeric, s, at);
    } else if CommentOpens(s, at) {
      segment := BlockSegment(alphanumeric, s, at);
    } else if At(s, at, '"') || CharOpens(s, at) {
      segment := QuotedSegment(alphanumeric, s, at);
    } else if RawBoundary(alphanumeric, Before(s, at)) && exists n :: RawOpens(s, at, n) {
      var n :| RawOpens(s, at, n);
      segment := RawSegment(alphanumeric, s, at, n);
    } else {
      segment := Bare(s[at]);
    }
  }

  /** Every text, well-formed Rust or not, is spelled by well-formed segments. */
  lemma {:induction false} EverySourceHasSegments(alphanumeric: char -> bool, s: string, at: nat)
    returns (segments: seq<Segment>)
    requires at <= |s|
    ensures AllSpelled(s, at, segments) && AllWell(alphanumeric, s, at, segments)
    decreases |s| - at
  {
    segments := [];
    if at < |s| {
      var first := NextSegment(alphanumeric, s, at);
      var rest := EverySourceHasSegments(alphanumeric, s, at + Size(first));
      segments := [first] + rest;
      assert segments[1..] == rest;
    }
  }
}
