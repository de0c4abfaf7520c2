/** Rendering a segment and spelling it character by character are the same thing. */
module CommentRendering {

  import opened Wrappers
  import opened Comments
  import opened CommentGrammar

  lemma StartsConcat(s: string, at: nat, a: string, b: string)
    ensures StartsAt(s, at, a + b) <==> StartsAt(s, at, a) && StartsAt(s, at + |a|, b)
  {
    if StartsAt(s, at, a + b) {
      forall k | 0 <= k < |a| ensures s[at + k] == a[k] {
        assert (a + b)[k] == a[k];
      }
      forall k | 0 <= k < |b| ensures s[at + |a| + k] == b[k] {
        assert s[at + (|a| + k)] == (a + b)[|a| + k];
      }
    }
  }

  /** `starts` stands for `StartsAt` on `s`; proofs use it without unfolding `StartsAt`. */
  ghost predicate IsStartsAt(s: string, starts: (nat, string) -> bool) {
    forall at: nat, p: string {:trigger StartsAt(s, at, p)} :: starts(at, p) == StartsAt(s, at, p)
  }

  lemma FitsIn(s: string, starts: (nat, string) -> bool, at: nat, p: string)
    requires IsStartsAt(s, starts) && starts(at, p)
    ensures at + |p| <= |s|
  {
    assert StartsAt(s, at, p);
  }

  lemma StartsWith(s: string, starts: (nat, string) -> bool, at: nat, a: string, b: string)
    requires IsStartsAt(s, starts)
    ensures starts(at, a + b) <==> starts(at, a) && starts(at + |a|, b)
  {
    StartsConcat(s, at, a, b);
  }

  lemma StartsParts(s: string, starts: (nat, string) -> bool, at: nat, a: string, b: string, c: string)
    requires IsStartsAt(s, starts)
    ensures |a + b + c| == |a| + |b| + |c|
    ensures starts(at, a + b + c)
       <==> starts(at, a) && starts(at + |a|, b) && starts(at + |a| + |b|, c)
  {
    StartsWith(s, starts, at, a + b, c);
    StartsWith(s, starts, at, a, b);
  }

  lemma EmptyAt(s: string, starts: (nat, string) -> bool, at: nat)
    requires IsStartsAt(s, starts)
    ensures starts(at, "") <==> at <= |s|
  {
    assert StartsAt(s, at, "") <==> at <= |s|;
  }

  lemma OneAt(s: string, starts: (nat, string) -> bool, at: nat, c: char)
    requires IsStartsAt(s, starts)
    ensures starts(at, [c]) <==> At(s, at, c)
  {
    assert StartsAt(s, at, [c]) <==> At(s, at, c) by {
      assert [c][0] == c;
    }
  }

  lemma TwoAt(s: string, starts: (nat, string) -> bool, at: nat, a: char, b: char)
    requires IsStartsAt(s, starts)
    ensures starts(at, [a, b]) <==> At(s, at, a) && At(s, at + 1, b)
  {
    assert StartsAt(s, at, [a, b]) <==> At(s, at, a) && At(s, at + 1, b) by {
      assert [a, b][0] == a && [a, b][1] == b;
    }
  }

  lemma {:induction false} InnerSpelling(s: string, starts: (nat, string) -> bool, at: nat, inner: Inner)
    requires IsStartsAt(s, starts)
    ensures |RenderInner(inner)| == Length(inner)
    ensures starts(at, RenderInner(inner)) <==> SpelledInner(s, at, inner)
    decreases inner
  {
    match inner
    case Done => EmptyAt(s, starts, at);
    case Glyph(c, rest) =>
      StartsWith(s, starts, at, [c], RenderInner(rest));
      OneAt(s, starts, at, c);
      InnerSpelling(s, starts, at + 1, rest);
    case Nested(i, rest) =>
      InnerSpelling(s, starts, at + 2, i);
      InnerSpelling(s, starts, at + 4 + Length(i), rest);
      StartsWith(s, starts, at, "/*" + RenderInner(i) + "*/", RenderInner(rest));
      BlockParts(s, starts, at, RenderInner(i));
  }

  lemma {:induction false} LevelsSpelling(s: string, starts: (nat, string) -> bool, at: nat, levels: seq<Inner>)
    requires IsStartsAt(s, starts)
    ensures |RenderLevels(levels)| == LevelsSize(levels)
    ensures starts(at, RenderLevels(levels)) <==> SpelledLevels(s, at, levels)
    decreases |levels|
  {
    if levels == [] {
      EmptyAt(s, starts, at);
    } else {
      var first := levels[0];
      LevelsSpelling(s, starts, at + 2 + Length(first), levels[1..]);
      InnerSpelling(s, starts, at + 2, first);
      TwoAt(s, starts, at, '/', '*');
      StartsParts(s, starts, at, "/*", RenderInner(first), RenderLevels(levels[1..]));
    }
  }

  lemma {:induction false} PiecesSpelling(s: string, starts: (nat, string) -> bool, at: nat, ps: seq<Piece>)
    requires IsStartsAt(s, starts)
    ensures |RenderPieces(ps)| == PiecesSize(ps)
    ensures starts(at, RenderPieces(ps)) <==> SpelledPieces(s, at, ps)
    decreases |ps|
  {
    if ps == [] {
      EmptyAt(s, starts, at);
    } else {
      StartsWith(s, starts, at, RenderPiece(ps[0]), RenderPieces(ps[1..]));
      OneAt(s, starts, at, ps[0].c);
      TwoAt(s, starts, at, '\\', ps[0].c);
      PiecesSpelling(s, starts, at + PieceSize(ps[0]), ps[1..]);
    }
  }

  lemma {:induction false} HashesSpelling(s: string, starts: (nat, string) -> bool, at: nat, n: nat)
    requires IsStartsAt(s, starts)
    ensures |Hashes(n)| == n
    ensures starts(at, Hashes(n)) <==> AllHashes(s, at, n)
    decreases n
  {
    if n == 0 {
      EmptyAt(s, starts, at);
    } else {
      HashesSpelling(s, starts, at + 1, n - 1);
      StartsWith(s, starts, at, "#", Hashes(n - 1));
      OneAt(s, starts, at, '#');
    }
  }

  lemma EndingSpelling(s: string, starts: (nat, string) -> bool, at: nat, ending: Ending, closing: string)
    requires IsStartsAt(s, starts)
    ensures |RenderEnding(ending, closing)| == EndingSize(ending, |closing|)
    ensures starts(at, RenderEnding(ending, closing))
       <==> SpelledEnding(s, at, ending, starts(at, closing))
  {
    OneAt(s, starts, at, '\\');
    EmptyAt(s, starts, at);
  }

  lemma QuotedSpelling(
    s: string, starts: (nat, string) -> bool, at: nat, quote: char, pieces: seq<Piece>, ending: Ending)
    requires IsStartsAt(s, starts)
    ensures var segment := Quoted(quote, pieces, ending);
      && |RenderSegment(segment)| == Size(segment)
      && (starts(at, RenderSegment(segment)) <==> Spelled(s, at, segment))
  {
    PiecesSpelling(s, starts, at + 1, pieces);
    QuotedParts(s, starts, at, quote, RenderPieces(pieces), ending);
  }

  lemma QuotedParts(s: string, starts: (nat, string) -> bool, at: nat, quote: char, inner: string, ending: Ending)
    requires IsStartsAt(s, starts)
    ensures var text, end := [quote] + inner + RenderEnding(ending, [quote]), at + 1 + |inner|;
      && |text| == 1 + |inner| + EndingSize(ending, 1)
      && (starts(at, text) <==>
          At(s, at, quote) && starts(at + 1, inner) && SpelledEnding(s, end, ending, At(s, end, quote)))
  {
    var end := at + 1 + |inner|;
    StartsParts(s, starts, at, [quote], inner, RenderEnding(ending, [quote]));
    OneAt(s, starts, at, quote);
    OneAt(s, starts, end, quote);
    EndingSpelling(s, starts, end, ending, [quote]);
  }

  lemma RawSpelling(s: string, starts: (nat, string) -> bool, at: nat, n: nat, body: string, ending: Ending)
    requires IsStartsAt(s, starts)
    ensures var segment := RawQuoted(n, body, ending);
      && |RenderSegment(segment)| == Size(segment)
      && (starts(at, RenderSegment(segment)) <==> Spelled(s, at, segment))
  {
    var end := at + 2 + n + |body|;
    var closing := "\"" + Hashes(n);
    var segment := RawQuoted(n, body, ending);
    RawOpeningSpelling(s, starts, at, n);
    RawClosingSpelling(s, starts, end, n);
    assert RenderSegment(segment) == RawOpening(n) + body + RenderEnding(ending, closing);
    StartsParts(s, starts, at, RawOpening(n), body, RenderEnding(ending, closing));
    EndingSpelling(s, starts, end, ending, closing);
  }

  lemma RawOpeningSpelling(s: string, starts: (nat, string) -> bool, at: nat, n: nat)
    requires IsStartsAt(s, starts)
    ensures |RawOpening(n)| == 2 + n
    ensures starts(at, RawOpening(n)) <==> RawOpens(s, at, n)
  {
    HashesSpelling(s, starts, at + 1, n);
    StartsParts(s, starts, at, "r", Hashes(n), "\"");
    OneAt(s, starts, at, 'r');
    OneAt(s, starts, at + 1 + n, '"');
  }

  lemma RawClosingSpelling(s: string, starts: (nat, string) -> bool, at: nat, n: nat)
    requires IsStartsAt(s, starts)
    ensures |"\"" + Hashes(n)| == 1 + n
    ensures starts(at, "\"" + Hashes(n)) <==> RawCloses(s, at, n)
  {
    HashesSpelling(s, starts, at + 1, n);
    StartsWith(s, starts, at, "\"", Hashes(n));
    OneAt(s, starts, at, '"');
  }

  lemma LineSpelling(s: string, starts: (nat, string) -> bool, at: nat, body: string, ending: Ending)
    requires IsStartsAt(s, starts)
    ensures var segment := LineComment(body, ending);
      && |RenderSegment(segment)| == Size(segment)
      && (starts(at, RenderSegment(segment)) <==> Spelled(s, at, segment))
  {
    LineParts(s, starts, at, body, ending);
    assert starts(at + 2, body) == StartsAt(s, at + 2, body);
  }

  lemma LineParts(s: string, starts: (nat, string) -> bool, at: nat, body: string, ending: Ending)
    requires IsStartsAt(s, starts)
    ensures var text, end := RenderSegment(LineComment(body, ending)), at + 2 + |body|;
      && |text| == Size(LineComment(body, ending))
      && (starts(at, text) <==>
          && At(s, at, '/') && At(s, at + 1, '/') && starts(at + 2, body)
          && SpelledEnding(s, end, ending, At(s, end, '\n')))
  {
    var end := at + 2 + |body|;
    StartsParts(s, starts, at, "//", body, RenderEnding(ending, "\n"));
    TwoAt(s, starts, at, '/', '/');
    OneAt(s, starts, end, '\n');
    EndingSpelling(s, starts, end, ending, "\n");
  }

  lemma BlockSpelling(s: string, starts: (nat, string) -> bool, at: nat, segment: Segment)
    requires IsStartsAt(s, starts) && segment.BlockComment?
    ensures |RenderSegment(segment)| == Size(segment)
    ensures starts(at, RenderSegment(segment)) <==> Spelled(s, at, segment)
  {
    InnerSpelling(s, starts, at + 2, segment.inner);
    BlockParts(s, starts, at, RenderInner(segment.inner));
  }

  lemma BlockParts(s: string, starts: (nat, string) -> bool, at: nat, inner: string)
    requires IsStartsAt(s, starts)
    ensures |"/*" + inner + "*/"| == 4 + |inner|
    ensures var end := at + 2 + |inner|;
      starts(at, "/*" + inner + "*/") <==>
        At(s, at, '/') && At(s, at + 1, '*') && starts(at + 2, inner) && At(s, end, '*') && At(s, end + 1, '/')
  {
    TwoAt(s, starts, at, '/', '*');
    TwoAt(s, starts, at + 2 + |inner|, '*', '/');
    StartsParts(s, starts, at, "/*", inner, "*/");
  }

  lemma SegmentSpelling(s: string, starts: (nat, string) -> bool, at: nat, segment: Segment)
    requires IsStartsAt(s, starts)
    ensures |RenderSegment(segment)| == Size(segment)
    ensures starts(at, RenderSegment(segment)) <==> Spelled(s, at, segment)
  {
    match segment
    case Bare(c) => OneAt(s, starts, at, c);
    case Quoted(quote, pieces, ending) => QuotedSpelling(s, starts, at, quote, pieces, ending);
    case RawQuoted(n, body, ending) => RawSpelling(s, starts, at, n, body, ending);
    case LineComment(body, ending) => LineSpelling(s, starts, at, body, ending);
    case BlockComment(_) => BlockSpelling(s, starts, at, segment);
    case CutBlock(levels) => LevelsSpelling(s, starts, at, levels);
  }

  /** A segment and what comes after it. */
  lemma FirstSpelling(s: string, starts: (nat, string) -> bool, at: nat, segment: Segment, rest: string)
    requires IsStartsAt(s, starts)
    ensures starts(at, RenderSegment(segment) + rest)
       <==> Spelled(s, at, segment) && starts(at + Size(segment), rest)
    ensures Spelled(s, at, segment) ==> at + Size(segment) <= |s|
  {
    SegmentSpelling(s, starts, at, segment);
    StartsWith(s, starts, at, RenderSegment(segment), rest);
    if starts(at, RenderSegment(segment)) {
      FitsIn(s, starts, at, RenderSegment(segment));
    }
  }

  lemma {:induction false} SegmentsSpelling(s: string, starts: (nat, string) -> bool, at: nat, segments: seq<Segment>)
    requires IsStartsAt(s, starts) && at <= |s|
    ensures starts(at, Render(segments)) <==> AllSpelled(s, at, segments)
    decreases |segments|
  {
    if segments == [] {
      EmptyAt(s, starts, at);
    } else {
      var first := segments[0];
      FirstSpelling(s, starts, at, first, Render(segments[1..]));
      if Spelled(s, at, first) {
        SegmentsSpelling(s, starts, at + Size(first), segments[1..]);
      }
    }
  }

  /** Segments render to the text from `at` on exactly when they spell it. */
  lemma RenderSpelling(s: string, at: nat, segments: seq<Segment>)
    requires at <= |s|
    ensures StartsAt(s, at, Render(segments)) <==> AllSpelled(s, at, segments)
  {
    SegmentsSpelling(s, (i: nat, p: string) => StartsAt(s, i, p), at, segments);
  }
}
