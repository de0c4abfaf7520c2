/** The lines reported by `in_rust`, for every source. */
module CommentLines {

  import opened Comments
  import opened CommentGrammar
  import CommentRendering
  import CommentScan
  import CommentCoverage

  predicate Increasing(xs: seq<nat>) {
    forall i, j :: 0 <= i < j < |xs| ==> xs[i] < xs[j]
  }

  predicate NonDecreasing(xs: seq<nat>) {
    forall i, j :: 0 <= i < j < |xs| ==> xs[i] <= xs[j]
  }

  lemma {:induction false} LineAtMonotone(s: string, i: nat, j: nat)
    requires i <= j
    ensures LineAt(s, i) <= LineAt(s, j)
    decreases j - i
  {
    if i < j {
      LineAtMonotone(s, i, j - 1);
    }
  }

  lemma {:induction false} LinesPointwise(s: string, xs: seq<nat>)
    ensures |Lines(s, xs)| == |xs| && forall i :: 0 <= i < |xs| ==> Lines(s, xs)[i] == LineAt(s, xs[i])
  {
    if xs != [] {
      LinesPointwise(s, xs[1..]);
    }
  }

  lemma {:induction false} DedupIncreasing(xs: seq<nat>)
    requires NonDecreasing(xs)
    ensures Increasing(Dedup(xs))
  {
    if |xs| >= 2 {
      DedupIncreasing(xs[1..]);
    }
  }

  lemma {:induction false} StartReported(at: nat, marks: seq<Mark>, i: nat)
    requires i < |marks| && marks[i].reported
    ensures at + Start(marks, i) in Reported(at, marks)
    decreases i
  {
    if i > 0 {
      StartReported(at + marks[0].size, marks[1..], i - 1);
    }
  }

  lemma {:induction false} ReportedStart(at: nat, marks: seq<Mark>, p: nat) returns (i: nat)
    requires p in Reported(at, marks)
    ensures i < |marks| && marks[i].reported && p == at + Start(marks, i)
    decreases |marks|
  {
    if marks[0].reported && p == at {
      i := 0;
    } else {
      i := ReportedStart(at + marks[0].size, marks[1..], p);
      i := i + 1;
    }
  }

  lemma {:induction false} ReportedNonDecreasing(at: nat, marks: seq<Mark>)
    ensures NonDecreasing(Reported(at, marks))
    ensures forall k :: 0 <= k < |Reported(at, marks)| ==> at <= Reported(at, marks)[k]
    decreases |marks|
  {
    if marks != [] {
      ReportedNonDecreasing(at + marks[0].size, marks[1..]);
    }
  }

  /** A mark to be reported starts on line `l`. */
  ghost predicate StartsOn(s: string, marks: seq<Mark>, l: nat) {
    exists i :: 0 <= i < |marks| && marks[i].reported && LineAt(s, Start(marks, i)) == l
  }

  lemma LinesNonDecreasing(s: string, starts: seq<nat>)
    requires NonDecreasing(starts)
    ensures NonDecreasing(Lines(s, starts))
  {
    var lines := Lines(s, starts);
    LinesPointwise(s, starts);
    forall i, j | 0 <= i < j < |lines| ensures lines[i] <= lines[j] {
      LineAtMonotone(s, starts[i], starts[j]);
    }
  }

  lemma LineIsMarked(s: string, marks: seq<Mark>, l: nat)
    requires l in Lines(s, Reported(0, marks))
    ensures StartsOn(s, marks, l)
  {
    var starts := Reported(0, marks);
    LinesPointwise(s, starts);
    var k :| 0 <= k < |starts| && Lines(s, starts)[k] == l;
    var i := ReportedStart(0, marks, starts[k]);
    assert LineAt(s, Start(marks, i)) == l;
  }

  lemma MarkHasLine(s: string, marks: seq<Mark>, i: nat)
    requires i < |marks| && marks[i].reported
    ensures LineAt(s, Start(marks, i)) in Lines(s, Reported(0, marks))
  {
    var starts := Reported(0, marks);
    LinesPointwise(s, starts);
    StartReported(0, marks, i);
    var k :| 0 <= k < |starts| && starts[k] == Start(marks, i);
    assert Lines(s, starts)[k] in Lines(s, starts);
  }

  lemma LinesOfMarks(s: string, marks: seq<Mark>)
    ensures Increasing(Dedup(Lines(s, Reported(0, marks))))
    ensures forall l :: l in Dedup(Lines(s, Reported(0, marks))) <==> StartsOn(s, marks, l)
  {
    var lines := Lines(s, Reported(0, marks));
    ReportedNonDecreasing(0, marks);
    LinesNonDecreasing(s, Reported(0, marks));
    DedupIncreasing(lines);
    forall l | l in lines ensures StartsOn(s, marks, l) {
      LineIsMarked(s, marks, l);
    }
    forall i | 0 <= i < |marks| && marks[i].reported ensures LineAt(s, Start(marks, i)) in lines {
      MarkHasLine(s, marks, i);
    }
  }

  /** On a source rendered from well-formed segments the reported lines are strictly increasing, and
      are exactly those on which a comment segment other than a licence header starts. */
  lemma RenderedLines(alphanumeric: char -> bool, s: string, segments: seq<Segment>)
    requires s == Render(segments) && AllWell(alphanumeric, s, 0, segments)
    ensures Increasing(CommentLines(alphanumeric, s))
    ensures forall l :: l in CommentLines(alphanumeric, s) <==> StartsOn(s, Marks(segments), l)
  {
    CommentRendering.RenderSpelling(s, 0, segments);
    CommentScan.ScanSegments(alphanumeric, s, 0, segments);
    LinesOfMarks(s, Marks(segments));
  }

  /** No source escapes the theorem above: each is the rendering of well-formed segments. */
  lemma SourceIsRendered(alphanumeric: char -> bool, s: string) returns (segments: seq<Segment>)
    ensures s == Render(segments) && AllWell(alphanumeric, s, 0, segments)
    ensures Increasing(CommentLines(alphanumeric, s))
    ensures forall l :: l in CommentLines(alphanumeric, s) <==> StartsOn(s, Marks(segments), l)
  {
    segments := CommentCoverage.EverySourceHasSegments(alphanumeric, s, 0);
    CommentRendering.RenderSpelling(s, 0, segments);
    RenderLength(alphanumeric, s, 0, segments);
    assert s == Render(segments) by {
      forall k | 0 <= k < |s| ensures s[k] == Render(segments)[k] {
        assert s[0 + k] == Render(segments)[k];
      }
    }
    RenderedLines(alphanumeric, s, segments);
  }

  lemma {:induction false} RenderLength(alphanumeric: char -> bool, s: string, at: nat, segments: seq<Segment>)
    requires AllWell(alphanumeric, s, at, segments)
    ensures at + |Render(segments)| == |s|
    decreases |segments|
  {
    if segments != [] {
      SegmentLength(segments[0]);
      RenderLength(alphanumeric, s, at + Size(segments[0]), segments[1..]);
    }
  }

  lemma SegmentLength(segment: Segment)
    ensures |RenderSegment(segment)| == Size(segment)
  {
    CommentRendering.SegmentSpelling("", (i: nat, p: string) => StartsAt("", i, p), 0, segment);
  }
}
