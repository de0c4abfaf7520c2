/** The Rust comment scanner of `xtask/src/comments.rs`.

  `Lexer` is the mutable scanner. `Scan` says at which character positions it reports a
  comment; `Segment` is an independent grammar of Rust source text, and the main theorem
  says that on any text rendered from segments the scanner reports the comment segments.
  */
module Comments {

  import opened Wrappers

  const LICENSE := "// SPDX-"

  datatype Mode = Code | Text | Raw(hashes: nat) | Line | Block(depth: nat)

  // ---------------------------------------------------------------- text positions

  predicate At(s: string, i: nat, c: char) {
    i < |s| && s[i] == c
  }

  predicate StartsAt(s: string, i: nat, p: string) {
    i + |p| <= |s| && forall k :: 0 <= k < |p| ==> s[i + k] == p[k]
  }

  /** The line, counted from one, that holds position `i`. */
  function LineAt(s: string, i: nat): nat {
    if i == 0 then 1 else LineAt(s, i - 1) + if At(s, i - 1, '\n') then 1 else 0
  }

  /** The two characters before position `i`, with blanks before the start. */
  function Before(s: string, i: nat): (char, char)
    requires i <= |s|
  {
    (if i > 1 then s[i - 2] else ' ', if i > 0 then s[i - 1] else ' ')
  }

  predicate Identifier(alphanumeric: char -> bool, c: char) {
    alphanumeric(c) || c == '_'
  }

  predicate RawBoundary(alphanumeric: char -> bool, previous: (char, char)) {
    || !Identifier(alphanumeric, previous.1)
    || ((previous.1 == 'b' || previous.1 == 'c') && !Identifier(alphanumeric, previous.0))
  }

  predicate AllHashes(s: string, i: nat, n: nat) {
    i + n <= |s| && forall k :: i <= k < i + n ==> s[k] == '#'
  }

  function CountHashes(s: string, i: nat): (n: nat)
    requires i <= |s|
    ensures i + n <= |s|
    decreases |s| - i
  {
    if At(s, i, '#') then 1 + CountHashes(s, i + 1) else 0
  }

  function RawHashes(s: string, at: nat): (h: Option<nat>)
    ensures h.Some? ==> at + 2 + h.value <= |s|
  {
    if !At(s, at, 'r') then None else
    var n := CountHashes(s, at + 1);
    if At(s, at + 1 + n, '"') then Some(n) else None
  }

  lemma {:induction false} CountHashesCounts(s: string, i: nat)
    requires i <= |s|
    ensures var n := CountHashes(s, i); AllHashes(s, i, n) && !At(s, i + n, '#')
    decreases |s| - i
  {
    if At(s, i, '#') {
      CountHashesCounts(s, i + 1);
    }
  }

  /** `RawHashes` finds the one way, if any, in which a raw literal is spelled at `at`. */
  lemma RawHashesFinds(s: string, at: nat, n: nat)
    ensures RawOpens(s, at, n) <==> RawHashes(s, at) == Some(n)
  {
    if At(s, at, 'r') {
      CountHashesCounts(s, at + 1);
    }
  }

  /** A raw literal with `n` hashes is spelled at `at`. */
  predicate RawOpens(s: string, at: nat, n: nat) {
    At(s, at, 'r') && AllHashes(s, at + 1, n) && At(s, at + 1 + n, '"')
  }

  predicate RawCloses(s: string, at: nat, n: nat) {
    At(s, at, '"') && AllHashes(s, at + 1, n)
  }

  predicate CharOpens(s: string, at: nat) {
    At(s, at, '\'') && (At(s, at + 1, '\\') || (at + 1 < |s| && At(s, at + 2, '\'')))
  }

  predicate CommentOpens(s: string, at: nat) {
    At(s, at, '/') && (At(s, at + 1, '/') || At(s, at + 1, '*'))
  }

  function Min(a: nat, b: nat): nat { if a < b then a else b }

  // ---------------------------------------------------------------- what one turn does

  /** The position after the quoted character literal whose inside starts at `at`. */
  function CharEnd(s: string, at: nat): (end: nat)
    requires at <= |s|
    ensures at <= end <= |s|
    decreases |s| - at
  {
    if at == |s| then at
    else if s[at] == '\\' then CharEnd(s, Min(at + 2, |s|))
    else if s[at] == '\'' then at + 1
    else CharEnd(s, at + 1)
  }

  function TextEnd(s: string, at: nat): (end: nat)
    requires at <= |s|
    ensures at <= end <= |s|
    decreases |s| - at
  {
    if at == |s| then at
    else if s[at] == '\\' then TextEnd(s, Min(at + 2, |s|))
    else if s[at] == '"' then at + 1
    else TextEnd(s, at + 1)
  }

  function RawEnd(s: string, at: nat, hashes: nat): (end: nat)
    requires at <= |s|
    ensures at <= end <= |s|
    decreases |s| - at
  {
    if at == |s| then at
    else if RawCloses(s, at, hashes) then at + 1 + hashes
    else RawEnd(s, at + 1, hashes)
  }

  function LineEnd(s: string, at: nat): (end: nat)
    requires at <= |s|
    ensures at <= end <= |s|
    decreases |s| - at
  {
    if at == |s| then at else if s[at] == '\n' then at + 1 else LineEnd(s, at + 1)
  }

  /** The position after the `depth` block comments that are open at `at`. */
  function BlockEnd(s: string, at: nat, depth: nat): (end: nat)
    requires at <= |s|
    ensures at <= end <= |s|
    decreases |s| - at
  {
    if at == |s| || depth == 0 then at
    else if At(s, at, '/') && At(s, at + 1, '*') then BlockEnd(s, at + 2, depth + 1)
    else if At(s, at, '*') && At(s, at + 1, '/') then BlockEnd(s, at + 2, depth - 1)
    else BlockEnd(s, at + 1, depth)
  }

  /** Where a scanner standing at `at` in `mode` is back in code. */
  function Resume(s: string, at: nat, mode: Mode): (end: nat)
    requires at <= |s|
    ensures at <= end <= |s|
  {
    match mode
    case Code => at
    case Text => TextEnd(s, at)
    case Raw(n) => RawEnd(s, at, n)
    case Line => LineEnd(s, at)
    case Block(depth) => BlockEnd(s, at, depth)
  }

  /** One turn in code: where it stops, in which mode, and whether it reports a comment. */
  datatype Move = Move(to: nat, mode: Mode, reports: bool)

  function CodeMove(alphanumeric: char -> bool, s: string, at: nat): (m: Move)
    requires at < |s|
    ensures at < m.to <= |s|
  {
    if At(s, at, '/') && At(s, at + 1, '/') then Move(at + 1, Line, !StartsAt(s, at, LICENSE))
    else if At(s, at, '/') && At(s, at + 1, '*') then Move(at + 2, Block(1), true)
    else if s[at] == '"' then Move(at + 1, Text, false)
    else if CharOpens(s, at) then Move(CharEnd(s, at + 1), Code, false)
    else
      var h := if RawBoundary(alphanumeric, Before(s, at)) then RawHashes(s, at) else None;
      if h.Some? then Move(at + 2 + h.value, Raw(h.value), false) else Move(at + 1, Code, false)
  }

  function Note(noted: bool, x: nat, rest: seq<nat>): seq<nat> {
    if noted then [x] + rest else rest
  }

  /** The positions of the comments reported by a scanner that is in code at `at`. */
  function Scan(alphanumeric: char -> bool, s: string, at: nat): seq<nat>
    requires at <= |s|
    decreases |s| - at
  {
    if at == |s| then [] else
    var m := CodeMove(alphanumeric, s, at);
    Note(m.reports, at, Scan(alphanumeric, s, Resume(s, m.to, m.mode)))
  }

  function Lines(s: string, opens: seq<nat>): seq<nat> {
    if opens == [] then [] else [LineAt(s, opens[0])] + Lines(s, opens[1..])
  }

  /** Drops every element equal to the one before it. */
  function Dedup(xs: seq<nat>): (ys: seq<nat>)
    ensures forall x :: x in xs <==> x in ys
    ensures xs != [] ==> ys != [] && ys[0] == xs[0]
  {
    if |xs| < 2 then xs
    else if xs[0] == xs[1] then Dedup(xs[1..])
    else [xs[0]] + Dedup(xs[1..])
  }

  function CommentLines(alphanumeric: char -> bool, s: string): seq<nat> {
    Dedup(Lines(s, Scan(alphanumeric, s, 0)))
  }

  // ---------------------------------------------------------------- the scanner itself

  class Lexer {
    const source: string
    const alphanumeric: char -> bool
    var at: nat
    var line: nat
    var previous: (char, char)
    var mode: Mode
    var found: seq<nat>

    ghost predicate Valid()
      reads this
    {
      && at <= |source|
      && line == LineAt(source, at)
      && previous == Before(source, at)
      && (mode.Block? ==> mode.depth > 0)
    }

    constructor (source: string, alphanumeric: char -> bool)
      ensures Valid() && this.source == source && this.alphanumeric == alphanumeric
      ensures at == 0 && mode == Code && found == []
    {
      this.source, this.alphanumeric := source, alphanumeric;
      at, line, previous, mode, found := 0, 1, (' ', ' '), Code, [];
    }

    method Advance() returns (c: Option<char>)
      requires Valid()
      modifies this`at, this`line, this`previous
      ensures Valid()
      ensures at == Min(old(at) + 1, |source|)
      ensures c == if old(at) < |source| then Some(source[old(at)]) else None
    {
      if at == |source| {
        return None;
      }
      var character := source[at];
      if character == '\n' {
        line := line + 1;
      }
      previous := (previous.1, character);
      at := at + 1;
      return Some(character);
    }

    method Skip(count: nat)
      requires Valid()
      modifies this`at, this`line, this`previous
      ensures Valid()
      ensures at == Min(old(at) + count, |source|)
    {
      for i := 0 to count
        invariant Valid()
        invariant at == Min(old(at) + i, |source|)
      {
        var _ := Advance();
      }
    }

    method CodeTurn()
      requires Valid() && mode == Code && at < |source|
      modifies this
      ensures Valid()
      ensures var m := CodeMove(alphanumeric, source, old(at));
        && at == m.to && mode == m.mode
        && found == (if m.reports then old(found) + [LineAt(source, old(at))] else old(found))
    {
      var character := source[at];
      if At(source, at, '/') && At(source, at + 1, '/') {
        if !StartsAt(source, at, LICENSE) {
          found := found + [line];
        }
        mode := Line;
      } else if At(source, at, '/') && At(source, at + 1, '*') {
        found := found + [line];
        Skip(1);
        mode := Block(1);
      } else if character == '"' {
        mode := Text;
      } else if CharOpens(source, at) {
        Skip(1);
        CharTail();
        return;
      } else if character == 'r' && RawBoundary(alphanumeric, previous) {
        var hashes := RawHashes(source, at);
        if hashes.Some? {
          Skip(hashes.value + 1);
          mode := Raw(hashes.value);
        }
      }
      Skip(1);
    }

    method CharTail()
      requires Valid()
      modifies this`at, this`line, this`previous
      ensures Valid() && at == CharEnd(source, old(at))
    {
      while at < |source|
        invariant Valid()
        invariant CharEnd(source, at) == CharEnd(source, old(at))
        decreases |source| - at
      {
        var inner := Advance();
        if inner == Some('\\') {
          Skip(1);
        } else if inner == Some('\'') {
          return;
        }
      }
    }

    method TextTurn()
      requires Valid() && mode == Text && at < |source|
      modifies this
      ensures Valid() && at > old(at) && found == old(found)
      ensures Resume(source, at, mode) == Resume(source, old(at), old(mode))
    {
      var character := source[at];
      Skip(1);
      if character == '\\' {
        Skip(1);
      } else if character == '"' {
        mode := Code;
      }
    }

    method RawTurn()
      requires Valid() && mode.Raw? && at < |source|
      modifies this
      ensures Valid() && at > old(at) && found == old(found)
      ensures Resume(source, at, mode) == Resume(source, old(at), old(mode))
    {
      var character, hashes := source[at], mode.hashes;
      Skip(1);
      // The source counts the hashes among the next `hashes` characters and asks for all of them.
      if character == '"' && AllHashes(source, at, hashes) {
        Skip(hashes);
        mode := Code;
      }
    }

    method BlockTurn()
      requires Valid() && mode.Block? && at < |source|
      modifies this
      ensures Valid() && at > old(at) && found == old(found)
      ensures Resume(source, at, mode) == Resume(source, old(at), old(mode))
    {
      var character, depth := source[at], mode.depth;
      Skip(1);
      if character == '/' && At(source, at, '*') {
        Skip(1);
        mode := Block(depth + 1);
      } else if character == '*' && At(source, at, '/') {
        Skip(1);
        mode := if depth - 1 == 0 then Code else Block(depth - 1);
        assert BlockEnd(source, at, depth - 1) == Resume(source, at, mode);
      }
    }

    method LineTurn()
      requires Valid() && mode == Line && at < |source|
      modifies this
      ensures Valid() && at > old(at) && found == old(found)
      ensures Resume(source, at, mode) == Resume(source, old(at), old(mode))
    {
      if source[at] == '\n' {
        mode := Code;
      }
      Skip(1);
    }

    /** The lines still to be reported. */
    ghost function Ahead(): seq<nat>
      requires Valid()
      reads this
    {
      Lines(source, Scan(alphanumeric, source, Resume(source, at, mode)))
    }

    /** Looks at one character, and at what it starts or ends. */
    method Turn()
      requires Valid() && at < |source|
      modifies this
      ensures Valid() && at > old(at)
      ensures found + Ahead() == old(found + Ahead())
    {
      match mode {
        case Code =>
          ghost var m, here := CodeMove(alphanumeric, source, at), LineAt(source, at);
          CodeTurn();
          assert old(Ahead()) == Note(m.reports, here, Ahead());
          if m.reports {
            assert found + Ahead() == old(found) + ([here] + Ahead());
          }
        case Text => TextTurn();
        case Raw(_) => RawTurn();
        case Line => LineTurn();
        case Block(_) => BlockTurn();
      }
    }

    /** Scans to the end of the source. */
    method Run() returns (lines: seq<nat>)
      requires Valid()
      modifies this
      ensures Valid() && at == |source|
      ensures lines == Dedup(old(found + Ahead()))
    {
      ghost var all := found + Ahead();
      while at < |source|
        invariant Valid()
        invariant all == found + Ahead()
        decreases |source| - at
      {
        Turn();
      }
      assert Ahead() == [];
      assert found + [] == found;
      lines := Dedup(found);
    }
  }

  method InRust(source: string, alphanumeric: char -> bool) returns (lines: seq<nat>)
    ensures lines == CommentLines(alphanumeric, source)
  {
    var lexer := new Lexer(source, alphanumeric);
    assert [] + lexer.Ahead() == lexer.Ahead();
    lines := lexer.Run();
  }
}
