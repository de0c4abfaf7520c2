/** The protected command line of `xtask/src/release.rs`, `security_input`: arguments quoted into one
  line that the `security` tool reads from its input.
  */
module SecurityInput {

  import opened Wrappers

  type Byte = b: int | 0 <= b < 256

  const NUL: Byte := 0
  const NEWLINE: Byte := 10
  const RETURN: Byte := 13
  const SPACE: Byte := 32
  const QUOTE: Byte := 34
  const BACKSLASH: Byte := 92

  const MAX_ARGUMENTS := 31
  const MAX_LINE := 4094

  datatype Refusal = Token | Arguments | Length

  predicate ValidToken(value: seq<Byte>) {
    forall i :: 0 <= i < |value| ==> value[i] != NUL && value[i] != NEWLINE && value[i] != RETURN
  }

  /** The bytes of an argument with a backslash before each quote and backslash. */
  function Escaped(value: seq<Byte>): seq<Byte> {
    if value == [] then [] else
    var front, last := Escaped(value[..|value| - 1]), value[|value| - 1];
    if last == BACKSLASH || last == QUOTE then front + [BACKSLASH, last] else front + [last]
  }

  function Quoted(value: seq<Byte>): seq<Byte> {
    [QUOTE] + Escaped(value) + [QUOTE]
  }

  /** The quoted arguments, separated by single spaces. */
  function Line(args: seq<seq<Byte>>): seq<Byte> {
    if args == [] then []
    else if |args| == 1 then Quoted(args[0])
    else Line(args[..|args| - 1]) + [SPACE] + Quoted(args[|args| - 1])
  }

  predicate AllValid(args: seq<seq<Byte>>) {
    forall i :: 0 <= i < |args| ==> ValidToken(args[i])
  }

  method SecurityInput(args: seq<seq<Byte>>) returns (r: Result<seq<Byte>, Refusal>)
    ensures r.Ok? <==> |args| <= MAX_ARGUMENTS && AllValid(args) && |Line(args)| <= MAX_LINE
    ensures r.Ok? ==> r.value == Line(args) + [NEWLINE]
  {
    if |args| > MAX_ARGUMENTS {
      return Err(Arguments);
    }
    var line: seq<Byte> := [];
    for index := 0 to |args|
      invariant AllValid(args[..index]) && line == Line(args[..index])
    {
      var value := args[index];
      LineGrows(args, index);
      if !ValidToken(value) {
        return Err(Token);
      }
      if index != 0 {
        line := line + [SPACE];
      }
      line := AppendQuoted(line, value);
    }
    assert args[..|args|] == args;
    if |line| > MAX_LINE {
      return Err(Length);
    }
    return Ok(line + [NEWLINE]);
  }

  /** The loop over the bytes of one argument. */
  method AppendQuoted(line: seq<Byte>, value: seq<Byte>) returns (longer: seq<Byte>)
    ensures longer == line + Quoted(value)
  {
    var quoted := [QUOTE];
    for i := 0 to |value|
      invariant quoted == [QUOTE] + Escaped(value[..i])
    {
      assert value[..i + 1][..i] == value[..i];
      if value[i] == BACKSLASH || value[i] == QUOTE {
        quoted := quoted + [BACKSLASH];
      }
      quoted := quoted + [value[i]];
    }
    assert value[..|value|] == value;
    longer := line + (quoted + [QUOTE]);
  }

  lemma LineGrows(args: seq<seq<Byte>>, n: nat)
    requires n < |args|
    ensures Line(args[..n + 1]) == (if n == 0 then [] else Line(args[..n]) + [SPACE]) + Quoted(args[n])
    ensures AllValid(args[..n + 1]) <==> AllValid(args[..n]) && ValidToken(args[n])
  {
    assert args[..n + 1][..n] == args[..n] && args[..n + 1] == args[..n] + [args[n]];
  }

  // ---------------------------------------------------------------- the reader

  /** Reads the rest of a quoted word: what it holds, and what follows its closing quote. */
  function ReadWord(s: seq<Byte>): Option<(seq<Byte>, seq<Byte>)> {
    if s == [] then None
    else if s[0] == QUOTE then Some(([], s[1..]))
    else
      var escape := s[0] == BACKSLASH;
      if escape && |s| < 2 then None else
      match ReadWord(if escape then s[2..] else s[1..])
      case None => None
      case Some((word, rest)) => Some(([if escape then s[1] else s[0]] + word, rest))
  }

  lemma ReadWordShrinks(s: seq<Byte>)
    ensures ReadWord(s).Some? ==> |ReadWord(s).value.1| < |s|
  {
  }

  /** Reads quoted words separated by single spaces. */
  function ReadWords(s: seq<Byte>): Option<seq<seq<Byte>>>
    decreases |s|
  {
    if s == [] || s[0] != QUOTE then None else
    match ReadWord(s[1..])
    case None => None
    case Some((word, rest)) =>
      ReadWordShrinks(s[1..]);
      if rest == [] then Some([word])
      else if rest[0] != SPACE then None
      else match ReadWords(rest[1..])
        case None => None
        case Some(words) => Some([word] + words)
  }

  /** The arguments of a line; the empty line has none. */
  function ReadLine(s: seq<Byte>): Option<seq<seq<Byte>>> {
    if s == [] then Some([]) else ReadWords(s)
  }

  lemma {:induction false} EscapedCons(first: Byte, rest: seq<Byte>)
    ensures Escaped([first] + rest) == Escaped([first]) + Escaped(rest)
    decreases |rest|
  {
    var all := [first] + rest;
    if rest == [] {
      assert all == [first];
    } else {
      var front, last := rest[..|rest| - 1], rest[|rest| - 1];
      assert all[..|all| - 1] == [first] + front && all[|all| - 1] == last;
      EscapedCons(first, front);
    }
  }

  lemma EscapedOne(c: Byte)
    ensures Escaped([c]) == if c == BACKSLASH || c == QUOTE then [BACKSLASH, c] else [c]
  {
    assert [c][..0] == [];
  }

  /** How the reader takes one character of a word. */
  lemma CharacterIsRead(c: Byte, tail: seq<Byte>, word: seq<Byte>, after: seq<Byte>)
    requires ReadWord(tail) == Some((word, after))
    ensures var escaped := if c == BACKSLASH || c == QUOTE then [BACKSLASH, c] else [c];
      ReadWord(escaped + tail) == Some(([c] + word, after))
  {
    if c == BACKSLASH || c == QUOTE {
      var text := [BACKSLASH, c] + tail;
      assert text[0] == BACKSLASH && text[1] == c && text[2..] == tail;
    } else {
      var text := [c] + tail;
      assert text[0] == c && text[1..] == tail;
    }
  }

  lemma QuoteIsRead(after: seq<Byte>)
    ensures ReadWord([QUOTE] + after) == Some(([], after))
  {
    assert ([QUOTE] + after)[1..] == after;
  }

  lemma {:induction false} WordIsRead(value: seq<Byte>, after: seq<Byte>)
    ensures ReadWord(Escaped(value) + [QUOTE] + after) == Some((value, after))
    decreases |value|
  {
    if value == [] {
      assert [] + [QUOTE] + after == [QUOTE] + after;
      QuoteIsRead(after);
    } else {
      var first, rest := value[0], value[1..];
      assert value == [first] + rest;
      EscapedCons(first, rest);
      EscapedOne(first);
      WordIsRead(rest, after);
      CharacterIsRead(first, Escaped(rest) + [QUOTE] + after, rest, after);
      Regrouped(Escaped([first]), Escaped(rest), [QUOTE], after);
    }
  }

  lemma Regrouped(a: seq<Byte>, b: seq<Byte>, c: seq<Byte>, d: seq<Byte>)
    ensures (a + b) + c + d == a + (b + c + d)
  {
  }

  lemma {:induction false} LineCons(first: seq<Byte>, rest: seq<seq<Byte>>)
    requires rest != []
    ensures Line([first] + rest) == Quoted(first) + [SPACE] + Line(rest)
    decreases |rest|
  {
    var all := [first] + rest;
    var front, last := rest[..|rest| - 1], rest[|rest| - 1];
    assert all[..|all| - 1] == [first] + front && all[|all| - 1] == last;
    if front == [] {
      assert [first] + front == [first];
    } else {
      LineCons(first, front);
    }
  }

  /** A reader of quoted words gets back exactly the arguments, whatever they are. */
  lemma {:induction false} LineIsRead(args: seq<seq<Byte>>)
    ensures ReadLine(Line(args)) == Some(args)
  {
    if |args| == 1 {
      WordIsRead(args[0], []);
      WordsStart(args[0], []);
      assert Line(args) == [QUOTE] + (Escaped(args[0]) + [QUOTE] + []) && args == [args[0]];
    } else if |args| > 1 {
      LineIsRead(args[1..]);
      NextWordIsRead(args[0], args[1..]);
      assert args == [args[0]] + args[1..];
    }
  }

  lemma NextWordIsRead(first: seq<Byte>, rest: seq<seq<Byte>>)
    requires rest != [] && ReadLine(Line(rest)) == Some(rest)
    ensures ReadLine(Line([first] + rest)) == Some([first] + rest)
  {
    var line := Line(rest);
    LineCons(first, rest);
    WordIsRead(first, [SPACE] + line);
    WordsStart(first, [SPACE] + line);
    assert ([SPACE] + line)[1..] == line;
    LineSplits(Escaped(first), line);
    LineStarts(rest);
  }

  lemma LineSplits(escaped: seq<Byte>, line: seq<Byte>)
    ensures ([QUOTE] + escaped + [QUOTE]) + [SPACE] + line == [QUOTE] + (escaped + [QUOTE] + ([SPACE] + line))
  {
  }

  lemma LineStarts(args: seq<seq<Byte>>)
    requires args != []
    ensures Line(args) != []
  {
  }

  /** How the reader takes the first word of a line. */
  lemma WordsStart(first: seq<Byte>, after: seq<Byte>)
    requires ReadWord(Escaped(first) + [QUOTE] + after) == Some((first, after))
    ensures var line := [QUOTE] + (Escaped(first) + [QUOTE] + after);
      && (after == [] ==> ReadWords(line) == Some([first]))
      && (after != [] && after[0] == SPACE && ReadWords(after[1..]).Some? ==>
            ReadWords(line) == Some([first] + ReadWords(after[1..]).value))
  {
    var line := [QUOTE] + (Escaped(first) + [QUOTE] + after);
    assert line[1..] == Escaped(first) + [QUOTE] + after;
  }

  /** Different argument lists give different lines. */
  lemma LineIsInjective(a: seq<seq<Byte>>, b: seq<seq<Byte>>)
    requires Line(a) == Line(b)
    ensures a == b
  {
    LineIsRead(a);
    LineIsRead(b);
  }

  lemma {:induction false} EscapedIsValid(value: seq<Byte>)
    requires ValidToken(value)
    ensures ValidToken(Escaped(value))
  {
    if value != [] {
      EscapedIsValid(value[..|value| - 1]);
    }
  }

  lemma {:induction false} LineIsToken(args: seq<seq<Byte>>)
    requires AllValid(args)
    ensures ValidToken(Line(args))
  {
    if args != [] {
      EscapedIsValid(args[|args| - 1]);
      LineIsToken(args[..|args| - 1]);
    }
  }

  /** What is written of an accepted list is one bounded line: the newline that ends it is its only one, and
      it has no other control character that ends a line. */
  lemma LineIsOneLine(args: seq<seq<Byte>>, output: seq<Byte>)
    requires AllValid(args) && |Line(args)| <= MAX_LINE && output == Line(args) + [NEWLINE]
    ensures 0 < |output| <= 4095
    ensures forall i :: 0 <= i < |output| ==> (output[i] == NEWLINE <==> i == |output| - 1)
    ensures NUL !in output && RETURN !in output
  {
    LineIsToken(args);
    assert ValidToken(Line(args));
  }
}
