/** The comment test for configuration lines of `xtask/src/comments.rs`, `comment_at`: a `#` opens a comment
  outside of quotes, at the start of a line or after white space.
  */
module ConfigComments {

  import opened Characters

  datatype State = Outside | Inside(open: char) | Escaped

  function Next(state: State, c: char): State {
    match state
    case Outside => if IsQuote(c) then Inside(c) else Outside
    case Inside(open) =>
      if c == '\\' && open == '"' then Escaped
      else if c == open then Outside
      else state
    case Escaped => Inside('"')
  }

  function After(state: State, s: string): State {
    if s == "" then state else Next(After(state, s[..|s| - 1]), s[|s| - 1])
  }

  predicate SpacedAt(line: string, i: nat)
    requires i <= |line|
  {
    i == 0 || IsSpace(line[i - 1])
  }

  predicate OpensAt(line: string, i: nat) {
    i < |line| && line[i] == '#' && SpacedAt(line, i) && After(Outside, line[..i]) == Outside
  }

  /** The scan of one line with its three variables. */
  method ScanLine(line: string) returns (found: bool)
    ensures found <==> exists i :: OpensAt(line, i)
  {
    var quote: char, quoted, escaped, spaced := '"', false, false, true;
    for i := 0 to |line|
      invariant forall j :: 0 <= j < i ==> !OpensAt(line, j)
      invariant spaced == SpacedAt(line, i)
      invariant After(Outside, line[..i]) == if escaped then Escaped else if quoted then Inside(quote) else Outside
      invariant escaped ==> quoted && quote == '"'
    {
      var character := line[i];
      assert line[..i + 1][..i] == line[..i];
      if quoted {
        if escaped {
          escaped := false;
        } else if character == '\\' && quote == '"' {
          escaped := true;
        } else if character == quote {
          quoted := false;
        }
      } else if IsQuote(character) {
        quote, quoted := character, true;
      } else if character == '#' && spaced {
        assert OpensAt(line, i);
        return true;
      }
      spaced := IsSpace(character);
    }
    return false;
  }

  // ---------------------------------------------------------------- what stands before a comment

  /** A character of a double-quoted text: itself, or any character after a backslash. */
  datatype Item = Letter(c: char) | Escape(c: char)

  datatype Piece = Plain(c: char) | Single(text: string) | Double(items: seq<Item>)

  predicate AllLetters(items: seq<Item>) {
    forall i :: 0 <= i < |items| ==> items[i].Letter? ==> items[i].c != '"' && items[i].c != '\\'
  }

  predicate Well(piece: Piece) {
    match piece
    case Plain(c) => !IsQuote(c)
    case Single(text) => '\'' !in text
    case Double(items) => AllLetters(items)
  }

  predicate AllWell(pieces: seq<Piece>) {
    forall i :: 0 <= i < |pieces| ==> Well(pieces[i])
  }

  function ItemText(item: Item): string {
    match item
    case Letter(c) => [c]
    case Escape(c) => ['\\', c]
  }

  function ItemsText(items: seq<Item>): string {
    if items == [] then "" else ItemsText(items[..|items| - 1]) + ItemText(items[|items| - 1])
  }

  function PieceText(piece: Piece): string {
    match piece
    case Plain(c) => [c]
    case Single(text) => ['\''] + text + ['\'']
    case Double(items) => ['"'] + ItemsText(items) + ['"']
  }

  function Text(pieces: seq<Piece>): string {
    if pieces == [] then "" else Text(pieces[..|pieces| - 1]) + PieceText(pieces[|pieces| - 1])
  }

  /** The text is made of unquoted characters and of closed quotations. */
  ghost predicate Closed(s: string) {
    exists pieces :: AllWell(pieces) && Text(pieces) == s
  }

  lemma {:induction false} AfterConcat(state: State, a: string, b: string)
    ensures After(state, a + b) == After(After(state, a), b)
    decreases |b|
  {
    if b == "" {
      assert a + b == a;
    } else {
      assert (a + b)[..|a + b| - 1] == a + b[..|b| - 1];
      AfterConcat(state, a, b[..|b| - 1]);
    }
  }

  lemma AfterOne(state: State, c: char)
    ensures After(state, [c]) == Next(state, c)
  {
    assert [c][..0] == "";
    assert After(state, "") == state;
  }

  lemma {:induction false} TextStays(text: string)
    requires '\'' !in text
    ensures After(Inside('\''), text) == Inside('\'')
    decreases |text|
  {
    if text != "" {
      TextStays(text[..|text| - 1]);
    }
  }

  lemma {:induction false} ItemsStay(items: seq<Item>)
    requires AllLetters(items)
    ensures After(Inside('"'), ItemsText(items)) == Inside('"')
  {
    if items != [] {
      var front, last := items[..|items| - 1], items[|items| - 1];
      ItemsStay(front);
      AfterConcat(Inside('"'), ItemsText(front), ItemText(last));
      match last
      case Letter(c) => AfterOne(Inside('"'), c);
      case Escape(c) =>
        assert ItemText(last) == ['\\'] + [c];
        AfterConcat(Inside('"'), ['\\'], [c]);
        AfterOne(Inside('"'), '\\');
        AfterOne(Escaped, c);
    }
  }

  lemma QuotedStays(quote: char, text: string)
    requires IsQuote(quote) && After(Inside(quote), text) == Inside(quote)
    ensures After(Outside, [quote] + text + [quote]) == Outside
  {
    AfterOne(Outside, quote);
    AfterConcat(Outside, [quote], text);
    AfterConcat(Outside, [quote] + text, [quote]);
    AfterOne(Inside(quote), quote);
  }

  lemma {:induction false} PiecesStay(pieces: seq<Piece>)
    requires AllWell(pieces)
    ensures After(Outside, Text(pieces)) == Outside
  {
    if pieces != [] {
      var front, last := pieces[..|pieces| - 1], pieces[|pieces| - 1];
      PiecesStay(front);
      AfterConcat(Outside, Text(front), PieceText(last));
      match last
      case Plain(c) => AfterOne(Outside, c);
      case Single(text) =>
        TextStays(text);
        QuotedStays('\'', text);
      case Double(items) =>
        ItemsStay(items);
        QuotedStays('"', ItemsText(items));
    }
  }

  /** How a text reads up to the quotation that is still open: the pieces before it and what it holds. */
  datatype Reading = Reading(pieces: seq<Piece>, text: string, items: seq<Item>)

  predicate IsReading(s: string, state: State, r: Reading) {
    && AllWell(r.pieces)
    && match state
      case Outside => s == Text(r.pieces)
      case Inside(open) =>
        if open == '"' then AllLetters(r.items) && s == Text(r.pieces) + (['"'] + ItemsText(r.items))
        else open == '\'' && '\'' !in r.text && s == Text(r.pieces) + (['\''] + r.text)
      case Escaped => AllLetters(r.items) && s == Text(r.pieces) + (['"'] + ItemsText(r.items) + ['\\'])
  }

  lemma NextOutside(s: string, r: Reading, c: char) returns (n: Reading)
    requires IsReading(s, Outside, r)
    ensures IsReading(s + [c], Next(Outside, c), n)
  {
    if IsQuote(c) {
      n := Reading(r.pieces, "", []);
    } else {
      n := Reading(r.pieces + [Plain(c)], "", []);
    }
  }

  lemma NextSingle(s: string, r: Reading, c: char) returns (n: Reading)
    requires IsReading(s, Inside('\''), r)
    ensures IsReading(s + [c], Next(Inside('\''), c), n)
  {
    if c == '\'' {
      n := Reading(r.pieces + [Single(r.text)], "", []);
      assert s + [c] == Text(r.pieces) + (['\''] + r.text + ['\'']);
    } else {
      n := Reading(r.pieces, r.text + [c], []);
      assert s + [c] == Text(r.pieces) + (['\''] + (r.text + [c]));
    }
  }

  lemma NextDouble(s: string, r: Reading, c: char) returns (n: Reading)
    requires IsReading(s, Inside('"'), r)
    ensures IsReading(s + [c], Next(Inside('"'), c), n)
  {
    if c == '"' {
      n := Reading(r.pieces + [Double(r.items)], "", []);
      assert s + [c] == Text(r.pieces) + (['"'] + ItemsText(r.items) + ['"']);
    } else if c == '\\' {
      n := r;
      assert s + [c] == Text(r.pieces) + (['"'] + ItemsText(r.items) + ['\\']);
    } else {
      n := Reading(r.pieces, "", r.items + [Letter(c)]);
      assert s + [c] == Text(r.pieces) + (['"'] + (ItemsText(r.items) + [c]));
    }
  }

  lemma NextEscaped(s: string, r: Reading, c: char) returns (n: Reading)
    requires IsReading(s, Escaped, r)
    ensures IsReading(s + [c], Next(Escaped, c), n)
  {
    n := Reading(r.pieces, "", r.items + [Escape(c)]);
    assert s + [c] == Text(r.pieces) + (['"'] + (ItemsText(r.items) + ['\\', c]));
  }

  lemma NextReading(s: string, r: Reading, c: char) returns (r': Reading)
    requires IsReading(s, After(Outside, s), r)
    ensures IsReading(s + [c], After(Outside, s + [c]), r')
  {
    match After(Outside, s)
    case Outside => r' := NextOutside(s, r, c);
    case Inside(open) =>
      if open == '"' {
        r' := NextDouble(s, r, c);
      } else {
        r' := NextSingle(s, r, c);
      }
    case Escaped => r' := NextEscaped(s, r, c);
  }

  lemma EmptyReading() returns (r: Reading)
    ensures IsReading("", After(Outside, ""), r)
  {
    r := Reading([], "", []);
  }

  /** Every text is read in one way, whatever quotation it leaves open. */
  lemma {:induction false} EveryTextReads(s: string) returns (r: Reading)
    ensures IsReading(s, After(Outside, s), r)
    decreases |s|
  {
    if s == "" {
      r := EmptyReading();
    } else {
      var front, c := s[..|s| - 1], s[|s| - 1];
      assert s == front + [c];
      r := EveryTextReads(front);
      r := NextReading(front, r, c);
    }
  }

  lemma OutsideExactly(s: string)
    ensures After(Outside, s) == Outside <==> Closed(s)
  {
    var r := EveryTextReads(s);
    if After(Outside, s) == Outside {
      assert AllWell(r.pieces) && Text(r.pieces) == s;
    }
    if Closed(s) {
      var pieces :| AllWell(pieces) && Text(pieces) == s;
      PiecesStay(pieces);
    }
  }

  ghost predicate CommentAt(line: string, i: nat) {
    i < |line| && line[i] == '#' && SpacedAt(line, i) && Closed(line[..i])
  }

  /** Whether a line has a comment: a `#` at its start or after white space, with every quotation before it
      closed. */
  method HasComment(line: string) returns (found: bool)
    ensures found <==> exists i :: CommentAt(line, i)
  {
    forall i | 0 <= i < |line| ensures OpensAt(line, i) <==> CommentAt(line, i) {
      OutsideExactly(line[..i]);
    }
    found := ScanLine(line);
    assert forall i :: OpensAt(line, i) <==> CommentAt(line, i);
  }
}
