/** The reader of package metadata of `xtask/src/macos_package.rs`: a document is split at its tags, and
  the attributes of each wanted element are read from the text of its tag.
  */
module PackageXml {

  import opened Characters
  import opened Wrappers

  datatype Refusal =
    | Declarations | UnterminatedTag | NoEquals | BadName | NoQuote | Unquoted | UnterminatedValue | Duplicate
    | NotSingle

  type Values = map<string, string>

  // ---------------------------------------------------------------- characters

  predicate IsAsciiSpace(c: char) {
    c == ' ' || c == '\t' || c == '\n' || c == '\r' || c as int == 0x0c
  }

  predicate IsNameChar(c: char) {
    'a' <= c <= 'z' || 'A' <= c <= 'Z' || '0' <= c <= '9' || c == '-' || c == '_'
  }

  predicate AllSpace(s: string) {
    forall i :: 0 <= i < |s| ==> IsSpace(s[i])
  }

  predicate IsName(s: string) {
    s != "" && forall i :: 0 <= i < |s| ==> IsNameChar(s[i])
  }

  predicate StartsWithSpace(s: string) {
    s != "" && IsSpace(s[0])
  }

  predicate EndsWithSpace(s: string) {
    s != "" && IsSpace(s[|s| - 1])
  }

  function TrimStart(s: string): (r: string)
    ensures |r| <= |s| && !StartsWithSpace(r)
  {
    if StartsWithSpace(s) then TrimStart(s[1..]) else s
  }

  function TrimEnd(s: string): (r: string)
    ensures |r| <= |s| && !EndsWithSpace(r)
  {
    if EndsWithSpace(s) then TrimEnd(s[..|s| - 1]) else s
  }

  function Trim(s: string): string {
    TrimStart(TrimEnd(s))
  }

  /** The first place of a character, or the length of the text. */
  function Find(s: string, c: char): (r: nat)
    ensures r <= |s| && c !in s[..r] && (r < |s| ==> s[r] == c)
  {
    if s == "" || s[0] == c then 0 else
    var r := Find(s[1..], c);
    assert s[..1 + r] == [s[0]] + s[1..][..r];
    1 + r
  }

  lemma {:induction false} FindFirst(before: string, c: char, after: string)
    requires c !in before
    ensures Find(before + [c] + after, c) == |before|
  {
    if before != "" {
      assert (before + [c] + after)[1..] == before[1..] + [c] + after;
      FindFirst(before[1..], c, after);
    }
  }

  lemma FindNone(s: string, c: char)
    requires c !in s
    ensures Find(s, c) == |s|
  {
  }

  lemma {:induction false} TrimStartDrops(space: string, s: string)
    requires AllSpace(space) && !StartsWithSpace(s)
    ensures TrimStart(space + s) == s
  {
    if space == "" {
      assert space + s == s;
    } else {
      assert (space + s)[1..] == space[1..] + s;
      TrimStartDrops(space[1..], s);
    }
  }

  lemma {:induction false} TrimEndDrops(s: string, space: string)
    requires AllSpace(space) && !EndsWithSpace(s)
    ensures TrimEnd(s + space) == s
    decreases |space|
  {
    if space == "" {
      assert s + space == s;
    } else {
      assert (s + space)[..|s + space| - 1] == s + space[..|space| - 1];
      TrimEndDrops(s, space[..|space| - 1]);
    }
  }

  lemma {:induction false} TrimStartSplits(s: string) returns (space: string)
    ensures AllSpace(space) && s == space + TrimStart(s)
  {
    space := "";
    if StartsWithSpace(s) {
      var more := TrimStartSplits(s[1..]);
      space := [s[0]] + more;
      Prefixed(s, more, TrimStart(s[1..]));
    }
  }

  lemma Prefixed(s: string, more: string, rest: string)
    requires s != "" && s[1..] == more + rest
    ensures s == ([s[0]] + more) + rest
  {
    assert s == [s[0]] + s[1..];
  }

  lemma {:induction false} TrimEndSplits(s: string) returns (space: string)
    ensures AllSpace(space) && s == TrimEnd(s) + space
  {
    space := "";
    if EndsWithSpace(s) {
      var more := TrimEndSplits(s[..|s| - 1]);
      space := more + [s[|s| - 1]];
    }
  }

  lemma NameHasNoSpace(name: string)
    requires IsName(name)
    ensures !StartsWithSpace(name) && !EndsWithSpace(name)
  {
  }

  // ---------------------------------------------------------------- one attribute

  datatype Item = Item(name: string, value: string, rest: string)

  datatype Quoted = Quoted(value: string, rest: string)

  /** The quoted value that a text begins with, after any space. */
  function ReadValue(text: string): (r: Result<Quoted, Refusal>)
    ensures r.Ok? ==> |r.value.rest| < |text|
  {
    var next := TrimStart(text);
    if next == "" then Err(NoQuote)
    else if !IsQuote(next[0]) then Err(Unquoted) else
    var close := Find(next[1..], next[0]);
    if close == |next| - 1 then Err(UnterminatedValue)
    else Ok(Quoted(next[1..][..close], next[1..][close + 1..]))
  }

  /** The attribute that a text begins with, and the text after it. */
  function Step(remaining: string): (r: Result<Item, Refusal>)
    ensures r.Ok? ==> |r.value.rest| < |remaining|
  {
    var equals := Find(remaining, '=');
    if equals == |remaining| then Err(NoEquals) else
    var name := Trim(remaining[..equals]);
    if !IsName(name) then Err(BadName) else
    match ReadValue(remaining[equals + 1..])
    case Err(e) => Err(e)
    case Ok(quoted) => Ok(Item(name, quoted.value, TrimStart(quoted.rest)))
  }

  function Parse(remaining: string, values: Values): Result<Values, Refusal>
    decreases |remaining|
  {
    if remaining == "" || remaining == "/" then Ok(values) else
    var step := Step(remaining);
    if step.Err? then Err(step.error)
    else if step.value.name in values then Err(Duplicate)
    else Parse(step.value.rest, values[step.value.name := step.value.value])
  }

  function TagAttributes(rest: string): Result<Values, Refusal> {
    Parse(Trim(rest), map[])
  }

  /** The loop that reads the attributes of one tag. */
  method ReadTag(rest: string) returns (r: Result<Values, Refusal>)
    ensures r == TagAttributes(rest)
  {
    var remaining := Trim(rest);
    var values: Values := map[];
    while remaining != "" && remaining != "/"
      invariant Parse(remaining, values) == TagAttributes(rest)
      decreases |remaining|
    {
      var equals := Find(remaining, '=');
      if equals == |remaining| {
        return Err(NoEquals);
      }
      var name := Trim(remaining[..equals]);
      if !IsName(name) {
        return Err(BadName);
      }
      var next := TrimStart(remaining[equals + 1..]);
      if next == "" {
        return Err(NoQuote);
      }
      if !IsQuote(next[0]) {
        return Err(Unquoted);
      }
      var close := Find(next[1..], next[0]);
      if close == |next| - 1 {
        return Err(UnterminatedValue);
      }
      if name in values {
        return Err(Duplicate);
      }
      values := values[name := next[1..][..close]];
      remaining := TrimStart(next[1..][close + 1..]);
    }
    return Ok(values);
  }

  // ---------------------------------------------------------------- what attributes look like

  /** An attribute with its layout: the space before it, and the space around its equals sign. */
  datatype Attribute = Attribute(gap: string, name: string, before: string, after: string, quote: char, value: string)

  predicate Well(a: Attribute) {
    && AllSpace(a.gap) && AllSpace(a.before) && AllSpace(a.after)
    && IsName(a.name) && IsQuote(a.quote) && a.quote !in a.value
  }

  /** The text of an attribute after its gap. */
  function Spelling(a: Attribute): string {
    a.name + a.before + "=" + (a.after + ([a.quote] + a.value + [a.quote]))
  }

  predicate AllWell(attributes: seq<Attribute>) {
    forall i :: 0 <= i < |attributes| ==> Well(attributes[i])
  }

  function Spellings(attributes: seq<Attribute>): string {
    if attributes == [] then ""
    else attributes[0].gap + Spelling(attributes[0]) + Spellings(attributes[1..])
  }

  predicate IsClosing(tail: string) {
    tail == "" || (tail[|tail| - 1] == '/' && AllSpace(tail[..|tail| - 1]))
  }

  predicate DistinctNames(attributes: seq<Attribute>) {
    forall i, j :: 0 <= i < j < |attributes| ==> attributes[i].name != attributes[j].name
  }

  predicate NoneIn(attributes: seq<Attribute>, values: Values) {
    forall i :: 0 <= i < |attributes| ==> attributes[i].name !in values
  }

  function ValuesOf(attributes: seq<Attribute>, values: Values): Values {
    if attributes == [] then values
    else ValuesOf(attributes[1..], values[attributes[0].name := attributes[0].value])
  }

  lemma ValueReads(a: Attribute, rest: string)
    requires Well(a)
    ensures ReadValue(a.after + ([a.quote] + a.value + [a.quote]) + rest) == Ok(Quoted(a.value, rest))
  {
    var text := a.value + [a.quote] + rest;
    var body := [a.quote] + text;
    assert a.after + ([a.quote] + a.value + [a.quote]) + rest == a.after + body;
    TrimStartDrops(a.after, body);
    FindFirst(a.value, a.quote, rest);
    assert body[1..] == text;
    assert text[..|a.value|] == a.value && text[|a.value| + 1..] == rest;
  }

  lemma NameReads(key: string, a: Attribute)
    requires Well(a) && key == a.name + a.before
    ensures '=' !in key && Trim(key) == a.name
  {
    NameHasNoSpace(a.name);
    TrimEndDrops(a.name, a.before);
    TrimStartDrops("", a.name);
    assert "" + a.name == a.name;
  }

  /** An attribute is read from the text before and the text after its first equals sign. */
  lemma StepOf(key: string, more: string)
    requires '=' !in key && IsName(Trim(key)) && ReadValue(more).Ok?
    ensures Step(key + ['='] + more)
      == Ok(Item(Trim(key), ReadValue(more).value.value, TrimStart(ReadValue(more).value.rest)))
  {
    var text := key + ['='] + more;
    FindFirst(key, '=', more);
    assert text[..|key|] == key && text[|key| + 1..] == more;
  }

  lemma Assembled(a: Attribute, key: string, text: string, rest: string)
    requires key == a.name + a.before && text == a.after + ([a.quote] + a.value + [a.quote]) + rest
    ensures key + "=" + text == Spelling(a) + rest
  {
  }

  /** A spelled attribute is read as itself, up to the next character that is not space. */
  lemma StepReads(a: Attribute, rest: string)
    requires Well(a)
    ensures Step(Spelling(a) + rest) == Ok(Item(a.name, a.value, TrimStart(rest)))
  {
    var key, value := a.name + a.before, a.after + ([a.quote] + a.value + [a.quote]);
    NameReads(key, a);
    ValueReads(a, rest);
    StepOf(key, value + rest);
    Assembled(a, key, value + rest, rest);
  }

  lemma Cut(s: string, i: nat)
    requires s != "" && i < |s| - 1 && s[1..][i] == s[0]
    ensures s == [s[0]] + s[1..][..i] + [s[0]] + s[1..][i + 1..]
  {
  }

  lemma ValueIsSpelled(text: string) returns (after: string, quote: char)
    requires ReadValue(text).Ok?
    ensures AllSpace(after) && IsQuote(quote) && quote !in ReadValue(text).value.value
    ensures text == after + ([quote] + ReadValue(text).value.value + [quote]) + ReadValue(text).value.rest
  {
    after := TrimStartSplits(text);
    var next := TrimStart(text);
    quote := next[0];
    Cut(next, Find(next[1..], quote));
  }

  lemma SpaceLeads(space: string, s: string)
    requires AllSpace(space) && space != ""
    ensures StartsWithSpace(space + s)
  {
  }

  lemma NameIsSpelled(key: string) returns (before: string)
    requires IsName(Trim(key)) && !StartsWithSpace(key)
    ensures AllSpace(before) && key == Trim(key) + before
  {
    before := TrimEndSplits(key);
    var lead := TrimStartSplits(TrimEnd(key));
    assert key == lead + (Trim(key) + before);
    if lead != "" {
      SpaceLeads(lead, Trim(key) + before);
    }
  }

  lemma StepParts(remaining: string) returns (key: string, text: string)
    requires Step(remaining).Ok?
    ensures remaining == key + "=" + text && IsName(Trim(key)) && ReadValue(text).Ok?
    ensures Step(remaining).value
      == Item(Trim(key), ReadValue(text).value.value, TrimStart(ReadValue(text).value.rest))
    ensures !StartsWithSpace(remaining) ==> !StartsWithSpace(key)
  {
    var equals := Find(remaining, '=');
    key, text := remaining[..equals], remaining[equals + 1..];
    assert remaining == key + "=" + text;
  }

  /** What is read as an attribute is the spelling of one. */
  lemma StepIsSpelled(remaining: string) returns (a: Attribute, rest: string)
    requires Step(remaining).Ok? && !StartsWithSpace(remaining)
    ensures Well(a) && a.gap == "" && remaining == Spelling(a) + rest
    ensures Step(remaining).value == Item(a.name, a.value, TrimStart(rest))
  {
    var key, text := StepParts(remaining);
    var before := NameIsSpelled(key);
    var after, quote := ValueIsSpelled(text);
    rest := ReadValue(text).value.rest;
    a := Attribute("", Trim(key), before, after, quote, ReadValue(text).value.value);
    Assembled(a, key, text, rest);
  }

  // ---------------------------------------------------------------- all attributes of a tag

  /** The text of a tag after its element's name: attributes, an optional closing slash, and space. */
  function TagText(attributes: seq<Attribute>, tail: string, space: string): string {
    Spellings(attributes) + tail + space
  }

  lemma SpellingStarts(a: Attribute, rest: string)
    requires Well(a)
    ensures !StartsWithSpace(Spelling(a) + rest)
    ensures Spelling(a) + rest != "" && Spelling(a) + rest != "/"
    ensures TrimStart(a.gap + (Spelling(a) + rest)) == Spelling(a) + rest
  {
    assert (Spelling(a) + rest)[0] == a.name[0];
    TrimStartDrops(a.gap, Spelling(a) + rest);
  }

  lemma ClosingTrimmed(tail: string)
    requires IsClosing(tail)
    ensures TrimStart(tail) == "" || TrimStart(tail) == "/"
  {
    if tail != "" {
      var n := |tail| - 1;
      assert tail == tail[..n] + "/";
      TrimStartDrops(tail[..n], "/");
    }
  }

  ghost predicate Fresh(attributes: seq<Attribute>, values: Values) {
    DistinctNames(attributes) && NoneIn(attributes, values)
  }

  lemma FreshNext(attributes: seq<Attribute>, values: Values)
    requires attributes != []
    ensures Fresh(attributes, values) <==>
      && attributes[0].name !in values
      && Fresh(attributes[1..], values[attributes[0].name := attributes[0].value])
  {
    var rest, more := attributes[1..], values[attributes[0].name := attributes[0].value];
    if attributes[0].name !in values && Fresh(rest, more) {
      assert forall i :: 1 <= i < |attributes| ==> attributes[i] == rest[i - 1];
    }
    if Fresh(attributes, values) {
      assert forall i :: 0 <= i < |rest| ==> rest[i] == attributes[i + 1];
    }
  }

  lemma FirstReads(a: Attribute, rest: string, values: Values)
    requires Well(a)
    ensures Parse(TrimStart(a.gap + (Spelling(a) + rest)), values)
      == if a.name in values then Err(Duplicate) else Parse(TrimStart(rest), values[a.name := a.value])
  {
    SpellingStarts(a, rest);
    StepReads(a, rest);
  }

  /** Spelled attributes are read back in order; a repeated name is refused. */
  lemma {:induction false} ParseReads(attributes: seq<Attribute>, tail: string, values: Values)
    requires AllWell(attributes) && IsClosing(tail)
    ensures Parse(TrimStart(Spellings(attributes) + tail), values)
      == if Fresh(attributes, values) then Ok(ValuesOf(attributes, values)) else Err(Duplicate)
  {
    if attributes == [] {
      assert Spellings(attributes) + tail == tail;
      ClosingTrimmed(tail);
    } else {
      var a, rest := attributes[0], Spellings(attributes[1..]) + tail;
      assert Spellings(attributes) + tail == a.gap + (Spelling(a) + rest);
      FirstReads(a, rest, values);
      FreshNext(attributes, values);
      ParseReads(attributes[1..], tail, values[a.name := a.value]);
    }
  }

  lemma SpaceEnds(s: string)
    requires TrimStart(s) == "" && !EndsWithSpace(s)
    ensures s == ""
  {
    var space := TrimStartSplits(s);
    assert s == space;
  }

  lemma EndsAlike(before: string, rest: string)
    requires !EndsWithSpace(before + rest)
    ensures !EndsWithSpace(rest)
  {
    assert rest != "" ==> (before + rest)[|before + rest| - 1] == rest[|rest| - 1];
  }

  lemma RestEndsAlike(gap: string, spelling: string, rest: string)
    requires !EndsWithSpace(gap + (spelling + rest))
    ensures !EndsWithSpace(rest)
    ensures |rest| <= |gap + (spelling + rest)| - |spelling|
  {
    assert gap + (spelling + rest) == (gap + spelling) + rest;
    EndsAlike(gap + spelling, rest);
  }

  lemma SpellingsCons(a: Attribute, gap: string, more: seq<Attribute>, tail: string)
    returns (attributes: seq<Attribute>)
    requires Well(a) && AllSpace(gap) && AllWell(more)
    ensures AllWell(attributes) && attributes != [] && attributes[1..] == more
    ensures attributes[0].name == a.name && attributes[0].value == a.value
    ensures Spellings(attributes) + tail == gap + (Spelling(a) + (Spellings(more) + tail))
  {
    var first := a.(gap := gap);
    attributes := [first] + more;
    assert attributes[1..] == more;
    assert Spellings(attributes) == gap + Spelling(a) + Spellings(more);
  }

  /** What is read to its end is spelled by attributes that were not there yet. */
  lemma {:induction false} ParsedIsSpelled(text: string, values: Values)
    returns (attributes: seq<Attribute>, tail: string)
    requires Parse(TrimStart(text), values).Ok? && !EndsWithSpace(text)
    ensures AllWell(attributes) && IsClosing(tail) && Fresh(attributes, values)
    ensures text == Spellings(attributes) + tail
    decreases |text|
  {
    var gap := TrimStartSplits(text);
    var remaining := TrimStart(text);
    if remaining == "" {
      SpaceEnds(text);
      attributes, tail := [], "";
    } else if remaining == "/" {
      attributes, tail := [], text;
    } else {
      var a, rest := StepIsSpelled(remaining);
      RestEndsAlike(gap, Spelling(a), rest);
      var more, end := ParsedIsSpelled(rest, values[a.name := a.value]);
      tail := end;
      attributes := SpellingsCons(a, gap, more, tail);
      FreshNext(attributes, values);
    }
  }

  ghost predicate SpelledWith(rest: string, attributes: seq<Attribute>, tail: string, space: string) {
    AllWell(attributes) && IsClosing(tail) && AllSpace(space) && rest == TagText(attributes, tail, space)
  }

  /** The text is a layout of these attributes. */
  ghost predicate Spells(rest: string, attributes: seq<Attribute>) {
    exists tail, space :: SpelledWith(rest, attributes, tail, space)
  }

  lemma {:induction false} SpellingsEnd(attributes: seq<Attribute>)
    requires AllWell(attributes)
    ensures !EndsWithSpace(Spellings(attributes))
  {
    if attributes != [] {
      var a := attributes[0];
      var here := a.gap + Spelling(a);
      assert here[|here| - 1] == a.quote;
      SpellingsEnd(attributes[1..]);
      var rest := Spellings(attributes[1..]);
      assert (here + rest)[|here + rest| - 1] == if rest == "" then a.quote else rest[|rest| - 1];
    }
  }

  lemma ClosingEnds(s: string, tail: string)
    requires IsClosing(tail) && !EndsWithSpace(s)
    ensures !EndsWithSpace(s + tail)
  {
    assert tail == "" ==> s + tail == s;
  }

  /** Every layout of distinct attributes gives their map, and every repeated name is refused. */
  lemma SpelledIsRead(rest: string, attributes: seq<Attribute>)
    requires Spells(rest, attributes)
    ensures TagAttributes(rest)
      == if DistinctNames(attributes) then Ok(ValuesOf(attributes, map[])) else Err(Duplicate)
  {
    var tail, space :| SpelledWith(rest, attributes, tail, space);
    SpellingsEnd(attributes);
    ClosingEnds(Spellings(attributes), tail);
    TrimEndDrops(Spellings(attributes) + tail, space);
    ParseReads(attributes, tail, map[]);
  }

  /** Nothing else is read. */
  lemma ReadIsSpelled(rest: string) returns (attributes: seq<Attribute>)
    requires TagAttributes(rest).Ok?
    ensures Spells(rest, attributes) && DistinctNames(attributes)
  {
    var space := TrimEndSplits(rest);
    var tail;
    attributes, tail := ParsedIsSpelled(TrimEnd(rest), map[]);
    assert SpelledWith(rest, attributes, tail, space);
  }

  /** The map holds exactly the spelled names, each with its own value. */
  lemma {:induction false} ValuesAreSpelled(attributes: seq<Attribute>, values: Values)
    requires Fresh(attributes, values)
    ensures forall name :: name in ValuesOf(attributes, values) <==>
      name in values || exists i :: 0 <= i < |attributes| && attributes[i].name == name
    ensures forall name :: name in values ==> ValuesOf(attributes, values)[name] == values[name]
    ensures forall i :: 0 <= i < |attributes| ==>
      ValuesOf(attributes, values)[attributes[i].name] == attributes[i].value
  {
    if attributes != [] {
      var rest, more := attributes[1..], values[attributes[0].name := attributes[0].value];
      FreshNext(attributes, values);
      ValuesAreSpelled(rest, more);
      assert attributes == [attributes[0]] + rest;
    }
  }

  // ---------------------------------------------------------------- documents

  datatype Element = Element(tag: string, body: string)

  ghost predicate Declares(xml: string) {
    exists i :: DeclaresAt(xml, i)
  }

  predicate DeclaresAt(xml: string, i: int) {
    0 <= i < |xml| - 1 && xml[i] == '<' && xml[i + 1] == '!'
  }

  /** The text before the first tag, and the text after each opening bracket. */
  function Pieces(xml: string): (r: seq<string>)
    ensures r != []
    decreases |xml|
  {
    var open := Find(xml, '<');
    if open == |xml| then [xml] else [xml[..open]] + Pieces(xml[open + 1..])
  }

  function ElementOf(piece: string): Option<Element> {
    var close := Find(piece, '>');
    if close == |piece| then None else Some(Element(piece[..close], piece[close + 1..]))
  }

  /** The text after the element's name, if the tag is of this element. */
  function TagOf(element: string, tag: string): Option<string> {
    if element <= tag && (tag == element || IsAsciiSpace(tag[|element|]) || tag[|element|] == '/')
    then Some(tag[|element|..])
    else None
  }

  /** What a piece adds: the attributes of a wanted element, nothing, or a refusal. */
  function ReadPiece(element: string, piece: string): Result<Option<Values>, Refusal> {
    var entry := ElementOf(piece);
    if entry.None? then Err(UnterminatedTag) else
    var rest := TagOf(element, entry.value.tag);
    if rest.None? then Ok(None) else
    var values := TagAttributes(rest.value);
    if values.Err? then Err(values.error) else Ok(Some(values.value))
  }

  function Reader(element: string): string -> Result<Option<Values>, Refusal> {
    (piece: string) => ReadPiece(element, piece)
  }

  /** What the pieces add, in order, up to the first refusal. */
  function Collect(read: string -> Result<Option<Values>, Refusal>, pieces: seq<string>): Result<seq<Values>, Refusal> {
    if pieces == [] then Ok([]) else
    var before, last := Collect(read, pieces[..|pieces| - 1]), read(pieces[|pieces| - 1]);
    if before.Err? then before
    else if last.Err? then Err(last.error)
    else if last.value.None? then before
    else Ok(before.value + [last.value.value])
  }

  ghost function AttributesOf(xml: string, element: string): Result<seq<Values>, Refusal> {
    if Declares(xml) || '&' in xml then Err(Declarations) else Collect(Reader(element), Pieces(xml)[1..])
  }

  method HasDeclaration(xml: string) returns (r: bool)
    ensures r <==> Declares(xml)
  {
    for i := 0 to |xml|
      invariant forall j :: j < i ==> !DeclaresAt(xml, j)
    {
      if i + 1 < |xml| && xml[i] == '<' && xml[i + 1] == '!' {
        assert DeclaresAt(xml, i);
        return true;
      }
    }
    return false;
  }

  method Attributes(xml: string, element: string) returns (r: Result<seq<Values>, Refusal>)
    ensures r == AttributesOf(xml, element)
  {
    var declares := HasDeclaration(xml);
    if declares || '&' in xml {
      return Err(Declarations);
    }
    var pieces := Pieces(xml)[1..];
    var result: seq<Values> := [];
    for i := 0 to |pieces|
      invariant Collect(Reader(element), pieces[..i]) == Ok(result)
    {
      CollectNext(Reader(element), pieces, i);
      var entry := ElementOf(pieces[i]);
      if entry.None? {
        CollectStops(Reader(element), pieces, i + 1);
        return Err(UnterminatedTag);
      }
      var rest := TagOf(element, entry.value.tag);
      if rest.Some? {
        var values := ReadTag(rest.value);
        if values.Err? {
          CollectStops(Reader(element), pieces, i + 1);
          return Err(values.error);
        }
        result := result + [values.value];
      }
    }
    assert pieces[..|pieces|] == pieces;
    return Ok(result);
  }

  lemma CollectNext(read: string -> Result<Option<Values>, Refusal>, pieces: seq<string>, i: nat)
    requires i < |pieces|
    ensures var before, next := Collect(read, pieces[..i]), read(pieces[i]);
      Collect(read, pieces[..i + 1]) ==
        if before.Err? then before
        else if next.Err? then Err(next.error)
        else if next.value.None? then before
        else Ok(before.value + [next.value.value])
  {
    assert pieces[..i + 1][..i] == pieces[..i] && pieces[..i + 1][i] == pieces[i];
  }

  lemma {:induction false} CollectStops(read: string -> Result<Option<Values>, Refusal>, pieces: seq<string>, i: nat)
    requires i <= |pieces| && Collect(read, pieces[..i]).Err?
    ensures Collect(read, pieces) == Collect(read, pieces[..i])
    decreases |pieces| - i
  {
    if i < |pieces| {
      CollectNext(read, pieces, i);
      CollectStops(read, pieces, i + 1);
    } else {
      assert pieces[..i] == pieces;
    }
  }

  ghost function SingleOf(xml: string, element: string): Result<Values, Refusal> {
    match AttributesOf(xml, element)
    case Err(e) => Err(e)
    case Ok(all) => if |all| == 1 then Ok(all[0]) else Err(NotSingle)
  }

  method Single(xml: string, element: string) returns (r: Result<Values, Refusal>)
    ensures r == SingleOf(xml, element)
  {
    var values := Attributes(xml, element);
    if values.Err? {
      return Err(values.error);
    }
    if |values.value| != 1 {
      return Err(NotSingle);
    }
    return Ok(values.value[0]);
  }

  // ---------------------------------------------------------------- what documents look like

  predicate PlainElement(e: Element) {
    && '<' !in e.tag && '>' !in e.tag && '&' !in e.tag && (e.tag != "" ==> e.tag[0] != '!')
    && '<' !in e.body && '&' !in e.body
  }

  predicate AllPlain(elements: seq<Element>) {
    forall i :: 0 <= i < |elements| ==> PlainElement(elements[i])
  }

  function Piece(e: Element): string {
    e.tag + ['>'] + e.body
  }

  function Tags(elements: seq<Element>): string {
    if elements == [] then "" else ['<'] + (Piece(elements[0]) + Tags(elements[1..]))
  }

  /** A text without declarations and entities: a prologue, and tags each followed by a body. */
  ghost predicate IsDocument(xml: string, prologue: string, elements: seq<Element>) {
    xml == prologue + Tags(elements) && '<' !in prologue && '&' !in prologue && AllPlain(elements)
  }

  predicate ArePieces(pieces: seq<string>, elements: seq<Element>) {
    |pieces| == |elements| && forall i :: 0 <= i < |pieces| ==> ElementOf(pieces[i]) == Some(elements[i])
  }

  lemma PieceReads(e: Element)
    requires PlainElement(e)
    ensures ElementOf(Piece(e)) == Some(e) && '<' !in Piece(e) && '&' !in Piece(e)
    ensures Piece(e)[0] != '!'
  {
    FindFirst(e.tag, '>', e.body);
    assert Piece(e)[..|e.tag|] == e.tag && Piece(e)[|e.tag| + 1..] == e.body;
  }

  lemma PieceIsElement(piece: string)
    requires ElementOf(piece).Some? && '<' !in piece && '&' !in piece && (piece != "" ==> piece[0] != '!')
    ensures PlainElement(ElementOf(piece).value) && Piece(ElementOf(piece).value) == piece
  {
    var close := Find(piece, '>');
    assert piece == piece[..close] + ['>'] + piece[close + 1..];
  }

  lemma PiecesFirst(before: string, rest: string)
    requires '<' !in before
    ensures Pieces(before + ['<'] + rest) == [before] + Pieces(rest)
  {
    var xml := before + ['<'] + rest;
    FindFirst(before, '<', rest);
    assert xml[..|before|] == before && xml[|before| + 1..] == rest;
  }

  lemma {:induction false} PiecesOfTags(before: string, elements: seq<Element>)
    requires '<' !in before && AllPlain(elements)
    ensures Pieces(before + Tags(elements))[0] == before
    ensures ArePieces(Pieces(before + Tags(elements))[1..], elements)
    decreases |elements|
  {
    var xml := before + Tags(elements);
    if elements == [] {
      assert xml == before;
      FindNone(xml, '<');
    } else {
      var piece, more := Piece(elements[0]), elements[1..];
      PieceReads(elements[0]);
      assert xml == before + ['<'] + (piece + Tags(more));
      PiecesFirst(before, piece + Tags(more));
      PiecesOfTags(piece, more);
      ArePiecesCons(Pieces(piece + Tags(more)), elements);
      assert Pieces(xml)[1..] == Pieces(piece + Tags(more));
    }
  }

  lemma ArePiecesCons(pieces: seq<string>, elements: seq<Element>)
    requires pieces != [] && elements != [] && ElementOf(pieces[0]) == Some(elements[0])
    requires ArePieces(pieces[1..], elements[1..])
    ensures ArePieces(pieces, elements)
  {
    forall i | 0 <= i < |pieces| ensures ElementOf(pieces[i]) == Some(elements[i]) {
      if 0 < i {
        assert pieces[i] == pieces[1..][i - 1] && elements[i] == elements[1..][i - 1];
      }
    }
  }

  lemma DeclaresAcross(before: string, rest: string)
    requires '<' !in before
    ensures Declares(before + rest) <==> Declares(rest)
  {
    var xml := before + rest;
    if Declares(xml) {
      var i :| DeclaresAt(xml, i);
      assert (forall k :: 0 <= k < |before| ==> xml[k] in before) && xml[i] !in before;
      assert DeclaresAt(rest, i - |before|);
    }
    if Declares(rest) {
      var i :| DeclaresAt(rest, i);
      assert DeclaresAt(xml, |before| + i);
    }
  }

  lemma DeclaresTag(rest: string)
    ensures Declares(['<'] + rest) <==> Declares(rest) || (rest != "" && rest[0] == '!')
  {
    var xml := ['<'] + rest;
    if Declares(xml) {
      var i :| DeclaresAt(xml, i);
      assert i > 0 ==> DeclaresAt(rest, i - 1);
    }
    if Declares(rest) {
      var i :| DeclaresAt(rest, i);
      assert DeclaresAt(xml, i + 1);
    }
    if rest != "" && rest[0] == '!' {
      assert DeclaresAt(xml, 0);
    }
  }

  lemma {:induction false} PlainTags(elements: seq<Element>)
    requires AllPlain(elements)
    ensures !Declares(Tags(elements)) && '&' !in Tags(elements)
  {
    if elements != [] {
      var piece, more := Piece(elements[0]), Tags(elements[1..]);
      PieceReads(elements[0]);
      PlainTags(elements[1..]);
      DeclaresAcross(piece, more);
      DeclaresTag(piece + more);
    }
  }

  /** A rendered document is taken apart into its own elements. */
  lemma DocumentIsSplit(xml: string, prologue: string, elements: seq<Element>)
    requires IsDocument(xml, prologue, elements)
    ensures !Declares(xml) && '&' !in xml && ArePieces(Pieces(xml)[1..], elements)
  {
    PlainTags(elements);
    DeclaresAcross(prologue, Tags(elements));
    PiecesOfTags(prologue, elements);
  }

  /** A text whose pieces are all elements is the document of those elements. */
  lemma {:induction false} SplitIsDocument(xml: string) returns (elements: seq<Element>)
    requires !Declares(xml) && '&' !in xml && AllElements(Pieces(xml)[1..])
    ensures ArePieces(Pieces(xml)[1..], elements) && IsDocument(xml, Pieces(xml)[0], elements)
    decreases |xml|
  {
    var open := Find(xml, '<');
    if open == |xml| {
      elements := [];
      assert xml == xml + "";
    } else {
      var before, rest := SplitFirst(xml);
      var pieces := Pieces(rest);
      assert Pieces(xml)[1..] == pieces;
      var more := SplitIsDocument(rest);
      elements := JoinFirst(xml, before, rest, more);
      ArePiecesCons(pieces, elements);
    }
  }

  lemma SplitFirst(xml: string) returns (before: string, rest: string)
    requires !Declares(xml) && '&' !in xml && '<' in xml
    ensures xml == before + (['<'] + rest) && '<' !in before && '&' !in before
    ensures Pieces(xml) == [before] + Pieces(rest)
    ensures !Declares(rest) && '&' !in rest && (rest != "" ==> rest[0] != '!')
  {
    var open := Find(xml, '<');
    before, rest := xml[..open], xml[open + 1..];
    assert xml == before + (['<'] + rest);
    DeclaresAcross(before, ['<'] + rest);
    DeclaresTag(rest);
  }

  lemma JoinFirst(xml: string, before: string, rest: string, more: seq<Element>) returns (elements: seq<Element>)
    requires xml == before + (['<'] + rest) && '<' !in before && '&' !in before
    requires ElementOf(Pieces(rest)[0]).Some? && IsDocument(rest, Pieces(rest)[0], more)
    requires rest != "" ==> rest[0] != '!'
    ensures elements != [] && elements[1..] == more && elements[0] == ElementOf(Pieces(rest)[0]).value
    ensures IsDocument(xml, before, elements)
  {
    RestIsTags(rest, more);
    elements := [ElementOf(Pieces(rest)[0]).value] + more;
    assert elements[1..] == more;
  }

  predicate AllElements(pieces: seq<string>) {
    forall i :: 0 <= i < |pieces| ==> ElementOf(pieces[i]).Some?
  }

  lemma RestIsTags(rest: string, more: seq<Element>)
    requires ElementOf(Pieces(rest)[0]).Some? && IsDocument(rest, Pieces(rest)[0], more)
    requires rest != "" ==> rest[0] != '!'
    ensures PlainElement(ElementOf(Pieces(rest)[0]).value)
    ensures rest == Piece(ElementOf(Pieces(rest)[0]).value) + Tags(more)
  {
    var piece := Pieces(rest)[0];
    assert piece != "" ==> rest[0] == piece[0];
    PieceIsElement(piece);
  }

  // ---------------------------------------------------------------- exactly one element

  predicate Wanted(element: string, e: Element) {
    TagOf(element, e.tag).Some?
  }

  predicate OnlyWanted(elements: seq<Element>, element: string, i: nat) {
    && i < |elements| && Wanted(element, elements[i])
    && forall j :: 0 <= j < |elements| && j != i ==> !Wanted(element, elements[j])
  }

  /** Only the piece at `i` adds anything. */
  ghost predicate OnlyRead(read: string -> Result<Option<Values>, Refusal>, pieces: seq<string>, i: nat) {
    && i < |pieces| && read(pieces[i]).Ok? && read(pieces[i]).value.Some?
    && forall j :: 0 <= j < |pieces| && j != i ==> read(pieces[j]) == Ok(None)
  }

  lemma {:induction false} CollectNone(read: string -> Result<Option<Values>, Refusal>, pieces: seq<string>)
    requires forall j :: 0 <= j < |pieces| ==> read(pieces[j]) == Ok(None)
    ensures Collect(read, pieces) == Ok([])
  {
    if pieces != [] {
      CollectNone(read, pieces[..|pieces| - 1]);
    }
  }

  lemma {:induction false} CollectOnly(
    read: string -> Result<Option<Values>, Refusal>, pieces: seq<string>, i: nat)
    requires OnlyRead(read, pieces, i)
    ensures Collect(read, pieces) == Ok([read(pieces[i]).value.value])
  {
    var n := |pieces| - 1;
    if i == n {
      CollectNone(read, pieces[..n]);
      assert [] + [read(pieces[n]).value.value] == [read(pieces[n]).value.value];
    } else {
      assert read(pieces[n]) == Ok(None);
      CollectOnly(read, pieces[..n], i);
    }
  }

  /** Nothing was refused; and what was collected tells which pieces added something. */
  lemma {:induction false} CollectCounts(read: string -> Result<Option<Values>, Refusal>, pieces: seq<string>)
    requires Collect(read, pieces).Ok?
    ensures forall j :: 0 <= j < |pieces| ==> read(pieces[j]).Ok?
    ensures |Collect(read, pieces).value| == 0 ==> forall j :: 0 <= j < |pieces| ==> read(pieces[j]) == Ok(None)
    ensures |Collect(read, pieces).value| == 1 ==> exists i: nat :: OnlyRead(read, pieces, i)
  {
    if pieces != [] {
      var n := |pieces| - 1;
      var front := pieces[..n];
      CollectCounts(read, front);
      assert forall j :: 0 <= j < n ==> pieces[j] == front[j];
      if |Collect(read, pieces).value| == 1 {
        if read(pieces[n]) == Ok(None) {
          var i: nat :| OnlyRead(read, front, i);
          assert OnlyRead(read, pieces, i);
        } else {
          assert OnlyRead(read, pieces, n);
        }
      }
    }
  }

  lemma ReadsElement(element: string, piece: string, e: Element)
    requires ElementOf(piece) == Some(e) && Reader(element)(piece).Ok?
    ensures Wanted(element, e) <==> Reader(element)(piece).value.Some?
    ensures Wanted(element, e) ==> TagAttributes(TagOf(element, e.tag).value) == Ok(Reader(element)(piece).value.value)
  {
  }

  /** A document in which exactly one tag, the one at `i`, is of this element, and spells distinct attributes. */
  ghost predicate Describes(
    xml: string, element: string, prologue: string, elements: seq<Element>, i: nat, attributes: seq<Attribute>)
  {
    && IsDocument(xml, prologue, elements)
    && OnlyWanted(elements, element, i)
    && Spells(TagOf(element, elements[i].tag).value, attributes)
    && DistinctNames(attributes)
  }

  /** Reading a rendered document gives back the attributes of its one element, whatever the layout. */
  lemma DescribedIsRead(
    xml: string, element: string, prologue: string, elements: seq<Element>, i: nat, attributes: seq<Attribute>)
    requires Describes(xml, element, prologue, elements, i, attributes)
    ensures SingleOf(xml, element) == Ok(ValuesOf(attributes, map[]))
  {
    DocumentIsSplit(xml, prologue, elements);
    SpelledIsRead(TagOf(element, elements[i].tag).value, attributes);
    OnlyWantedIsRead(Pieces(xml)[1..], elements, element, i, ValuesOf(attributes, map[]));
  }

  lemma OnlyWantedIsRead(pieces: seq<string>, elements: seq<Element>, element: string, i: nat, values: Values)
    requires ArePieces(pieces, elements) && OnlyWanted(elements, element, i)
    requires TagAttributes(TagOf(element, elements[i].tag).value) == Ok(values)
    ensures Collect(Reader(element), pieces) == Ok([values])
  {
    var read := Reader(element);
    assert read(pieces[i]) == Ok(Some(values));
    forall j | 0 <= j < |pieces| && j != i ensures read(pieces[j]) == Ok(None) {
      assert !Wanted(element, elements[j]);
    }
    CollectOnly(read, pieces, i);
  }

  /** Every text that is accepted is such a document. */
  lemma ReadIsDescribed(xml: string, element: string)
    returns (elements: seq<Element>, i: nat, attributes: seq<Attribute>)
    requires SingleOf(xml, element).Ok?
    ensures Describes(xml, element, Pieces(xml)[0], elements, i, attributes)
  {
    var pieces := Pieces(xml)[1..];
    CollectCounts(Reader(element), pieces);
    elements := SplitIsDocument(xml);
    i :| OnlyRead(Reader(element), pieces, i);
    OnlyReadIsWanted(pieces, elements, element, i);
    attributes := ReadIsSpelled(TagOf(element, elements[i].tag).value);
  }

  lemma OnlyReadIsWanted(pieces: seq<string>, elements: seq<Element>, element: string, i: nat)
    requires ArePieces(pieces, elements) && OnlyRead(Reader(element), pieces, i)
    ensures OnlyWanted(elements, element, i) && TagAttributes(TagOf(element, elements[i].tag).value).Ok?
  {
    forall j | 0 <= j < |pieces| ensures Wanted(element, elements[j]) <==> j == i {
      ReadsElement(element, pieces[j], elements[j]);
    }
    ReadsElement(element, pieces[i], elements[i]);
  }
}
