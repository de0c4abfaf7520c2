/** The strict archive reader of `xtask/src/release_queue.rs`, `extract_archive`.

  An archive is the sequence of its decoded entries, what follows them, and the length of the whole
  decompressed stream. A file name is the text of its bytes, or `None` where they are not UTF-8.
  */
module Archive {

  import opened Collections
  import opened Limits
  import opened Wrappers

  const CHUNK := 8192
  const WINDOWS := "x86_64-pc-windows-msvc"
  const RESOURCES := [
    "LICENSE-MIT", "LICENSE-APACHE", "README.md", "assets/icon.svg", "assets/icon.png", "assets/icon.ico",
    "assets/icon.icns", "assets/LICENSE", "assets/NOTICE"]

  datatype Kind = Directory | File | Special

  /** `data` is what can be read of the entry; a truncated archive holds less than `size`. */
  datatype Entry = Entry(path: Option<string>, kind: Kind, size: nat, data: seq<char>)

  /** An entry that cannot be read is `None`. */
  datatype Stream = Stream(entries: seq<Option<Entry>>, trailer: seq<char>, length: nat)

  datatype Refusal = Refusal

  // ---------------------------------------------------------------- names

  /** The parts of a path between slashes. */
  function Parts(s: string): seq<string> {
    if s == "" then [""]
    else
      var front, last := Parts(s[..|s| - 1]), s[|s| - 1];
      if last == '/' then front + [""] else front[..|front| - 1] + [front[|front| - 1] + [last]]
  }

  predicate SafePath(name: string) {
    && name != "" && '\\' !in name
    && forall i :: 0 <= i < |Parts(name)| ==> Parts(name)[i] != "" && Parts(name)[i] != "." && Parts(name)[i] != ".."
  }

  function Stripped(path: string): string {
    if path != "" && path[|path| - 1] == '/' then path[..|path| - 1] else path
  }

  function EntryPath(path: Option<string>): Option<string> {
    match path
    case None => None
    case Some(p) => if SafePath(Stripped(p)) then Some(Stripped(p)) else None
  }

  function PackageDirectory(version: string, target: string): string {
    "domyjob-" + version + "-" + target
  }

  function BinaryName(version: string, target: string): string {
    PackageDirectory(version, target) + "/" + if target == WINDOWS then "domyjob.exe" else "domyjob"
  }

  /** Every name of a release archive, and whether it is a directory. */
  function Inventory(version: string, target: string): map<string, bool> {
    var package := PackageDirectory(version, target);
    (map name | name in Elements(RESOURCES) :: package + "/" + name := false)
      [BinaryName(version, target) := false][package := true][package + "/assets" := true]
  }

  // ---------------------------------------------------------------- what an archive must be

  /** The entry has an expected name, the kind of that name, and a size of that kind. */
  predicate Fits(entry: Option<Entry>, expected: map<string, bool>) {
    && entry.Some? && entry.value.path.Some?
    && var name := Stripped(entry.value.path.value);
       && SafePath(name) && name in expected
       && entry.value.kind == (if expected[name] then Directory else File)
       && entry.value.size <= LIMIT && (if expected[name] then entry.value.size == 0 else entry.value.size > 0)
  }

  function NameOf(entry: Option<Entry>): string {
    if entry.Some? && entry.value.path.Some? then Stripped(entry.value.path.value) else ""
  }

  function SizeOf(entry: Option<Entry>): nat {
    if entry.Some? then entry.value.size else 0
  }

  function Total(entries: seq<Option<Entry>>): nat {
    if entries == [] then 0 else Total(entries[..|entries| - 1]) + SizeOf(entries[|entries| - 1])
  }

  predicate AllFit(entries: seq<Option<Entry>>, expected: map<string, bool>) {
    forall i :: 0 <= i < |entries| ==> Fits(entries[i], expected)
  }

  predicate DistinctNames(entries: seq<Option<Entry>>) {
    forall i, j :: 0 <= i < j < |entries| ==> NameOf(entries[i]) != NameOf(entries[j])
  }

  function Names(entries: seq<Option<Entry>>): set<string> {
    set i | 0 <= i < |entries| :: NameOf(entries[i])
  }

  /** Where the binary is stored, all of its bytes are. */
  predicate BinaryReadable(entries: seq<Option<Entry>>, binary: string) {
    forall i :: 0 <= i < |entries| && NameOf(entries[i]) == binary && entries[i].Some? ==>
      entries[i].value.size <= |entries[i].value.data|
  }

  predicate AllZero(bytes: seq<char>) {
    forall i :: 0 <= i < |bytes| ==> bytes[i] == '\0'
  }

  /** The entries are the expected inventory, each name once, and the rest is padding, all within bounds. */
  predicate Acceptable(stream: Stream, expected: map<string, bool>, binary: string) {
    && AllFit(stream.entries, expected)
    && DistinctNames(stream.entries)
    && Names(stream.entries) == expected.Keys
    && Total(stream.entries) <= LIMIT
    && BinaryReadable(stream.entries, binary)
    && AllZero(stream.trailer)
    && stream.length < LIMIT + JSON_LIMIT
  }

  /** The bytes of the entry of that name. */
  function Payload(entries: seq<Option<Entry>>, binary: string): seq<char> {
    if entries == [] then [] else
    var last := entries[|entries| - 1];
    if NameOf(last) == binary && last.Some? && last.value.size <= |last.value.data|
    then last.value.data[..last.value.size]
    else Payload(entries[..|entries| - 1], binary)
  }

  // ---------------------------------------------------------------- the reader

  method TrailerIsZero(trailer: seq<char>) returns (ok: bool)
    ensures ok <==> AllZero(trailer)
  {
    var at := 0;
    while at < |trailer|
      invariant 0 <= at <= |trailer| && AllZero(trailer[..at])
    {
      var left := if |trailer| - at < CHUNK then |trailer| - at else CHUNK;
      var short: nat := *;
      var count := if 1 <= short <= left then short else left;
      if !AllZero(trailer[at..at + count]) {
        return false;
      }
      assert trailer[..at + count] == trailer[..at] + trailer[at..at + count];
      at := at + count;
    }
    assert trailer[..at] == trailer;
    return true;
  }

  /** Everything asked of a run of entries but that the inventory is complete. */
  predicate Good(entries: seq<Option<Entry>>, expected: map<string, bool>, binary: string) {
    AllFit(entries, expected) && DistinctNames(entries) && Total(entries) <= LIMIT && BinaryReadable(entries, binary)
  }

  /** What one more entry must satisfy. */
  predicate GoodNext(
    observed: set<string>, total: nat, entry: Option<Entry>, expected: map<string, bool>, binary: string)
  {
    && Fits(entry, expected) && NameOf(entry) !in observed && total + SizeOf(entry) <= LIMIT
    && (NameOf(entry) == binary ==> entry.value.size <= |entry.value.data|)
  }

  lemma GoodStep(entries: seq<Option<Entry>>, i: nat, expected: map<string, bool>, binary: string)
    requires i < |entries|
    ensures Good(entries[..i + 1], expected, binary) <==>
      && Good(entries[..i], expected, binary)
      && GoodNext(Names(entries[..i]), Total(entries[..i]), entries[i], expected, binary)
    ensures Names(entries[..i + 1]) == Names(entries[..i]) + {NameOf(entries[i])}
    ensures Total(entries[..i + 1]) == Total(entries[..i]) + SizeOf(entries[i])
  {
    var front, next := entries[..i], entries[..i + 1];
    assert next[..i] == front && next == front + [entries[i]];
    if Good(next, expected, binary) {
      assert next[i] == entries[i] && forall k :: 0 <= k < i ==> front[k] == next[k];
    }
  }

  lemma {:induction false} GoodPrefix(entries: seq<Option<Entry>>, i: nat, expected: map<string, bool>, binary: string)
    requires i <= |entries| && Good(entries, expected, binary)
    ensures Good(entries[..i], expected, binary)
    decreases |entries| - i
  {
    if i < |entries| {
      GoodPrefix(entries, i + 1, expected, binary);
      GoodStep(entries, i, expected, binary);
    } else {
      assert entries[..i] == entries;
    }
  }

  lemma {:induction false} NamesFit(entries: seq<Option<Entry>>, expected: map<string, bool>, binary: string)
    requires Good(entries, expected, binary)
    ensures Names(entries) <= expected.Keys && |Names(entries)| == |entries|
  {
    if entries != [] {
      var i := |entries| - 1;
      assert entries[..i + 1] == entries;
      GoodPrefix(entries, i, expected, binary);
      GoodStep(entries, i, expected, binary);
      NamesFit(entries[..i], expected, binary);
    }
  }

  /** Nothing is refused on the way through a good list. */
  lemma GoodAt(entries: seq<Option<Entry>>, i: nat, expected: map<string, bool>, binary: string)
    requires i < |entries| && Good(entries, expected, binary)
    ensures |Names(entries[..i])| < |expected|
    ensures GoodNext(Names(entries[..i]), Total(entries[..i]), entries[i], expected, binary)
  {
    GoodPrefix(entries, i + 1, expected, binary);
    GoodStep(entries, i, expected, binary);
    NamesFit(entries[..i + 1], expected, binary);
    NamesFit(entries[..i], expected, binary);
    assert |expected.Keys| == |expected|;
    SubsetSize(Names(entries[..i + 1]), expected.Keys);
  }

  lemma PayloadStep(entries: seq<Option<Entry>>, i: nat, binary: string)
    requires i < |entries|
    ensures Payload(entries[..i + 1], binary) ==
      if NameOf(entries[i]) == binary && entries[i].Some? && entries[i].value.size <= |entries[i].value.data|
      then entries[i].value.data[..entries[i].value.size] else Payload(entries[..i], binary)
  {
    assert entries[..i + 1][..i] == entries[..i] && entries[..i + 1][i] == entries[i];
  }

  /** Reads one entry: its name and its bytes if it is the binary. */
  method ReadEntry(entry: Option<Entry>, observed: set<string>, total: nat, expected: map<string, bool>, binary: string)
    returns (r: Result<(string, nat, Option<seq<char>>), Refusal>)
    ensures r.Ok? <==> |observed| < |expected| && GoodNext(observed, total, entry, expected, binary)
    ensures r.Ok? ==>
      r.value == (NameOf(entry), total + SizeOf(entry),
                  if NameOf(entry) == binary then Some(entry.value.data[..entry.value.size]) else None)
  {
    if entry.None? || |observed| >= |expected| {
      return Err(Refusal);
    }
    var path := EntryPath(entry.value.path);
    if path.None? {
      return Err(Refusal);
    }
    var name, kind, size := path.value, entry.value.kind, entry.value.size;
    if !(name in expected && if expected[name] then kind == Directory else kind == File) {
      return Err(Refusal);
    }
    if name in observed {
      return Err(Refusal);
    }
    if !(size <= LIMIT && if kind == Directory then size == 0 else size > 0) {
      return Err(Refusal);
    }
    if total + size > LIMIT {
      return Err(Refusal);
    }
    if name != binary {
      return Ok((name, total + size, None));
    }
    if size > |entry.value.data| {
      return Err(Refusal);
    }
    return Ok((name, total + size, Some(entry.value.data[..size])));
  }

  method ReadEntries(entries: seq<Option<Entry>>, expected: map<string, bool>, binary: string)
    returns (r: Result<seq<char>, Refusal>)
    ensures r.Ok? <==> Good(entries, expected, binary) && Names(entries) == expected.Keys
    ensures r.Ok? ==> r.value == Payload(entries, binary)
  {
    var observed: set<string>, total, payload := {}, 0, [];
    for i := 0 to |entries|
      invariant Good(entries[..i], expected, binary)
      invariant observed == Names(entries[..i]) && total == Total(entries[..i])
      invariant payload == Payload(entries[..i], binary)
    {
      GoodStep(entries, i, expected, binary);
      PayloadStep(entries, i, binary);
      var read := ReadEntry(entries[i], observed, total, expected, binary);
      if read.Err? {
        if Good(entries, expected, binary) {
          GoodAt(entries, i, expected, binary);
        }
        return Err(Refusal);
      }
      var (name, sum, bytes) := read.value;
      observed, total := observed + {name}, sum;
      if bytes.Some? {
        payload := bytes.value;
      }
    }
    assert entries[..|entries|] == entries;
    return if observed == expected.Keys then Ok(payload) else Err(Refusal);
  }

  method ExtractArchive(stream: Stream, version: string, target: string) returns (r: Result<seq<char>, Refusal>)
    ensures var expected, binary := Inventory(version, target), BinaryName(version, target);
      && (r.Ok? <==> Acceptable(stream, expected, binary))
      && (r.Ok? ==> r.value == Payload(stream.entries, binary))
  {
    var binary := BinaryName(version, target);
    r := ReadEntries(stream.entries, Inventory(version, target), binary);
    if r.Err? {
      return;
    }
    var zero := TrailerIsZero(stream.trailer);
    if !zero || stream.length >= LIMIT + JSON_LIMIT {
      return Err(Refusal);
    }
  }

  // ---------------------------------------------------------------- what acceptance means

  /** The payload of an accepted archive is all of the one entry that has the binary's name. */
  lemma {:induction false} PayloadIsBinary(
    entries: seq<Option<Entry>>, expected: map<string, bool>, binary: string, i: nat)
    requires Good(entries, expected, binary) && i < |entries| && NameOf(entries[i]) == binary
    ensures Payload(entries, binary) == entries[i].value.data[..entries[i].value.size]
    decreases |entries|
  {
    var last := |entries| - 1;
    if i < last {
      assert entries[..last][i] == entries[i];
      GoodPrefix(entries, last, expected, binary);
      PayloadIsBinary(entries[..last], expected, binary, i);
    }
  }

  lemma {:induction false} DistinctBySize(entries: seq<Option<Entry>>)
    ensures |Names(entries)| <= |entries|
    ensures DistinctNames(entries) <==> |Names(entries)| == |entries|
  {
    if entries != [] {
      var front, last := entries[..|entries| - 1], entries[|entries| - 1];
      DistinctBySize(front);
      DistinctStep(front, last);
      assert front + [last] == entries;
    }
  }

  lemma DistinctStep(front: seq<Option<Entry>>, last: Option<Entry>)
    ensures Names(front + [last]) == Names(front) + {NameOf(last)}
    ensures DistinctNames(front + [last]) <==> DistinctNames(front) && NameOf(last) !in Names(front)
  {
    var all := front + [last];
    assert forall i :: 0 <= i < |front| ==> all[i] == front[i];
    assert all[|front|] == last;
  }

  lemma {:induction false} TotalConcat(a: seq<Option<Entry>>, b: seq<Option<Entry>>)
    ensures Total(a + b) == Total(a) + Total(b)
  {
    if b == [] {
      assert a + b == a;
    } else {
      var front := b[..|b| - 1];
      assert (a + b)[..|a + b| - 1] == a + front;
      TotalConcat(a, front);
    }
  }

  lemma {:induction false} TotalPermuted(a: seq<Option<Entry>>, b: seq<Option<Entry>>)
    requires multiset(a) == multiset(b)
    ensures Total(a) == Total(b)
    decreases |a|
  {
    if a == [] {
      assert |multiset(b)| == 0;
    } else {
      var k := RemoveLast(a, b);
      TotalPermuted(a[..|a| - 1], b[..k] + b[k + 1..]);
      TotalConcat(b[..k], [b[k]] + b[k + 1..]);
      TotalConcat([b[k]], b[k + 1..]);
      TotalConcat(b[..k], b[k + 1..]);
      assert [b[k]][..0] == [];
    }
  }

  lemma SameElements(a: seq<Option<Entry>>, b: seq<Option<Entry>>)
    requires multiset(a) == multiset(b)
    ensures |a| == |b| && forall i :: 0 <= i < |a| ==> exists j :: 0 <= j < |b| && b[j] == a[i]
  {
    assert |multiset(a)| == |multiset(b)|;
    forall i | 0 <= i < |a| ensures exists j :: 0 <= j < |b| && b[j] == a[i] {
      assert a[i] in multiset(b);
    }
  }

  lemma NamesPermuted(a: seq<Option<Entry>>, b: seq<Option<Entry>>)
    requires multiset(a) == multiset(b)
    ensures Names(a) <= Names(b)
  {
    SameElements(a, b);
    forall i | 0 <= i < |a| ensures NameOf(a[i]) in Names(b) {
      var j :| 0 <= j < |b| && b[j] == a[i];
      assert NameOf(b[j]) in Names(b);
    }
  }

  lemma FitPermuted(a: seq<Option<Entry>>, b: seq<Option<Entry>>, expected: map<string, bool>, binary: string)
    requires multiset(a) == multiset(b) && AllFit(a, expected) && BinaryReadable(a, binary)
    ensures AllFit(b, expected) && BinaryReadable(b, binary)
  {
    SameElements(b, a);
    forall i | 0 <= i < |b|
      ensures Fits(b[i], expected)
      ensures NameOf(b[i]) == binary ==> b[i].value.size <= |b[i].value.data|
    {
      var j :| 0 <= j < |a| && a[j] == b[i];
      assert Fits(a[j], expected);
    }
  }

  lemma GoodPermuted(a: seq<Option<Entry>>, b: seq<Option<Entry>>, expected: map<string, bool>, binary: string)
    requires multiset(a) == multiset(b) && Good(a, expected, binary)
    ensures Good(b, expected, binary) && Names(a) == Names(b)
  {
    TotalPermuted(a, b);
    NamesPermuted(a, b);
    NamesPermuted(b, a);
    assert Names(a) == Names(b);
    SameElements(a, b);
    DistinctBySize(a);
    DistinctBySize(b);
    FitPermuted(a, b, expected, binary);
  }

  /** The order of the entries does not matter, neither to acceptance nor to the result. */
  lemma OrderIsFree(a: Stream, b: Stream, expected: map<string, bool>, binary: string)
    requires multiset(a.entries) == multiset(b.entries) && a.trailer == b.trailer && a.length == b.length
    requires binary in expected
    ensures Acceptable(a, expected, binary) <==> Acceptable(b, expected, binary)
    ensures Acceptable(a, expected, binary) ==> Payload(a.entries, binary) == Payload(b.entries, binary)
  {
    if Good(a.entries, expected, binary) {
      GoodPermuted(a.entries, b.entries, expected, binary);
    } else if Good(b.entries, expected, binary) {
      GoodPermuted(b.entries, a.entries, expected, binary);
    }
    if Acceptable(a, expected, binary) {
      PayloadPermuted(a.entries, b.entries, expected, binary);
    }
  }

  lemma PayloadPermuted(a: seq<Option<Entry>>, b: seq<Option<Entry>>, expected: map<string, bool>, binary: string)
    requires multiset(a) == multiset(b) && Good(a, expected, binary) && Good(b, expected, binary)
    requires binary in Names(a)
    ensures Payload(a, binary) == Payload(b, binary)
  {
    var i :| 0 <= i < |a| && NameOf(a[i]) == binary;
    SameElements(a, b);
    var j :| 0 <= j < |b| && b[j] == a[i];
    PayloadIsBinary(a, expected, binary, i);
    PayloadIsBinary(b, expected, binary, j);
  }

  // ---------------------------------------------------------------- the inventory's names are safe

  predicate Plain(s: string) {
    forall i :: 0 <= i < |s| ==> s[i] != '/' && s[i] != '\\'
  }

  lemma {:induction false} PartsPlain(s: string)
    requires Plain(s)
    ensures Parts(s) == [s]
  {
    if s != "" {
      PartsPlain(s[..|s| - 1]);
      assert s == s[..|s| - 1] + [s[|s| - 1]];
    }
  }

  /** A slash separates the parts before it from those after it. */
  lemma {:induction false} PartsConcat(a: string, b: string)
    ensures Parts(a + "/" + b) == Parts(a) + Parts(b)
    decreases |b|
  {
    if b == "" {
      assert a + "/" + b == a + ['/'];
    } else {
      var front, last := b[..|b| - 1], b[|b| - 1];
      PartsConcat(a, front);
      ExtendedConcat(Parts(a), Parts(front), last);
      AppendLast(a + "/", b);
    }
  }

  lemma AppendLast(a: string, b: string)
    requires b != ""
    ensures b == b[..|b| - 1] + [b[|b| - 1]]
    ensures a + b == a + b[..|b| - 1] + [b[|b| - 1]]
  {
  }

  /** The parts when one more character follows. */
  function Extended(parts: seq<string>, c: char): seq<string>
    requires parts != []
  {
    if c == '/' then parts + [""] else parts[..|parts| - 1] + [parts[|parts| - 1] + [c]]
  }

  lemma ExtendedConcat(x: seq<string>, y: seq<string>, c: char)
    requires y != []
    ensures Extended(x + y, c) == x + Extended(y, c)
  {
    assert (x + y)[..|x + y| - 1] == x + y[..|y| - 1] && (x + y)[|x + y| - 1] == y[|y| - 1];
  }

  /** A plain part that is no dot name. */
  predicate SafePart(part: string) {
    Plain(part) && part != "" && part != "." && part != ".."
  }

  lemma SafeOne(a: string)
    requires SafePart(a)
    ensures SafePath(a)
  {
    PartsPlain(a);
  }

  lemma SafeBelow(a: string, b: string)
    requires SafePart(a) && SafePath(b)
    ensures SafePath(a + "/" + b)
  {
    PartsPlain(a);
    PartsConcat(a, b);
    var s := a + "/" + b;
    forall i | 0 <= i < |Parts(s)| ensures Parts(s)[i] != "" && Parts(s)[i] != "." && Parts(s)[i] != ".." {
      if i > 0 {
        assert Parts(s)[i] == Parts(b)[i - 1];
      }
    }
  }

  lemma AssetIsSafe(name: string, tail: string)
    requires name == "assets/" + tail && SafePart(tail)
    ensures SafePath(name)
  {
    SafeOne("assets");
    SafeOne(tail);
    SafeBelow("assets", tail);
    assert "assets/" == "assets" + "/";
  }

  lemma ResourcesAreSafe()
    ensures forall name :: name in Elements(RESOURCES) ==> SafePath(name)
    ensures SafePath("domyjob") && SafePath("domyjob.exe") && SafePath("assets")
  {
    forall name | name in Elements(RESOURCES) ensures SafePath(name) {
      var i :| 0 <= i < |RESOURCES| && RESOURCES[i] == name;
      if i < 3 {
        SafeOne(RESOURCES[i]);
      } else {
        AssetIsSafe(name, RESOURCES[i][7..]);
      }
    }
    SafeOne("domyjob");
    SafeOne("domyjob.exe");
    SafeOne("assets");
  }

  /** For a version and a target without separators every inventory name is a safe path, so the path
      check refuses no archive that the inventory accepts. */
  lemma InventoryIsSafe(version: string, target: string)
    requires Plain(version) && Plain(target)
    ensures forall name :: name in Inventory(version, target) ==> SafePath(name)
    ensures BinaryName(version, target) in Inventory(version, target)
  {
    var package := PackageDirectory(version, target);
    assert package[0] == 'd' && SafePart(package);
    ResourcesAreSafe();
    SafeOne(package);
    SafeBelow(package, "domyjob");
    SafeBelow(package, "domyjob.exe");
    SafeBelow(package, "assets");
    assert package + "/assets" == package + "/" + "assets";
    forall name | name in Inventory(version, target) ensures SafePath(name) {
      if name != package && name != package + "/assets" && name != BinaryName(version, target) {
        var resource :| resource in Elements(RESOURCES) && name == package + "/" + resource;
        SafeBelow(package, resource);
      }
    }
  }
}
