/** Creating and inspecting a release handoff directory, `create_handoff` and `Handoff::inspect` of
  `xtask/src/release_queue.rs`.

  A file is its bytes, written as characters. The hash and the JSON text are functions of a `Codec`;
  a property that needs the hash to be injective, or the text to be read back, says so.
  */
module Handoff {

  import opened Collections
  import opened Limits
  import opened Wrappers
  import opened Wire

  const CHECKSUM_LIMIT := 512
  const MANIFEST := "manifest.json"
  const NOTARIZATION := "notarization"

  type Bytes = string

  /** A directory entry; `Special` is a link or a device. */
  datatype Node = Plain(bytes: Bytes) | Folder(entries: map<string, Node>) | Special

  type Directory = map<string, Node>

  datatype Codec = Codec(
    hash: Bytes -> string,
    readReceipt: Bytes -> Option<ReceiptWire>,
    readManifest: Bytes -> Option<ManifestWire>,
    writeManifest: ManifestWire -> Bytes)

  /** A written manifest is read back. */
  ghost predicate Faithful(codec: Codec) {
    forall w :: codec.readManifest(codec.writeManifest(w)) == Some(w) && codec.writeManifest(w) != ""
  }

  /** No file of one directory collides under the hash with the file of the same name in the other. */
  ghost predicate NoCollision(codec: Codec, a: Directory, b: Directory) {
    forall name :: name in a && name in b && a[name].Plain? && b[name].Plain? ==>
      codec.hash(a[name].bytes) == codec.hash(b[name].bytes) ==> a[name] == b[name]
  }

  // ---------------------------------------------------------------- inventories

  /** Whether an entry is of the kind expected under its name: a directory, a regular file, or nothing. */
  function Matches(node: Node, expected: Option<bool>): bool {
    match expected
    case None => false
    case Some(directory) => if directory then node.Folder? else node.Plain?
  }

  function Expected(expected: map<string, bool>, name: string): Option<bool> {
    if name in expected then Some(expected[name]) else None
  }

  /** The directory holds every expected name, with its kind, and no other. */
  predicate Exactly(dir: Directory, expected: map<string, bool>) {
    dir.Keys == expected.Keys && forall name :: name in dir ==> Matches(dir[name], Expected(expected, name))
  }

  /** `names` is any order in which the directory may list its entries. */
  method Inventory(dir: Directory, names: seq<string>, expected: map<string, bool>) returns (ok: bool)
    requires (set i | 0 <= i < |names| :: names[i]) == dir.Keys
    ensures ok <==> Exactly(dir, expected)
  {
    var observed: set<string> := {};
    for i := 0 to |names|
      invariant observed == set k | 0 <= k < i :: names[k]
      invariant forall k :: 0 <= k < i ==> Matches(dir[names[k]], Expected(expected, names[k]))
    {
      assert names[i] in dir.Keys;
      if !Matches(dir[names[i]], Expected(expected, names[i])) {
        return false;
      }
      observed := observed + {names[i]};
    }
    assert observed == dir.Keys;
    return observed == expected.Keys;
  }

  function ReceiptName(target: string): string {
    target + ".json"
  }

  function Checksum(name: string): string {
    name + ".sha256"
  }

  /** Each record's file and its checksum file. */
  function FilesOf(names: seq<string>): map<string, bool> {
    if names == [] then map[] else FilesOf(names[1..])[Checksum(names[0]) := false][names[0] := false]
  }

  function ArchiveNames(source: Source, targets: seq<string>): seq<string> {
    seq(|targets|, i requires 0 <= i < |targets| => ArchiveName(source, targets[i]))
  }

  function PackageNames(source: Source, targets: seq<string>): seq<string> {
    seq(|targets|, i requires 0 <= i < |targets| => PackageName(source, targets[i]))
  }

  function RecordNames(source: Source, packages: bool): seq<string> {
    ArchiveNames(source, TARGETS) + if packages then PackageNames(source, MAC_TARGETS) else []
  }

  function HandoffNames(source: Source, manifest: bool, packages: bool): map<string, bool> {
    var files := map[NOTARIZATION := true] + FilesOf(RecordNames(source, packages));
    if manifest then files[MANIFEST := false] else files
  }

  function ReceiptNames(): map<string, bool> {
    map[ReceiptName(MAC_TARGETS[0]) := false, ReceiptName(MAC_TARGETS[1]) := false]
  }

  predicate NotarizationExactly(dir: Directory) {
    && NOTARIZATION in dir && dir[NOTARIZATION].Folder?
    && Exactly(dir[NOTARIZATION].entries, ReceiptNames())
  }

  predicate HandoffExactly(dir: Directory, source: Source, manifest: bool, packages: bool) {
    Exactly(dir, HandoffNames(source, manifest, packages)) && NotarizationExactly(dir)
  }

  // ---------------------------------------------------------------- reading files

  /** A bounded regular file that is not empty. */
  function ReadBounded(dir: Directory, name: string, limit: nat): Option<Bytes> {
    if name in dir && dir[name].Plain? && 0 < |dir[name].bytes| <= limit then Some(dir[name].bytes) else None
  }

  function ChecksumLine(hash: string, name: string): Bytes {
    hash + "  " + name + "\n"
  }

  function InspectRecord(codec: Codec, dir: Directory, name: string, target: string): Option<Record> {
    match (ReadBounded(dir, name, LIMIT), ReadBounded(dir, Checksum(name), CHECKSUM_LIMIT))
    case (Some(bytes), Some(checksum)) =>
      var hash := codec.hash(bytes);
      if checksum == ChecksumLine(hash, name) then Some(Record(target, name, hash)) else None
    case _ => None
  }

  function LoadReceipt(codec: Codec, dir: Directory, source: Source, target: string): Option<Receipt> {
    if !(NOTARIZATION in dir && dir[NOTARIZATION].Folder?) then None else
    match ReadBounded(dir[NOTARIZATION].entries, ReceiptName(target), JSON_LIMIT)
    case None => None
    case Some(bytes) =>
      match codec.readReceipt(bytes)
      case None => None
      case Some(wire) =>
        match ReadReceipt(wire)
        case Err(_) => None
        case Ok(receipt) => if receipt.source == source && receipt.target == target then Some(receipt) else None
  }

  function LoadManifest(codec: Codec, dir: Directory): Option<Manifest> {
    match ReadBounded(dir, MANIFEST, JSON_LIMIT)
    case None => None
    case Some(bytes) =>
      match codec.readManifest(bytes)
      case None => None
      case Some(wire) =>
        match ReadManifest(wire)
        case Err(_) => None
        case Ok(manifest) => Some(manifest)
  }

  // ---------------------------------------------------------------- create and inspect

  function Archives(codec: Codec, dir: Directory, source: Source, targets: seq<string>): Option<seq<Record>> {
    if targets == [] then Some([]) else
    var name := ArchiveName(source, targets[0]);
    match (InspectRecord(codec, dir, name, targets[0]), Archives(codec, dir, source, targets[1..]))
    case (Some(record), Some(rest)) => Some([record] + rest)
    case _ => None
  }

  function Packages(codec: Codec, dir: Directory, source: Source, targets: seq<string>): Option<seq<Record>> {
    if targets == [] then Some([]) else
    var name := PackageName(source, targets[0]);
    match (InspectRecord(codec, dir, name, targets[0]), Packages(codec, dir, source, targets[1..]))
    case (Some(record), Some(rest)) => Some([record] + rest)
    case _ => None
  }

  /** The manifest of a directory whose two receipts are these. */
  function Assemble(codec: Codec, dir: Directory, source: Source, first: Receipt, second: Receipt): Option<Manifest> {
    var modern := first.package.Some? || second.package.Some?;
    if first.package.Some? != modern || second.package.Some? != modern then None
    else if !HandoffExactly(dir, source, false, modern) then None
    else
      var submitted := if modern then Packages(codec, dir, source, MAC_TARGETS) else Some([]);
      var schema := if modern then 2 else 1;
      match (Archives(codec, dir, source, TARGETS), submitted)
      case (Some(archives), Some(packages)) =>
        (match TakeManifest(ManifestInput(schema, REPOSITORY, source, archives, packages, [first, second]))
         case Err(_) => None
         case Ok(manifest) => Some(manifest))
      case _ => None
  }

  /** What a directory without a manifest would have in it, if it is a complete handoff. */
  function Gather(codec: Codec, dir: Directory, source: Source): Option<Manifest> {
    if !NotarizationExactly(dir) then None else
    match (LoadReceipt(codec, dir, source, MAC_TARGETS[0]), LoadReceipt(codec, dir, source, MAC_TARGETS[1]))
    case (Some(first), Some(second)) => Assemble(codec, dir, source, first, second)
    case _ => None
  }

  /** The manifest of a directory and the directory with that manifest stored. */
  function CreateHandoff(codec: Codec, dir: Directory, source: Source): Option<(Manifest, Directory)> {
    match Gather(codec, dir, source)
    case None => None
    case Some(manifest) =>
      var text := codec.writeManifest(WriteManifest(manifest));
      if MANIFEST in dir || |text| > JSON_LIMIT then None else Some((manifest, dir[MANIFEST := Plain(text)]))
  }

  predicate RecordStands(codec: Codec, dir: Directory, name: string, record: Record) {
    InspectRecord(codec, dir, name, record.target) == Some(record)
  }

  predicate ArchivesHold(codec: Codec, dir: Directory, source: Source, archives: seq<Record>) {
    forall i :: 0 <= i < |archives| ==> RecordStands(codec, dir, ArchiveName(source, archives[i].target), archives[i])
  }

  predicate PackagesHold(codec: Codec, dir: Directory, packages: seq<Record>) {
    forall i :: 0 <= i < |packages| ==> RecordStands(codec, dir, packages[i].archive, packages[i])
  }

  predicate ReceiptsHold(codec: Codec, dir: Directory, source: Source, receipts: seq<Receipt>) {
    forall i :: 0 <= i < |receipts| ==> LoadReceipt(codec, dir, source, receipts[i].target) == Some(receipts[i])
  }

  /** Every file the manifest records is in the directory, as recorded. */
  predicate Stands(codec: Codec, dir: Directory, source: Source, m: Manifest) {
    && m.source == source
    && ArchivesHold(codec, dir, source, m.archives)
    && PackagesHold(codec, dir, m.packages)
    && ReceiptsHold(codec, dir, source, m.notarizations)
  }

  /** The manifest of the directory, if everything in the directory is what it says. */
  function Inspect(codec: Codec, dir: Directory, source: Source): Option<Manifest> {
    match LoadManifest(codec, dir)
    case None => None
    case Some(m) =>
      if HandoffExactly(dir, source, true, m.packages != []) && Stands(codec, dir, source, m) then Some(m) else None
  }

  // ---------------------------------------------------------------- what was written is accepted

  lemma {:induction false} ArchivesStand(codec: Codec, dir: Directory, source: Source, targets: seq<string>)
    requires Archives(codec, dir, source, targets).Some?
    ensures ArchivesHold(codec, dir, source, Archives(codec, dir, source, targets).value)
  {
    if targets != [] {
      ArchivesStand(codec, dir, source, targets[1..]);
    }
  }

  lemma {:induction false} PackagesStand(codec: Codec, dir: Directory, source: Source, targets: seq<string>)
    requires Packages(codec, dir, source, targets).Some?
    ensures PackagesHold(codec, dir, Packages(codec, dir, source, targets).value)
  {
    if targets != [] {
      PackagesStand(codec, dir, source, targets[1..]);
    }
  }

  lemma PairHolds(codec: Codec, dir: Directory, source: Source, targets: seq<string>, receipts: seq<Receipt>)
    requires |targets| == 2 && |receipts| == 2
    requires LoadReceipt(codec, dir, source, targets[0]) == Some(receipts[0])
    requires LoadReceipt(codec, dir, source, targets[1]) == Some(receipts[1])
    ensures ReceiptsHold(codec, dir, source, receipts)
  {
    ReceiptIsLoaded(codec, dir, source, targets[0], receipts[0]);
    ReceiptIsLoaded(codec, dir, source, targets[1], receipts[1]);
    forall i | 0 <= i < |receipts|
      ensures LoadReceipt(codec, dir, source, receipts[i].target) == Some(receipts[i])
    {
      if i == 0 {
        assert receipts[i] == receipts[0];
      } else {
        assert receipts[i] == receipts[1];
      }
    }
  }

  lemma ReceiptIsLoaded(codec: Codec, dir: Directory, source: Source, target: string, receipt: Receipt)
    requires LoadReceipt(codec, dir, source, target) == Some(receipt)
    ensures receipt.target == target && ValidReceipt(receipt)
  {
  }

  /** Storing the manifest, under a name nothing had, disturbs no other file. */
  lemma StoredManifest(codec: Codec, dir: Directory, source: Source, packages: bool, text: Bytes)
    requires MANIFEST !in dir && HandoffExactly(dir, source, false, packages)
    ensures HandoffExactly(dir[MANIFEST := Plain(text)], source, true, packages)
    ensures forall name, target :: InspectRecord(codec, dir, name, target).Some? ==>
      InspectRecord(codec, dir[MANIFEST := Plain(text)], name, target) == InspectRecord(codec, dir, name, target)
    ensures forall target :: LoadReceipt(codec, dir[MANIFEST := Plain(text)], source, target)
                          == LoadReceipt(codec, dir, source, target)
  {
    var names, stored := HandoffNames(source, false, packages), dir[MANIFEST := Plain(text)];
    assert HandoffNames(source, true, packages) == names[MANIFEST := false];
    assert stored.Keys == names[MANIFEST := false].Keys;
    assert NOTARIZATION != MANIFEST by {
      assert NOTARIZATION in dir;
    }
  }

  lemma GatheredStands(codec: Codec, dir: Directory, source: Source)
    requires Gather(codec, dir, source).Some?
    ensures var m := Gather(codec, dir, source).value;
      ValidManifest(m) && HandoffExactly(dir, source, false, m.packages != []) && Stands(codec, dir, source, m)
  {
    var m := Gather(codec, dir, source).value;
    GatheredIsRead(codec, dir, source);
    ArchivesStand(codec, dir, source, TARGETS);
    if m.packages != [] {
      PackagesStand(codec, dir, source, MAC_TARGETS);
    }
    PairHolds(codec, dir, source, MAC_TARGETS, m.notarizations);
  }

  lemma GatheredIsRead(codec: Codec, dir: Directory, source: Source)
    requires Gather(codec, dir, source).Some?
    ensures var m := Gather(codec, dir, source).value;
      && ValidManifest(m) && m.source == source && HandoffExactly(dir, source, false, m.packages != [])
      && |m.notarizations| == 2
      && LoadReceipt(codec, dir, source, MAC_TARGETS[0]) == Some(m.notarizations[0])
      && LoadReceipt(codec, dir, source, MAC_TARGETS[1]) == Some(m.notarizations[1])
      && Archives(codec, dir, source, TARGETS) == Some(m.archives)
      && (m.packages != [] ==> Packages(codec, dir, source, MAC_TARGETS) == Some(m.packages))
  {
    var first := LoadReceipt(codec, dir, source, MAC_TARGETS[0]).value;
    var second := LoadReceipt(codec, dir, source, MAC_TARGETS[1]).value;
    ReceiptIsLoaded(codec, dir, source, MAC_TARGETS[0], first);
    ReceiptIsLoaded(codec, dir, source, MAC_TARGETS[1], second);
    AssembledIsRead(codec, dir, source, first, second);
  }

  lemma AssembledIsRead(codec: Codec, dir: Directory, source: Source, first: Receipt, second: Receipt)
    requires Assemble(codec, dir, source, first, second).Some? && ValidReceipt(first) && ValidReceipt(second)
    ensures var m := Assemble(codec, dir, source, first, second).value;
      && ValidManifest(m) && m.source == source && HandoffExactly(dir, source, false, m.packages != [])
      && m.notarizations == [first, second]
      && Archives(codec, dir, source, TARGETS) == Some(m.archives)
      && (m.packages != [] ==> Packages(codec, dir, source, MAC_TARGETS) == Some(m.packages))
  {
  }

  lemma StandsStored(codec: Codec, dir: Directory, source: Source, m: Manifest, text: Bytes)
    requires MANIFEST !in dir && HandoffExactly(dir, source, false, m.packages != []) && Stands(codec, dir, source, m)
    ensures var stored := dir[MANIFEST := Plain(text)];
      HandoffExactly(stored, source, true, m.packages != []) && Stands(codec, stored, source, m)
  {
    StoredManifest(codec, dir, source, m.packages != [], text);
  }

  /** A directory just written by `CreateHandoff` is accepted, with the same manifest. */
  lemma CreatedIsAccepted(codec: Codec, dir: Directory, source: Source)
    requires Faithful(codec) && CreateHandoff(codec, dir, source).Some?
    ensures var (m, stored) := CreateHandoff(codec, dir, source).value;
      ValidManifest(m) && Inspect(codec, stored, source) == Some(m)
  {
    var m := Gather(codec, dir, source).value;
    var text := codec.writeManifest(WriteManifest(m));
    GatheredStands(codec, dir, source);
    StandsStored(codec, dir, source, m, text);
    LoadsStored(codec, dir, m);
  }

  lemma LoadsStored(codec: Codec, dir: Directory, m: Manifest)
    requires Faithful(codec) && ValidManifest(m) && |codec.writeManifest(WriteManifest(m))| <= JSON_LIMIT
    ensures LoadManifest(codec, dir[MANIFEST := Plain(codec.writeManifest(WriteManifest(m)))]) == Some(m)
  {
    ManifestsAreExact(m, WriteManifest(m));
  }

  // ---------------------------------------------------------------- what is accepted was written

  /** The same files: equal bytes for every archive, package and checksum, and JSON files that are read
      as the same receipts and the same manifest. */
  ghost predicate SameHandoff(codec: Codec, a: Directory, b: Directory, source: Source) {
    && a.Keys == b.Keys
    && (forall name :: name in a && name != NOTARIZATION && name != MANIFEST ==> a[name] == b[name])
    && NotarizationExactly(a) && NotarizationExactly(b)
    && (forall target :: target in MAC_TARGETS ==>
          LoadReceipt(codec, a, source, target) == LoadReceipt(codec, b, source, target))
    && LoadManifest(codec, a) == LoadManifest(codec, b)
  }

  lemma {:induction false} FilesOfNames(names: seq<string>, file: string)
    requires file in FilesOf(names)
    ensures exists i :: 0 <= i < |names| && (file == names[i] || file == Checksum(names[i]))
    ensures FilesOf(names)[file] == false
  {
    if file != names[0] && file != Checksum(names[0]) {
      FilesOfNames(names[1..], file);
      var i :| 0 <= i < |names[1..]| && (file == names[1..][i] || file == Checksum(names[1..][i]));
      assert names[i + 1] == names[1..][i];
    }
  }

  lemma RecordFor(records: seq<Record>, targets: seq<string>, target: string) returns (i: nat)
    requires RecordTargets(records) == Elements(targets) && target in targets
    ensures i < |records| && records[i].target == target
  {
    var k :| 0 <= k < |targets| && targets[k] == target;
    assert target in Elements(targets);
    i :| 0 <= i < |records| && records[i].target == target;
  }

  /** Every name of a handoff but the receipts and the manifest belongs to a record of its manifest. */
  lemma NameHasRecord(source: Source, m: Manifest, file: string) returns (name: string, record: Record)
    requires ValidManifest(m) && m.source == source
    requires file in HandoffNames(source, true, m.packages != []) && file != NOTARIZATION && file != MANIFEST
    ensures file == name || file == Checksum(name)
    ensures (record in m.archives && name == ArchiveName(source, record.target))
         || (record in m.packages && name == record.archive)
  {
    var names := RecordNames(source, m.packages != []);
    FilesOfNames(names, file);
    var i :| 0 <= i < |names| && (file == names[i] || file == Checksum(names[i]));
    name := names[i];
    record := NamedRecord(source, m, i);
  }

  lemma NamedRecord(source: Source, m: Manifest, i: nat) returns (record: Record)
    requires ValidManifest(m) && m.source == source && i < |RecordNames(source, m.packages != [])|
    ensures var name := RecordNames(source, m.packages != [])[i];
      || (record in m.archives && name == ArchiveName(source, record.target))
      || (record in m.packages && name == record.archive)
  {
    if i < |TARGETS| {
      var k := RecordFor(m.archives, TARGETS, TARGETS[i]);
      record := m.archives[k];
    } else {
      var k := RecordFor(m.packages, MAC_TARGETS, MAC_TARGETS[i - |TARGETS|]);
      record := m.packages[k];
    }
  }

  lemma StandsFor(codec: Codec, dir: Directory, source: Source, m: Manifest, name: string, record: Record)
    requires ValidManifest(m) && Stands(codec, dir, source, m)
    requires (record in m.archives && name == ArchiveName(source, record.target))
          || (record in m.packages && name == record.archive)
    ensures RecordStands(codec, dir, name, record)
  {
  }

  lemma ReceiptsStand(codec: Codec, dir: Directory, source: Source, m: Manifest, target: string) returns (i: nat)
    requires ValidManifest(m) && Stands(codec, dir, source, m) && target in MAC_TARGETS
    ensures i < |m.notarizations| && m.notarizations[i].target == target
    ensures LoadReceipt(codec, dir, source, target) == Some(m.notarizations[i])
  {
    var k :| 0 <= k < |MAC_TARGETS| && MAC_TARGETS[k] == target;
    assert target in Elements(MAC_TARGETS);
    i :| 0 <= i < |m.notarizations| && m.notarizations[i].target == target;
  }

  /** Two directories accepted under one manifest hold the same files. */
  lemma AcceptedAlike(codec: Codec, a: Directory, b: Directory, source: Source, m: Manifest)
    requires NoCollision(codec, a, b) && ValidManifest(m)
    requires Inspect(codec, a, source) == Some(m) && Inspect(codec, b, source) == Some(m)
    ensures SameHandoff(codec, a, b, source)
  {
    forall file | file in a && file != NOTARIZATION && file != MANIFEST ensures a[file] == b[file] {
      FileAlike(codec, a, b, source, m, file);
    }
    forall target | target in MAC_TARGETS
      ensures LoadReceipt(codec, a, source, target) == LoadReceipt(codec, b, source, target)
    {
      ReceiptAlike(codec, a, b, source, m, target);
    }
  }

  lemma FileAlike(codec: Codec, a: Directory, b: Directory, source: Source, m: Manifest, file: string)
    requires NoCollision(codec, a, b) && ValidManifest(m) && m.source == source
    requires Stands(codec, a, source, m) && Stands(codec, b, source, m)
    requires file in HandoffNames(source, true, m.packages != []) && file != NOTARIZATION && file != MANIFEST
    ensures file in a && file in b && a[file] == b[file]
  {
    var name, record := NameHasRecord(source, m, file);
    StandsFor(codec, a, source, m, name, record);
    StandsFor(codec, b, source, m, name, record);
  }

  lemma ReceiptAlike(codec: Codec, a: Directory, b: Directory, source: Source, m: Manifest, target: string)
    requires ValidManifest(m) && target in MAC_TARGETS
    requires Stands(codec, a, source, m) && Stands(codec, b, source, m)
    ensures LoadReceipt(codec, a, source, target) == LoadReceipt(codec, b, source, target)
  {
    var i := ReceiptsStand(codec, a, source, m, target);
    assert LoadReceipt(codec, b, source, m.notarizations[i].target) == Some(m.notarizations[i]);
  }

  /** A directory with the same files as an accepted one is accepted, with the same manifest. */
  lemma AlikeAccepted(codec: Codec, a: Directory, b: Directory, source: Source, m: Manifest)
    requires ValidManifest(m) && Inspect(codec, b, source) == Some(m) && SameHandoff(codec, a, b, source)
    ensures Inspect(codec, a, source) == Some(m)
  {
    ArchivesAlike(codec, a, b, source, m);
    PackagesAlike(codec, a, b, source, m);
    ReceiptsAlike(codec, a, b, source, m);
  }

  lemma RecordAlike(codec: Codec, a: Directory, b: Directory, source: Source, name: string, record: Record)
    requires SameHandoff(codec, a, b, source) && RecordStands(codec, b, name, record)
    requires name != MANIFEST && Checksum(name) != MANIFEST
    ensures RecordStands(codec, a, name, record)
  {
  }

  lemma ArchivesAlike(codec: Codec, a: Directory, b: Directory, source: Source, m: Manifest)
    requires SameHandoff(codec, a, b, source) && ArchivesHold(codec, b, source, m.archives)
    ensures ArchivesHold(codec, a, source, m.archives)
  {
    forall i | 0 <= i < |m.archives|
      ensures RecordStands(codec, a, ArchiveName(source, m.archives[i].target), m.archives[i])
    {
      ArchiveIsNoManifest(source, m.archives[i].target);
      RecordAlike(codec, a, b, source, ArchiveName(source, m.archives[i].target), m.archives[i]);
    }
  }

  lemma PackagesAlike(codec: Codec, a: Directory, b: Directory, source: Source, m: Manifest)
    requires ValidManifest(m) && m.source == source
    requires SameHandoff(codec, a, b, source) && PackagesHold(codec, b, m.packages)
    ensures PackagesHold(codec, a, m.packages)
  {
    forall i | 0 <= i < |m.packages| ensures RecordStands(codec, a, m.packages[i].archive, m.packages[i]) {
      ArchiveIsNoManifest(source, m.packages[i].target);
      RecordAlike(codec, a, b, source, m.packages[i].archive, m.packages[i]);
    }
  }

  lemma ReceiptsAlike(codec: Codec, a: Directory, b: Directory, source: Source, m: Manifest)
    requires ValidManifest(m)
    requires SameHandoff(codec, a, b, source) && ReceiptsHold(codec, b, source, m.notarizations)
    ensures ReceiptsHold(codec, a, source, m.notarizations)
  {
    forall i | 0 <= i < |m.notarizations|
      ensures LoadReceipt(codec, a, source, m.notarizations[i].target) == Some(m.notarizations[i])
    {
      assert m.notarizations[i].target in ReceiptTargets(m.notarizations);
    }
  }

  lemma ArchiveIsNoManifest(source: Source, target: string)
    ensures ArchiveName(source, target) != MANIFEST && Checksum(ArchiveName(source, target)) != MANIFEST
    ensures PackageName(source, target) != MANIFEST && Checksum(PackageName(source, target)) != MANIFEST
  {
    assert ArchiveName(source, target)[0] == 'd' && Checksum(ArchiveName(source, target))[0] == 'd';
    assert PackageName(source, target)[0] == 'd' && Checksum(PackageName(source, target))[0] == 'd';
    assert MANIFEST[0] == 'm';
  }

  /** Under the manifest of a created handoff exactly the directories with its files are accepted,
      unless one of their files collides with the recorded one. */
  lemma AcceptedExactly(codec: Codec, dir: Directory, source: Source, other: Directory)
    requires Faithful(codec) && CreateHandoff(codec, dir, source).Some?
    requires NoCollision(codec, other, CreateHandoff(codec, dir, source).value.1)
    ensures var (m, stored) := CreateHandoff(codec, dir, source).value;
      Inspect(codec, other, source) == Some(m) <==> SameHandoff(codec, other, stored, source)
  {
    var (m, stored) := CreateHandoff(codec, dir, source).value;
    CreatedIsAccepted(codec, dir, source);
    if Inspect(codec, other, source) == Some(m) {
      AcceptedAlike(codec, other, stored, source, m);
    }
    if SameHandoff(codec, other, stored, source) {
      AlikeAccepted(codec, other, stored, source, m);
    }
  }
}
