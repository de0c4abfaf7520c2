/** Notarization receipts and handoff manifests of `xtask/src/release_queue.rs`: the validated values
  and the wire records they are read from and written to.
  */
module Wire {

  import opened Collections
  import opened Wrappers

  const REPOSITORY := "P4suta/domyjob"
  const IDENTIFIER := "io.github.p4suta.domyjob"
  const MAC_TARGETS := ["aarch64-apple-darwin", "x86_64-apple-darwin"]
  const TARGETS := [
    "x86_64-unknown-linux-gnu", "aarch64-unknown-linux-gnu", "aarch64-apple-darwin", "x86_64-apple-darwin",
    "x86_64-pc-windows-msvc"]

  /** An original run whose claims have been validated. */
  datatype Source = Source(sha: string, run: nat, attempt: nat, reference: string, event: string, version: string)

  datatype Refusal = Refusal

  predicate HexDigit(c: char) {
    '0' <= c <= '9' || 'a' <= c <= 'f'
  }

  predicate Hex(s: string, length: nat) {
    |s| == length && forall i :: 0 <= i < |s| ==> HexDigit(s[i])
  }

  predicate Uuid(s: string) {
    && |s| == 36
    && (forall i :: 0 <= i < 36 ==> if i == 8 || i == 13 || i == 18 || i == 23 then s[i] == '-' else HexDigit(s[i]))
    && s != "00000000-0000-0000-0000-000000000000"
  }

  // ---------------------------------------------------------------- receipts

  datatype Package = Package(sha256: string, installer: string, identifier: string)

  datatype Receipt = Receipt(
    source: Source, target: string, submission: string, binary: string, submitted: string, signing: string,
    cdhash: string, package: Option<Package>)

  /** The record on the wire. Schema 1 names the submitted hash as a ZIP's, schema 2 as a package's. */
  datatype ReceiptWire = ReceiptWire(
    schema: nat, source: Source, target: string, submission: string, binary: string,
    submittedZip: Option<string>, submitted: Option<string>, signing: string, cdhash: string,
    package: Option<Package>)

  predicate ValidPackage(package: Package, submitted: string, signing: string) {
    && Hex(package.sha256, 64) && package.sha256 == submitted
    && Hex(package.installer, 40) && package.installer != signing
    && package.identifier == IDENTIFIER
  }

  predicate ValidReceipt(r: Receipt) {
    && r.target in MAC_TARGETS
    && Uuid(r.submission)
    && Hex(r.binary, 64) && Hex(r.submitted, 64)
    && Hex(r.signing, 40) && Hex(r.cdhash, 40)
    && (r.package.Some? ==> ValidPackage(r.package.value, r.submitted, r.signing))
  }

  function NewReceipt(claims: Receipt): Result<Receipt, Refusal> {
    if ValidReceipt(claims) then Ok(claims) else Err(Refusal)
  }

  /** The submitted hash, if the schema and the optional fields agree. */
  function Submitted(w: ReceiptWire): Option<string> {
    match (w.submittedZip, w.submitted, w.package)
    case (Some(hash), None, None) => if w.schema == 1 then Some(hash) else None
    case (None, Some(hash), Some(_)) => if w.schema == 2 then Some(hash) else None
    case _ => None
  }

  function ReadReceipt(w: ReceiptWire): Result<Receipt, Refusal> {
    match Submitted(w)
    case None => Err(Refusal)
    case Some(hash) =>
      NewReceipt(Receipt(w.source, w.target, w.submission, w.binary, hash, w.signing, w.cdhash, w.package))
  }

  function WriteReceipt(r: Receipt): ReceiptWire {
    var modern := r.package.Some?;
    ReceiptWire(
      if modern then 2 else 1, r.source, r.target, r.submission, r.binary,
      if modern then None else Some(r.submitted), if modern then Some(r.submitted) else None,
      r.signing, r.cdhash, r.package)
  }

  /** Reading undoes writing on every validated receipt, and writing undoes reading on every accepted record. */
  lemma ReceiptsAreExact(r: Receipt, w: ReceiptWire)
    ensures ValidReceipt(r) <==> ReadReceipt(WriteReceipt(r)) == Ok(r)
    ensures ReadReceipt(w) == Ok(r) <==> ValidReceipt(r) && WriteReceipt(r) == w
  {
    if ReadReceipt(w) == Ok(r) {
      assert Submitted(w) == Some(r.submitted);
    }
  }

  // ---------------------------------------------------------------- manifests

  datatype Record = Record(target: string, archive: string, sha256: string)

  datatype Manifest = Manifest(
    source: Source, archives: seq<Record>, packages: seq<Record>, notarizations: seq<Receipt>)

  /** The record on the wire, and the record once its receipts have been read. */
  datatype ManifestWire = ManifestWire(
    schema: nat, repository: string, source: Source, archives: seq<Record>, packages: seq<Record>,
    notarizations: seq<ReceiptWire>)

  datatype ManifestInput = ManifestInput(
    schema: nat, repository: string, source: Source, archives: seq<Record>, packages: seq<Record>,
    notarizations: seq<Receipt>)

  function ArchiveName(source: Source, target: string): string {
    "domyjob-" + source.version + "-" + target + ".tar.gz"
  }

  function PackageName(source: Source, target: string): string {
    "domyjob-" + source.version + "-" + target + ".pkg"
  }

  function RecordTargets(records: seq<Record>): set<string> {
    set i | 0 <= i < |records| :: records[i].target
  }

  function ReceiptTargets(receipts: seq<Receipt>): set<string> {
    set i | 0 <= i < |receipts| :: receipts[i].target
  }

  /** Some receipt for the package's target claims the package's digest. */
  predicate Claimed(package: Record, receipts: seq<Receipt>) {
    exists i :: 0 <= i < |receipts| && receipts[i].target == package.target
             && receipts[i].package.Some? && receipts[i].package.value.sha256 == package.sha256
  }

  predicate PackagesAgree(modern: bool, source: Source, packages: seq<Record>, receipts: seq<Receipt>) {
    && (forall i :: 0 <= i < |receipts| ==> receipts[i].package.Some? == modern)
    && (if modern then |packages| == |MAC_TARGETS| && RecordTargets(packages) == Elements(MAC_TARGETS)
        else packages == [])
    && (forall i :: 0 <= i < |packages| ==>
          packages[i].archive == PackageName(source, packages[i].target) && Claimed(packages[i], receipts))
  }

  predicate PartsAgree(source: Source, archives: seq<Record>, receipts: seq<Receipt>) {
    && |archives| == |TARGETS| && RecordTargets(archives) == Elements(TARGETS)
    && (forall i :: 0 <= i < |archives| ==>
          archives[i].archive == ArchiveName(source, archives[i].target) && Hex(archives[i].sha256, 64))
    && |receipts| == |MAC_TARGETS| && ReceiptTargets(receipts) == Elements(MAC_TARGETS)
    && (forall i :: 0 <= i < |receipts| ==> receipts[i].source == source)
  }

  predicate Consistent(m: Manifest) {
    && PartsAgree(m.source, m.archives, m.notarizations)
    && PackagesAgree(m.packages != [], m.source, m.packages, m.notarizations)
  }

  predicate AllValid(receipts: seq<Receipt>) {
    forall i :: 0 <= i < |receipts| ==> ValidReceipt(receipts[i])
  }

  predicate ValidManifest(m: Manifest) {
    Consistent(m) && AllValid(m.notarizations)
  }

  /** The checks of a manifest whose receipts have been read. */
  function TakeManifest(w: ManifestInput): Result<Manifest, Refusal> {
    if (w.schema == 1 || w.schema == 2) && w.repository == REPOSITORY
       && PartsAgree(w.source, w.archives, w.notarizations)
       && PackagesAgree(w.schema == 2, w.source, w.packages, w.notarizations)
    then Ok(Manifest(w.source, w.archives, w.packages, w.notarizations))
    else Err(Refusal)
  }

  function GiveManifest(m: Manifest): ManifestInput {
    ManifestInput(if m.packages == [] then 1 else 2, REPOSITORY, m.source, m.archives, m.packages, m.notarizations)
  }

  function ReadReceipts(ws: seq<ReceiptWire>): Result<seq<Receipt>, Refusal> {
    if ws == [] then Ok([]) else
    match (ReadReceipt(ws[0]), ReadReceipts(ws[1..]))
    case (Ok(first), Ok(rest)) => Ok([first] + rest)
    case _ => Err(Refusal)
  }

  function WriteReceipts(rs: seq<Receipt>): seq<ReceiptWire> {
    if rs == [] then [] else [WriteReceipt(rs[0])] + WriteReceipts(rs[1..])
  }

  lemma {:induction false} ReceiptListsAreExact(rs: seq<Receipt>, ws: seq<ReceiptWire>)
    ensures ReadReceipts(ws) == Ok(rs) <==> AllValid(rs) && WriteReceipts(rs) == ws
  {
    if rs != [] && ws != [] {
      ReceiptsAreExact(rs[0], ws[0]);
      ReceiptListsAreExact(rs[1..], ws[1..]);
      assert AllValid(rs) <==> ValidReceipt(rs[0]) && AllValid(rs[1..]) by {
        assert rs == [rs[0]] + rs[1..];
      }
    }
  }

  function ReadManifest(w: ManifestWire): Result<Manifest, Refusal> {
    match ReadReceipts(w.notarizations)
    case Err(e) => Err(e)
    case Ok(receipts) =>
      TakeManifest(ManifestInput(w.schema, w.repository, w.source, w.archives, w.packages, receipts))
  }

  function WriteManifest(m: Manifest): ManifestWire {
    var w := GiveManifest(m);
    ManifestWire(w.schema, w.repository, w.source, w.archives, w.packages, WriteReceipts(w.notarizations))
  }

  /** Reading undoes writing on every validated manifest, and writing undoes reading on every accepted record. */
  lemma ManifestsAreExact(m: Manifest, w: ManifestWire)
    ensures ValidManifest(m) <==> ReadManifest(WriteManifest(m)) == Ok(m)
    ensures ReadManifest(w) == Ok(m) <==> ValidManifest(m) && WriteManifest(m) == w
  {
    ReceiptListsAreExact(m.notarizations, w.notarizations);
    ReceiptListsAreExact(m.notarizations, WriteReceipts(m.notarizations));
  }

  /** The digest a list of records gives each target. */
  function Digests(records: seq<Record>): map<string, string> {
    if records == [] then map[] else Digests(records[1..])[records[0].target := records[0].sha256]
  }

  function Claims(receipts: seq<Receipt>): map<string, string> {
    if receipts == [] then map[] else
    var rest := Claims(receipts[1..]);
    if receipts[0].package.Some? then rest[receipts[0].target := receipts[0].package.value.sha256] else rest
  }

  /** Two records whose targets are the two Mac targets stand for a map of both. */
  lemma PairDigests(records: seq<Record>)
    requires |records| == 2 && RecordTargets(records) == Elements(MAC_TARGETS)
    ensures records[0].target != records[1].target
    ensures Digests(records) == map[records[0].target := records[0].sha256, records[1].target := records[1].sha256]
  {
    assert RecordTargets(records) == {records[0].target, records[1].target};
    assert MAC_TARGETS[0] in RecordTargets(records) && MAC_TARGETS[1] in RecordTargets(records);
    assert records[1..][1..] == [] && Digests(records[1..]) == map[records[1].target := records[1].sha256];
  }

  lemma PairClaims(receipts: seq<Receipt>)
    requires |receipts| == 2 && ReceiptTargets(receipts) == Elements(MAC_TARGETS)
    requires receipts[0].package.Some? && receipts[1].package.Some?
    ensures receipts[0].target != receipts[1].target
    ensures Claims(receipts) == map[receipts[0].target := receipts[0].package.value.sha256,
                                    receipts[1].target := receipts[1].package.value.sha256]
  {
    assert ReceiptTargets(receipts) == {receipts[0].target, receipts[1].target};
    assert MAC_TARGETS[0] in ReceiptTargets(receipts) && MAC_TARGETS[1] in ReceiptTargets(receipts);
    assert receipts[1..][1..] == [];
    assert Claims(receipts[1..]) == map[receipts[1].target := receipts[1].package.value.sha256];
  }

  /** The packages of an accepted schema-2 manifest are exactly what its receipts claim to have submitted,
      target by target; a schema-1 manifest has and claims none. */
  lemma PackagesAreClaims(w: ManifestWire)
    requires ReadManifest(w).Ok?
    ensures var m := ReadManifest(w).value;
      && Digests(m.packages) == Claims(m.notarizations) && m.packages == w.packages
      && (w.schema == 2 ==> Digests(m.packages).Keys == Elements(MAC_TARGETS))
      && (w.schema == 1 ==> Digests(m.packages) == map[])
  {
    var ps, rs := w.packages, ReadManifest(w).value.notarizations;
    if w.schema == 2 {
      PairDigests(ps);
      PairClaims(rs);
    } else {
      assert rs[1..][1..] == [] && Claims(rs[1..]) == map[];
    }
  }
}
