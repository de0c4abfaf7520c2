/** The resumable release publication of `xtask/src/release_orchestration.rs`.

  `Github` is the remote store with everything that may happen to it between two calls. When it is
  not `quiet`, other actors change it and every check may fail, so a property proved for all of its
  answers holds in every run. When it is `quiet`, only this publisher acts; unless it is also
  `reliable`, a command may still fail halfway.
  */
module Publication {

  import opened Collections
  import opened Limits
  import opened Wrappers

  datatype Asset = Asset(name: string, state: string, digest: string)

  datatype Release = Release(id: nat, tag: string, draft: Option<bool>, assets: seq<Asset>)

  /** A file of the distribution: its asset name, its path, and the hexadecimal SHA-256 of its bytes. */
  datatype File = File(name: string, path: string, hash: string)

  datatype Failure = Refused(reason: string) | Remote

  // ---------------------------------------------------------------- which assets are missing

  function Digest(file: File): string {
    "sha256:" + file.hash
  }

  function Find(expected: seq<File>, name: string): Option<File> {
    if expected == [] then None
    else if expected[0].name == name then Some(expected[0])
    else Find(expected[1..], name)
  }

  /** The asset is the finished upload of the expected file of its name. */
  predicate Correct(asset: Asset, expected: seq<File>) {
    match Find(expected, asset.name)
    case None => false
    case Some(file) => asset.state == "uploaded" && asset.digest == Digest(file)
  }

  /** No name occurs twice and every asset is a correct upload. */
  predicate Sound(assets: seq<Asset>, expected: seq<File>) {
    && (forall i, j :: 0 <= i < j < |assets| ==> assets[i].name != assets[j].name)
    && (forall i :: 0 <= i < |assets| ==> Correct(assets[i], expected))
  }

  function Names(assets: seq<Asset>): set<string> {
    set i | 0 <= i < |assets| :: assets[i].name
  }

  /** The expected files, in order, whose names are not among `names`. */
  function Without(expected: seq<File>, names: set<string>): seq<File> {
    if expected == [] then []
    else if expected[0].name in names then Without(expected[1..], names)
    else [expected[0]] + Without(expected[1..], names)
  }

  predicate Complete(assets: seq<Asset>, expected: seq<File>) {
    Sound(assets, expected) && Without(expected, Names(assets)) == []
  }

  /** One more asset, and what is asked of it. */
  lemma SoundNext(assets: seq<Asset>, i: nat, expected: seq<File>)
    requires i < |assets|
    ensures Names(assets[..i + 1]) == Names(assets[..i]) + {assets[i].name}
    ensures Sound(assets[..i + 1], expected) <==>
      Sound(assets[..i], expected) && assets[i].name !in Names(assets[..i]) && Correct(assets[i], expected)
    ensures Sound(assets, expected) ==> Sound(assets[..i + 1], expected)
  {
    var front, next := assets[..i], assets[..i + 1];
    assert next == front + [assets[i]] && next[i] == assets[i];
    if Sound(next, expected) {
      assert forall k :: 0 <= k < i ==> front[k] == next[k];
    }
  }

  method MissingAssets(release: Release, expected: seq<File>) returns (r: Result<seq<File>, Failure>)
    ensures r.Ok? <==> Sound(release.assets, expected)
    ensures r.Ok? ==> r.value == Without(expected, Names(release.assets))
  {
    var assets, names := release.assets, {};
    for i := 0 to |assets|
      invariant names == Names(assets[..i])
      invariant Sound(assets[..i], expected)
    {
      var asset := assets[i];
      SoundNext(assets, i, expected);
      if asset.name in names {
        return Err(Refused("duplicate published release asset"));
      }
      var file := Find(expected, asset.name);
      if file.None? {
        return Err(Refused("unexpected published release asset"));
      }
      if asset.state != "uploaded" || asset.digest != Digest(file.value) {
        return Err(Refused("GitHub identity mismatch"));
      }
      names := names + {asset.name};
    }
    assert assets[..|assets|] == assets;
    var missing := [];
    for i := 0 to |expected|
      invariant missing + Without(expected[i..], names) == Without(expected, names)
    {
      if expected[i].name !in names {
        missing := missing + [expected[i]];
      }
    }
    return Ok(missing);
  }

  // ---------------------------------------------------------------- the remote store

  /** What the publisher asks the world, and what it is told. */
  datatype Event =
    | Origin(ok: bool)
    | Unchanged(ok: bool)
    | Reviewed(ok: bool)
    | TagBound(ok: bool)
    | Ancestry(ok: bool)
    | Listed(releases: seq<Release>)
    | Reloaded(snapshot: Release)
    | Read(snapshot: Release)
    | Create(files: seq<File>)
    | Upload(files: seq<File>)
    | Publish

  function Uploaded(file: File): Asset {
    Asset(file.name, "uploaded", Digest(file))
  }

  function UploadedAll(files: seq<File>): (assets: seq<Asset>)
    ensures |assets| == |files|
    ensures forall i :: 0 <= i < |files| ==> assets[i] == Uploaded(files[i])
  {
    if files == [] then [] else [Uploaded(files[0])] + UploadedAll(files[1..])
  }

  /** What an upload leaves of a file: its asset, or one that never came to be uploaded. */
  predicate IsTrace(file: File, asset: Asset) {
    asset == Uploaded(file) || (asset.name == file.name && asset.state != "uploaded")
  }

  predicate AreTraces(files: seq<File>, assets: seq<Asset>) {
    |files| == |assets| && forall i :: 0 <= i < |files| ==> IsTrace(files[i], assets[i])
  }

  predicate AllUploaded(assets: seq<Asset>) {
    forall i :: 0 <= i < |assets| ==> assets[i].state == "uploaded"
  }

  class Github {
    const tag: string
    const quiet: bool
    const reliable: bool
    /** The release of the tag, if there is one, and all the others. */
    var ours: Option<Release>
    var others: seq<Release>
    ghost var log: seq<Event>

    ghost predicate Valid()
      reads this
    {
      && (ours.Some? ==> ours.value.tag == tag)
      && (forall i :: 0 <= i < |others| ==> others[i].tag != tag)
    }

    /** Nothing happens between two calls of a quiet world. */
    ghost predicate Untouched(was: Option<Release>, rest: seq<Release>)
      reads this
    {
      quiet ==> ours == was && others == rest
    }

    /** Other actors. */
    method Interfere()
      requires Valid()
      modifies this`ours, this`others
      ensures Valid() && Untouched(old(ours), old(others))
    {
      if !quiet {
        var any: Option<Release>, rest: seq<Release> := *, *;
        ours := if any.Some? && any.value.tag == tag then any else None;
        others := if forall i :: 0 <= i < |rest| ==> rest[i].tag != tag then rest else [];
      }
    }

    /** One check of the world outside the store. */
    method Check(event: Event) returns (ok: bool)
      requires Valid()
      requires event.Origin? || event.Unchanged? || event.Reviewed? || event.TagBound? || event.Ancestry?
      modifies this
      ensures Valid() && Untouched(old(ours), old(others))
      ensures log == old(log) + [event.(ok := ok)]
      ensures quiet && reliable ==> ok
    {
      Interfere();
      ok := *;
      if quiet && reliable {
        ok := true;
      }
      log := log + [event.(ok := ok)];
    }

    /** The release inventory, in any order. */
    method List() returns (r: Result<seq<Release>, Failure>)
      requires Valid()
      modifies this
      ensures Valid() && Untouched(old(ours), old(others))
      ensures log == old(log) + (if r.Ok? then [Listed(r.value)] else [])
      ensures quiet && reliable ==> r.Ok?
      ensures quiet && r.Ok? ==> IsInventory(r.value, ours, others)
    {
      Interfere();
      var fails: bool := *;
      if fails && !(quiet && reliable) {
        return Err(Remote);
      }
      var k :| 0 <= k <= |others|;
      var all := others[..k] + (if ours.Some? then [ours.value] else []) + others[k..];
      var any: seq<Release> := *;
      assert IsInventory(all, ours, others);
      if quiet {
        any := all;
      }
      log := log + [Listed(any)];
      return Ok(any);
    }

    /** One release, by its identity. */
    method Get(id: nat) returns (r: Result<Release, Failure>)
      requires Valid()
      modifies this
      ensures Valid() && Untouched(old(ours), old(others))
      ensures log == old(log) + (if r.Ok? then [Reloaded(r.value)] else [])
      ensures quiet && reliable && ours.Some? && ours.value.id == id ==> r.Ok?
      ensures quiet && r.Ok? && ours.Some? && ours.value.id == id ==> r.value == ours.value
    {
      Interfere();
      var any: Release, fails: bool := *, *;
      if quiet && ours.Some? && ours.value.id == id {
        if fails && !reliable {
          return Err(Remote);
        }
        any := ours.value;
      } else if fails {
        return Err(Remote);
      }
      log := log + [Reloaded(any)];
      return Ok(any);
    }

    /** The published release of the tag. */
    method GetByTag() returns (r: Result<Release, Failure>)
      requires Valid()
      modifies this
      ensures Valid() && Untouched(old(ours), old(others))
      ensures log == old(log) + (if r.Ok? then [Read(r.value)] else [])
      ensures quiet && r.Ok? ==> ours == Some(r.value)
      ensures quiet && reliable && ours.Some? && ours.value.draft == Some(false) ==> r.Ok?
    {
      Interfere();
      var any: Release, fails: bool := *, *;
      if quiet {
        if ours.None? || ours.value.draft != Some(false) || (fails && !reliable) {
          return Err(Remote);
        }
        any := ours.value;
      } else if fails {
        return Err(Remote);
      }
      log := log + [Read(any)];
      return Ok(any);
    }

    /** `gh release create --draft` with files. Failing, it leaves nothing or a draft with traces of some. */
    method CreateDraft(files: seq<File>) returns (ok: bool)
      requires Valid()
      modifies this
      ensures Valid() && log == old(log) + [Create(files)]
      ensures quiet && reliable && old(ours).None? ==> ok
      ensures quiet ==> others == old(others)
      ensures quiet && old(ours).Some? ==> ours == old(ours) && !ok
      ensures quiet && old(ours).None? && ours.Some? ==>
        ours.value.draft == Some(true) && PartUploaded(files, [], ours.value.assets, ok)
      ensures quiet && ok ==> ours.Some?
    {
      Interfere();
      log := log + [Create(files)];
      if quiet && ours.Some? {
        return false;
      }
      var id: nat, created: bool := *, *;
      ok := *;
      if quiet && reliable {
        ok := true;
      }
      var left := LeaveTraces(files, ok);
      if quiet && (ok || created) {
        assert [] + left == left;
        ours := Some(Release(id, tag, Some(true), left));
      }
    }

    /** `gh release upload`. Failing, it leaves traces of some of the files. */
    method UploadAssets(files: seq<File>) returns (ok: bool)
      requires Valid()
      modifies this
      ensures Valid() && log == old(log) + [Upload(files)]
      ensures quiet && reliable && old(ours).Some? ==> ok
      ensures quiet ==> others == old(others)
      ensures quiet && old(ours).None? ==> ours.None? && !ok
      ensures quiet && old(ours).Some? ==>
        && ours.Some? && ours.value == old(ours).value.(assets := ours.value.assets)
        && PartUploaded(files, old(ours).value.assets, ours.value.assets, ok)
    {
      Interfere();
      log := log + [Upload(files)];
      if quiet && ours.None? {
        return false;
      }
      ok := *;
      if quiet && reliable {
        ok := true;
      }
      var left := LeaveTraces(files, ok);
      if quiet {
        ours := Some(ours.value.(assets := ours.value.assets + left));
      }
    }

    /** What an upload of these files leaves: all of them if it succeeds, and otherwise any traces of some. */
    method LeaveTraces(files: seq<File>, ok: bool) returns (left: seq<Asset>)
      ensures Traced(files, left, ok)
    {
      var done: seq<File> := *;
      left := *;
      if ok || !Part(files, done) || !AreTraces(done, left) {
        done, left := files, UploadedAll(files);
        PartRefl(files);
        assert AreTraces(files, UploadedAll(files));
      }
      TracesOf(files, done, left, ok);
    }

    /** `gh release edit --draft=false`. Failing, it may or may not have taken effect. */
    method PublishDraft() returns (ok: bool)
      requires Valid()
      modifies this
      ensures Valid() && log == old(log) + [Publish]
      ensures quiet && reliable && old(ours).Some? ==> ok
      ensures quiet ==> others == old(others)
      ensures quiet && old(ours).None? ==> ours.None? && !ok
      ensures quiet && old(ours).Some? ==>
        (!ok && ours == old(ours)) || ours == Some(old(ours).value.(draft := Some(false)))
    {
      Interfere();
      log := log + [Publish];
      if quiet && ours.None? {
        return false;
      }
      var done: bool := *;
      ok := *;
      if quiet && reliable {
        ok := true;
      }
      if quiet && (ok || done) {
        ours := Some(ours.value.(draft := Some(false)));
      }
    }
  }

  predicate IsInventory(all: seq<Release>, ours: Option<Release>, others: seq<Release>) {
    exists k :: 0 <= k <= |others| &&
      all == others[..k] + (if ours.Some? then [ours.value] else []) + others[k..]
  }

  ghost predicate ArePartTraces(files: seq<File>, done: seq<File>, left: seq<Asset>) {
    Part(files, done) && AreTraces(done, left)
  }

  /** The assets are traces of some of the files, and the uploads of all of them if `all`. */
  ghost predicate Traced(files: seq<File>, left: seq<Asset>, all: bool) {
    && (exists done :: ArePartTraces(files, done, left))
    && (all ==> left == UploadedAll(files))
  }

  /** `after` is `before` and traces of some of the files, the uploads of all of them if `all`. */
  ghost predicate PartUploaded(files: seq<File>, before: seq<Asset>, after: seq<Asset>, all: bool) {
    exists left :: Traced(files, left, all) && after == before + left
  }

  /** `part` is `files` with some of them left out, each kept at most once. */
  predicate Part(files: seq<File>, part: seq<File>)
    decreases |files|
  {
    if files == [] then part == [] else
    Part(files[1..], part) || (part != [] && part[0] == files[0] && Part(files[1..], part[1..]))
  }

  lemma TracesOf(files: seq<File>, done: seq<File>, left: seq<Asset>, all: bool)
    requires Part(files, done) && AreTraces(done, left) && (all ==> left == UploadedAll(files))
    ensures Traced(files, left, all)
  {
    assert ArePartTraces(files, done, left);
  }

  lemma AllTraced(files: seq<File>, before: seq<Asset>)
    ensures PartUploaded(files, before, before + UploadedAll(files), true)
  {
    PartRefl(files);
    assert ArePartTraces(files, files, UploadedAll(files));
  }

  lemma NoneTraced(files: seq<File>, before: seq<Asset>)
    ensures PartUploaded(files, before, before, false)
  {
    NoneIsPart(files);
    assert ArePartTraces(files, [], []) && Traced(files, [], false) && before == before + [];
  }

  lemma {:induction false} PartRefl(files: seq<File>)
    ensures Part(files, files)
  {
    if files != [] {
      PartRefl(files[1..]);
    }
  }

  // ---------------------------------------------------------------- what every run keeps

  /** A draft of the tag that holds the whole distribution. */
  ghost predicate CompleteDraft(event: Event, tag: string, expected: seq<File>) {
    event.Reloaded? && event.snapshot.tag == tag && event.snapshot.draft == Some(true)
    && Complete(event.snapshot.assets, expected)
  }

  /** A draft of the tag that lacks exactly `files`. */
  ghost predicate DraftLacking(event: Event, tag: string, expected: seq<File>, files: seq<File>) {
    event.Reloaded? && event.snapshot.tag == tag && event.snapshot.draft == Some(true)
    && Sound(event.snapshot.assets, expected) && files == Without(expected, Names(event.snapshot.assets))
  }

  /** A bounded listing without a release of the tag. */
  ghost predicate ShowsNone(event: Event, tag: string) {
    && event.Listed? && |event.releases| < SCAN_LIMIT
    && forall i :: 0 <= i < |event.releases| ==> event.releases[i].tag != tag
  }

  /** The command at `i`, if there is one, was issued on the evidence it needs, just before. */
  ghost predicate Warranted(log: seq<Event>, i: nat, tag: string, expected: seq<File>)
    requires i < |log|
  {
    match log[i]
    case Publish =>
      && i >= 4 && CompleteDraft(log[i - 4], tag, expected)
      && log[i - 3] == TagBound(true) && log[i - 2] == Ancestry(true) && log[i - 1] == Unchanged(true)
    case Upload(files) =>
      i >= 2 && DraftLacking(log[i - 2], tag, expected, files) && files != [] && log[i - 1] == Unchanged(true)
    case Create(files) => i >= 2 && files == expected && ShowsNone(log[i - 2], tag) && log[i - 1] == Unchanged(true)
    case _ => true
  }

  ghost predicate Safe(log: seq<Event>, tag: string, expected: seq<File>) {
    forall i :: 0 <= i < |log| ==> Warranted(log, i, tag, expected)
  }

  lemma SafeNext(log: seq<Event>, next: seq<Event>, tag: string, expected: seq<File>)
    requires Safe(log, tag, expected)
    requires |next| == |log| + 1 && next[..|log|] == log && Warranted(next, |log|, tag, expected)
    ensures Safe(next, tag, expected)
  {
    forall i | 0 <= i < |next| ensures Warranted(next, i, tag, expected) {
      if i < |log| {
        assert Warranted(log, i, tag, expected);
        assert forall j :: 0 <= j <= i ==> next[j] == log[j];
      }
    }
  }

  /** The publisher saw the tag's release published with the whole distribution, and its tag in place. */
  ghost predicate SawPublished(log: seq<Event>, tag: string, expected: seq<File>) {
    var n := |log|;
    && n >= 2 && log[n - 1] == TagBound(true) && log[n - 2].Read? && log[n - 2].snapshot.tag == tag
    && log[n - 2].snapshot.draft == Some(false) && Complete(log[n - 2].snapshot.assets, expected)
  }

  // ---------------------------------------------------------------- the publisher

  function Matching(releases: seq<Release>, tag: string): seq<Release> {
    if releases == [] then []
    else if releases[0].tag == tag then [releases[0]] + Matching(releases[1..], tag)
    else Matching(releases[1..], tag)
  }

  lemma {:induction false} MatchingConcat(a: seq<Release>, b: seq<Release>, tag: string)
    ensures Matching(a + b, tag) == Matching(a, tag) + Matching(b, tag)
  {
    if a == [] {
      assert a + b == b;
    } else {
      assert (a + b)[1..] == a[1..] + b;
      MatchingConcat(a[1..], b, tag);
    }
  }

  lemma {:induction false} MatchingNone(a: seq<Release>, tag: string)
    ensures Matching(a, tag) == [] <==> forall i :: 0 <= i < |a| ==> a[i].tag != tag
  {
    if a != [] {
      MatchingNone(a[1..], tag);
    }
  }

  /** Wherever the tag's release stands in the inventory, it is the one that matches. */
  lemma MatchingInventory(all: seq<Release>, ours: Option<Release>, others: seq<Release>, tag: string)
    requires IsInventory(all, ours, others)
    requires ours.Some? ==> ours.value.tag == tag
    requires forall i :: 0 <= i < |others| ==> others[i].tag != tag
    ensures Matching(all, tag) == if ours.Some? then [ours.value] else []
    ensures |all| == |others| + if ours.Some? then 1 else 0
  {
    var own := if ours.Some? then [ours.value] else [];
    var k :| 0 <= k <= |others| && all == others[..k] + own + others[k..];
    MatchingAmong(others[..k], own, others[k..], tag);
    if ours.Some? {
      MatchingOne(ours.value, tag);
    }
  }

  lemma MatchingAmong(before: seq<Release>, own: seq<Release>, after: seq<Release>, tag: string)
    requires forall i :: 0 <= i < |before| ==> before[i].tag != tag
    requires forall i :: 0 <= i < |after| ==> after[i].tag != tag
    ensures Matching(before + own + after, tag) == Matching(own, tag)
  {
    MatchingConcat(before + own, after, tag);
    MatchingConcat(before, own, tag);
    MatchingNone(before, tag);
    MatchingNone(after, tag);
  }

  lemma MatchingOne(release: Release, tag: string)
    requires release.tag == tag
    ensures Matching([release], tag) == [release]
  {
    assert [release][1..] == [];
  }

  /** The full listing stays below its bound. */
  predicate InBounds(ours: Option<Release>, others: seq<Release>) {
    |others| + (if ours.Some? then 1 else 0) < SCAN_LIMIT
  }

  method ReloadRelease(github: Github, release: Release) returns (r: Result<Release, Failure>)
    requires github.Valid()
    modifies github
    ensures github.Valid() && github.Untouched(old(github.ours), old(github.others))
    ensures github.log == old(github.log) || exists s :: github.log == old(github.log) + [Reloaded(s)]
    ensures r.Ok? ==> github.log == old(github.log) + [Reloaded(r.value)]
    ensures r.Ok? ==> r.value.id == release.id && r.value.tag == github.tag
    ensures github.quiet && github.ours.Some? && github.ours.value.id == release.id && r.Ok? ==>
      r.value == github.ours.value
    ensures github.quiet && github.reliable && github.ours.Some? && github.ours.value.id == release.id ==> r.Ok?
  {
    var current := github.Get(release.id);
    if current.Err? {
      return Err(Remote);
    }
    if current.value.id != release.id {
      return Err(Refused("release identity changed before publication"));
    }
    if current.value.tag != github.tag {
      return Err(Refused("GitHub identity mismatch"));
    }
    return current;
  }

  method ReleaseForTag(github: Github) returns (r: Result<Option<Release>, Failure>)
    requires github.Valid()
    modifies github
    ensures github.Valid() && github.Untouched(old(github.ours), old(github.others))
    ensures Grown(old(github.log), github.log)
    ensures r.Ok? && r.value.Some? ==>
      |github.log| > 0 && github.log[|github.log| - 1] == Reloaded(r.value.value) && r.value.value.tag == github.tag
    ensures r.Ok? && r.value.None? ==>
      |github.log| > 0 && ShowsNone(github.log[|github.log| - 1], github.tag)
    ensures github.quiet && r.Ok? ==> r.value == github.ours && InBounds(github.ours, github.others)
    ensures github.quiet && github.reliable && InBounds(github.ours, github.others) ==> r.Ok?
  {
    var listed := github.List();
    if listed.Err? {
      return Err(Remote);
    }
    if |listed.value| >= SCAN_LIMIT {
      return Err(Refused("release inventory exceeds its scan bound"));
    }
    var matching := Matching(listed.value, github.tag);
    if github.quiet {
      MatchingInventory(listed.value, github.ours, github.others, github.tag);
    }
    if |matching| > 1 {
      return Err(Refused("multiple releases name the original tag"));
    }
    if matching == [] {
      MatchingNone(listed.value, github.tag);
      return Ok(None);
    }
    var current := ReloadRelease(github, matching[0]);
    match current {
      case Err(e) => return Err(e);
      case Ok(release) => return Ok(Some(release));
    }
  }

  /** `next` is `log` and events none of which is a command. */
  ghost predicate Grown(log: seq<Event>, next: seq<Event>) {
    && |log| <= |next| && next[..|log|] == log
    && forall i :: |log| <= i < |next| ==> !next[i].Create? && !next[i].Upload? && !next[i].Publish?
  }

  lemma {:induction false} SafeGrown(log: seq<Event>, next: seq<Event>, tag: string, expected: seq<File>)
    requires Safe(log, tag, expected) && Grown(log, next)
    ensures Safe(next, tag, expected)
    decreases |next| - |log|
  {
    if |log| < |next| {
      var step := next[..|log| + 1];
      SafeNext(log, step, tag, expected);
      SafeGrown(step, next, tag, expected);
    } else {
      assert next == log;
    }
  }

  // ---------------------------------------------------------------- uploads keep a draft sound

  ghost predicate DistinctFiles(files: seq<File>) {
    forall i, j :: 0 <= i < j < |files| ==> files[i].name != files[j].name
  }

  lemma {:induction false} FindsFile(files: seq<File>, k: nat)
    requires DistinctFiles(files) && k < |files|
    ensures Find(files, files[k].name) == Some(files[k])
  {
    if k > 0 {
      FindsFile(files[1..], k - 1);
    }
  }

  lemma {:induction false} WithoutMembers(expected: seq<File>, names: set<string>)
    requires DistinctFiles(expected)
    ensures DistinctFiles(Without(expected, names))
    ensures forall f :: f in Without(expected, names) <==> f in expected && f.name !in names
  {
    if expected != [] {
      var tail := Without(expected[1..], names);
      WithoutMembers(expected[1..], names);
      forall j | 0 <= j < |tail| ensures tail[j].name != expected[0].name {
        assert tail[j] in tail;
        var k :| 0 <= k < |expected[1..]| && expected[1..][k] == tail[j];
        assert expected[k + 1] == tail[j];
      }
      assert expected == [expected[0]] + expected[1..];
    }
  }

  lemma {:induction false} WithoutNothing(expected: seq<File>, names: set<string>)
    requires forall k :: 0 <= k < |expected| ==> expected[k].name in names
    ensures Without(expected, names) == []
  {
    if expected != [] {
      WithoutNothing(expected[1..], names);
    }
  }

  lemma {:induction false} PartMembers(files: seq<File>, part: seq<File>)
    requires DistinctFiles(files) && Part(files, part)
    ensures DistinctFiles(part)
    ensures forall f :: f in part ==> f in files
    decreases |files|
  {
    if files != [] {
      if Part(files[1..], part) {
        PartMembers(files[1..], part);
      } else {
        PartMembers(files[1..], part[1..]);
        forall j | 0 < j < |part| ensures part[j].name != files[0].name && part[j] in files {
          assert part[1..][j - 1] in part[1..];
          var k :| 0 <= k < |files[1..]| && files[1..][k] == part[j];
          assert files[k + 1] == part[j];
        }
      }
    }
  }

  lemma UploadKeepsSound(expected: seq<File>, assets: seq<Asset>, done: seq<File>)
    requires DistinctFiles(expected) && Sound(assets, expected)
    requires Part(Without(expected, Names(assets)), done)
    ensures Sound(assets + UploadedAll(done), expected)
  {
    var missing := Without(expected, Names(assets));
    WithoutMembers(expected, Names(assets));
    PartMembers(missing, done);
    var all := assets + UploadedAll(done);
    forall i | 0 <= i < |all| ensures Correct(all[i], expected) {
      if i >= |assets| {
        var file := done[i - |assets|];
        assert file in done;
        var k :| 0 <= k < |expected| && expected[k] == file;
        FindsFile(expected, k);
      }
    }
    forall i, j | 0 <= i < j < |all| ensures all[i].name != all[j].name {
      if i < |assets| <= j {
        assert done[j - |assets|] in done;
        assert assets[i].name in Names(assets);
      }
    }
  }

  /** Uploading exactly what is missing completes a sound draft. */
  lemma UploadCompletes(expected: seq<File>, assets: seq<Asset>, missing: seq<File>, all: seq<Asset>)
    requires DistinctFiles(expected) && Sound(assets, expected)
    requires missing == Without(expected, Names(assets)) && all == assets + UploadedAll(missing)
    ensures Complete(all, expected)
  {
    PartRefl(missing);
    UploadKeepsSound(expected, assets, missing);
    forall k | 0 <= k < |expected| ensures expected[k].name in Names(all) {
      FileIsNamed(expected, assets, missing, expected[k]);
    }
    WithoutNothing(expected, Names(all));
  }

  lemma FileIsNamed(expected: seq<File>, assets: seq<Asset>, missing: seq<File>, f: File)
    requires DistinctFiles(expected) && missing == Without(expected, Names(assets)) && f in expected
    ensures f.name in Names(assets + UploadedAll(missing))
  {
    var all := assets + UploadedAll(missing);
    if f.name in Names(assets) {
      var i :| 0 <= i < |assets| && assets[i].name == f.name;
      assert all[i].name == f.name;
    } else {
      WithoutMembers(expected, Names(assets));
      var i :| 0 <= i < |missing| && missing[i] == f;
      assert all[|assets| + i].name == f.name;
    }
  }

  /** A complete release and its distribution match one to one: every file is there once, under its
      name and digest, and nothing else is. */
  lemma CompleteIsOneToOne(assets: seq<Asset>, expected: seq<File>)
    requires DistinctFiles(expected)
    ensures Complete(assets, expected) <==>
      && |assets| == |expected|
      && (forall i, j :: 0 <= i < j < |assets| ==> assets[i].name != assets[j].name)
      && (forall f :: f in expected ==> Uploaded(f) in assets)
  {
    if Complete(assets, expected) {
      forall f | f in expected ensures Uploaded(f) in assets {
        FileIsUploaded(assets, expected, f);
      }
      NamesCount(assets);
      FileNamesCount(expected);
      assert Names(assets) == FileNames(expected) by {
        forall i | 0 <= i < |assets| ensures assets[i].name in FileNames(expected) {
          FoundIsFile(expected, assets[i].name);
        }
        forall k | 0 <= k < |expected| ensures expected[k].name in Names(assets) {
          assert expected[k] in expected && Uploaded(expected[k]) in assets;
        }
      }
    }
    if && |assets| == |expected| && (forall i, j :: 0 <= i < j < |assets| ==> assets[i].name != assets[j].name)
       && (forall f :: f in expected ==> Uploaded(f) in assets) {
      OneToOneIsComplete(assets, expected);
    }
  }

  function FileNames(files: seq<File>): set<string> {
    set i | 0 <= i < |files| :: files[i].name
  }

  lemma {:induction false} NamesCount(assets: seq<Asset>)
    requires forall i, j :: 0 <= i < j < |assets| ==> assets[i].name != assets[j].name
    ensures |Names(assets)| == |assets|
  {
    if assets != [] {
      var front, last := assets[..|assets| - 1], assets[|assets| - 1];
      NamesCount(front);
      assert Names(assets) == Names(front) + {last.name};
    }
  }

  lemma {:induction false} FileNamesCount(files: seq<File>)
    requires DistinctFiles(files)
    ensures |FileNames(files)| == |files|
  {
    if files != [] {
      var front, last := files[..|files| - 1], files[|files| - 1];
      FileNamesCount(front);
      FileNamesNext(front, last);
      assert files == front + [last];
    }
  }

  lemma FileNamesNext(front: seq<File>, last: File)
    ensures FileNames(front + [last]) == FileNames(front) + {last.name}
    ensures DistinctFiles(front + [last]) ==> last.name !in FileNames(front)
  {
    var all := front + [last];
    assert all[|front|] == last && forall i :: 0 <= i < |front| ==> all[i] == front[i];
  }

  lemma {:induction false} FoundIsFile(files: seq<File>, name: string)
    ensures Find(files, name).Some? ==> Find(files, name).value in files && Find(files, name).value.name == name
    ensures Find(files, name).Some? ==> name in FileNames(files)
  {
    if files != [] && files[0].name != name {
      FoundIsFile(files[1..], name);
      if Find(files, name).Some? {
        var k :| 0 <= k < |files[1..]| && files[1..][k].name == name;
        assert files[k + 1].name == name;
      }
    }
  }

  lemma FileIsUploaded(assets: seq<Asset>, expected: seq<File>, f: File)
    requires DistinctFiles(expected) && Complete(assets, expected) && f in expected
    ensures Uploaded(f) in assets
  {
    WithoutMembers(expected, Names(assets));
    assert f !in Without(expected, Names(assets));
    var i :| 0 <= i < |assets| && assets[i].name == f.name;
    var k :| 0 <= k < |expected| && expected[k] == f;
    FindsFile(expected, k);
    assert Correct(assets[i], expected);
    assert assets[i] == Uploaded(f);
  }

  lemma OneToOneIsComplete(assets: seq<Asset>, expected: seq<File>)
    requires DistinctFiles(expected) && |assets| == |expected|
    requires forall i, j :: 0 <= i < j < |assets| ==> assets[i].name != assets[j].name
    requires forall f :: f in expected ==> Uploaded(f) in assets
    ensures Complete(assets, expected)
  {
    NamesCount(assets);
    FileNamesCount(expected);
    forall k | 0 <= k < |expected| ensures expected[k].name in Names(assets) {
      assert expected[k] in expected;
      var i :| 0 <= i < |assets| && assets[i] == Uploaded(expected[k]);
      assert assets[i].name == expected[k].name;
    }
    assert FileNames(expected) <= Names(assets);
    SubsetSize(FileNames(expected), Names(assets));
    forall i | 0 <= i < |assets| ensures Correct(assets[i], expected) {
      assert assets[i].name in FileNames(expected);
      var k :| 0 <= k < |expected| && expected[k].name == assets[i].name;
      assert expected[k] in expected;
      var j :| 0 <= j < |assets| && assets[j] == Uploaded(expected[k]);
      assert i == j;
      FindsFile(expected, k);
    }
    WithoutNothing(expected, Names(assets));
  }

  // ---------------------------------------------------------------- resuming, creating, checking

  /** A draft with correct assets, or a published release with all of them. */
  ghost predicate Fine(release: Release, expected: seq<File>) {
    || (release.draft == Some(true) && Sound(release.assets, expected))
    || (release.draft == Some(false) && Complete(release.assets, expected))
  }

  ghost predicate Recoverable(ours: Option<Release>, expected: seq<File>) {
    ours.Some? ==> Fine(ours.value, expected)
  }

  /** No upload of an earlier attempt is half finished. */
  ghost predicate Unbroken(ours: Option<Release>) {
    ours.Some? ==> AllUploaded(ours.value.assets)
  }

  /** The release, published, with exactly its missing files uploaded. */
  ghost function Finished(release: Release, expected: seq<File>): Release {
    release.(draft := Some(false), assets := release.assets + UploadedAll(Without(expected, Names(release.assets))))
  }

  lemma FinishedIsComplete(release: Release, expected: seq<File>)
    requires DistinctFiles(expected) && Fine(release, expected)
    ensures Complete(Finished(release, expected).assets, expected)
    ensures release.draft == Some(false) ==> Finished(release, expected) == release
  {
    UploadCompletes(
      expected, release.assets, Without(expected, Names(release.assets)), Finished(release, expected).assets);
    if release.draft == Some(false) {
      assert release.assets + [] == release.assets;
    }
  }

  lemma UploadedTraces(files: seq<File>, left: seq<Asset>)
    requires AreTraces(files, left) && AllUploaded(left)
    ensures left == UploadedAll(files)
  {
  }

  /** After an upload a draft can be resumed exactly if no trace of it is half finished. */
  lemma PartUploadStaysSound(expected: seq<File>, before: seq<Asset>, after: seq<Asset>, all: bool)
    requires DistinctFiles(expected) && Sound(before, expected)
    requires PartUploaded(Without(expected, Names(before)), before, after, all)
    ensures Sound(after, expected) <==> AllUploaded(after)
    ensures all ==> after == before + UploadedAll(Without(expected, Names(before))) && Complete(after, expected)
  {
    var missing := Without(expected, Names(before));
    var left: seq<Asset> :| Traced(missing, left, all) && after == before + left;
    var done :| ArePartTraces(missing, done, left);
    if AllUploaded(after) {
      forall i | 0 <= i < |left| ensures left[i].state == "uploaded" {
        assert after[|before| + i] == left[i];
      }
      UploadedTraces(done, left);
      UploadKeepsSound(expected, before, done);
    }
    if all {
      UploadCompletes(expected, before, missing, after);
    }
  }

  method CheckSafely(github: Github, event: Event, expected: seq<File>) returns (ok: bool)
    requires event.Origin? || event.Unchanged? || event.Reviewed? || event.TagBound? || event.Ancestry?
    requires github.Valid() && Safe(github.log, github.tag, expected)
    modifies github
    ensures github.Valid() && Safe(github.log, github.tag, expected)
    ensures github.Untouched(old(github.ours), old(github.others))
    ensures github.log == old(github.log) + [event.(ok := ok)]
    ensures github.quiet && github.reliable ==> ok
  {
    ok := github.Check(event);
    SafeNext(old(github.log), github.log, github.tag, expected);
  }

  /** Uploads what the draft just reloaded lacks. */
  method UploadMissing(github: Github, expected: seq<File>, release: Release, missing: seq<File>) returns (ok: bool)
    requires github.Valid() && Safe(github.log, github.tag, expected)
    requires |github.log| > 0 && DraftLacking(github.log[|github.log| - 1], github.tag, expected, missing)
    requires github.log[|github.log| - 1] == Reloaded(release)
    modifies github
    ensures github.Valid() && Safe(github.log, github.tag, expected)
    ensures github.quiet ==> github.others == old(github.others)
    ensures github.quiet && github.reliable && old(github.ours) == Some(release) ==> ok
    ensures github.quiet && old(github.ours) == Some(release) ==>
      && github.ours.Some? && github.ours.value == release.(assets := github.ours.value.assets)
      && PartUploaded(missing, release.assets, github.ours.value.assets, ok)
  {
    if missing == [] {
      AllTraced(missing, release.assets);
      assert release.assets + UploadedAll(missing) == release.assets;
      return true;
    }
    var same := CheckSafely(github, Unchanged(true), expected);
    if !same {
      NoneTraced(missing, release.assets);
      return false;
    }
    ghost var log := github.log;
    ok := github.UploadAssets(missing);
    SafeNext(log, github.log, github.tag, expected);
  }

  lemma {:induction false} NoneIsPart(files: seq<File>)
    ensures Part(files, [])
  {
    if files != [] {
      NoneIsPart(files[1..]);
    }
  }

  /** Publishes the draft if, reloaded, it still is one and is complete. */
  method PublishComplete(github: Github, expected: seq<File>, release: Release) returns (ok: bool)
    requires github.Valid() && Safe(github.log, github.tag, expected)
    modifies github
    ensures github.Valid() && Safe(github.log, github.tag, expected)
    ensures github.quiet ==> github.others == old(github.others)
    ensures (github.quiet && github.reliable && old(github.ours).Some? && old(github.ours).value.id == release.id
             && old(github.ours).value.draft == Some(true) && Complete(old(github.ours).value.assets, expected)) ==> ok
    ensures github.quiet && old(github.ours).Some? && old(github.ours).value.id == release.id ==>
      || github.ours == old(github.ours)
      || (github.ours == Some(old(github.ours).value.(draft := Some(false)))
          && Complete(old(github.ours).value.assets, expected))
    ensures github.quiet && old(github.ours).Some? && old(github.ours).value.id == release.id && ok ==>
      github.ours == Some(old(github.ours).value.(draft := Some(false)))
  {
    var uploaded := ReloadRelease(github, release);
    SafeGrown(old(github.log), github.log, github.tag, expected);
    if uploaded.Err? || uploaded.value.draft != Some(true) {
      return false;
    }
    var missing := MissingAssets(uploaded.value, expected);
    if missing.Err? || missing.value != [] {
      return false;
    }
    var checked := CheckBeforePublishing(github, expected);
    if !checked {
      return false;
    }
    ghost var log := github.log;
    ok := github.PublishDraft();
    SafeNext(log, github.log, github.tag, expected);
  }

  /** The checks of `resume_publication` between the last reload and the command. */
  method CheckBeforePublishing(github: Github, expected: seq<File>) returns (ok: bool)
    requires github.Valid() && Safe(github.log, github.tag, expected)
    modifies github
    ensures github.Valid() && Safe(github.log, github.tag, expected)
    ensures github.Untouched(old(github.ours), old(github.others))
    ensures ok ==> github.log == old(github.log) + [TagBound(true), Ancestry(true), Unchanged(true)]
    ensures github.quiet && github.reliable ==> ok
  {
    ok := CheckSafely(github, TagBound(true), expected);
    if !ok {
      return;
    }
    ok := CheckSafely(github, Ancestry(true), expected);
    if !ok {
      return;
    }
    ok := CheckSafely(github, Unchanged(true), expected);
  }

  method ResumePublication(github: Github, expected: seq<File>, release: Release) returns (ok: bool)
    requires github.Valid() && Safe(github.log, github.tag, expected)
    requires |github.log| > 0 && github.log[|github.log| - 1] == Reloaded(release)
    modifies github
    ensures github.Valid() && Safe(github.log, github.tag, expected)
    ensures github.quiet ==> github.others == old(github.others)
    ensures release.draft == Some(false) ==>
      github.log == old(github.log) && github.ours == old(github.ours) && github.others == old(github.others)
    ensures github.quiet && old(github.ours) == Some(release) && !Fine(release, expected) ==>
      !ok && github.ours == old(github.ours)
    ensures github.quiet && old(github.ours) == Some(release) && DistinctFiles(expected) && Fine(release, expected) ==>
      && github.ours.Some? && (Fine(github.ours.value, expected) <==> AllUploaded(github.ours.value.assets))
      && (github.reliable ==> ok)
      && (ok ==> github.ours == Some(Finished(release, expected)))
  {
    if release.tag != github.tag {
      return false;
    }
    var missing := MissingAssets(release, expected);
    if missing.Err? {
      return false;
    }
    if github.quiet && old(github.ours) == Some(release) && DistinctFiles(expected) && Fine(release, expected) {
      FinishedIsComplete(release, expected);
    }
    match release.draft {
      case None => return false;
      case Some(false) => return missing.value == [];
      case Some(true) =>
        var sent := UploadMissing(github, expected, release, missing.value);
        if github.quiet && old(github.ours) == Some(release) && DistinctFiles(expected) {
          PartUploadStaysSound(expected, release.assets, github.ours.value.assets, sent);
        }
        if !sent {
          return false;
        }
        ok := PublishComplete(github, expected, release);
    }
  }

  method CreateRelease(github: Github, expected: seq<File>) returns (ok: bool)
    requires github.Valid() && Safe(github.log, github.tag, expected)
    requires |github.log| > 0 && ShowsNone(github.log[|github.log| - 1], github.tag)
    modifies github
    ensures github.Valid() && Safe(github.log, github.tag, expected)
    ensures github.quiet ==> github.others == old(github.others)
    ensures github.quiet && old(github.ours).None? && DistinctFiles(expected) ==>
      && (Recoverable(github.ours, expected) <==> Unbroken(github.ours))
      && (ok ==> github.ours.Some? && InBounds(github.ours, github.others))
      && (ok ==> PublishedWith(github.ours.value, expected))
      && (github.reliable ==> github.ours.Some? && (InBounds(github.ours, github.others) ==> ok))
      && (github.reliable && !ok ==> DraftWith(github.ours.value, expected))
  {
    var same := CheckSafely(github, Unchanged(true), expected);
    if !same {
      return false;
    }
    ghost var log := github.log;
    var created := github.CreateDraft(expected);
    SafeNext(log, github.log, github.tag, expected);
    ghost var draft := github.ours;
    if github.quiet && old(github.ours).None? && draft.Some? && DistinctFiles(expected) {
      DraftIsSound(expected, draft.value.assets, created);
    }
    if !created {
      return false;
    }
    log := github.log;
    var found := ReleaseForTag(github);
    SafeGrown(log, github.log, github.tag, expected);
    if found.Err? || found.value.None? || found.value.value.draft != Some(true) {
      return false;
    }
    ok := ResumePublication(github, expected, found.value.value);
    if github.quiet && old(github.ours).None? && DistinctFiles(expected) {
      WithoutNames(expected, draft.value.assets);
    }
  }

  ghost predicate DraftWith(release: Release, expected: seq<File>) {
    release.draft == Some(true) && release.assets == UploadedAll(expected)
  }

  /** The release is public and holds exactly the distribution, in its order. */
  ghost predicate PublishedWith(release: Release, expected: seq<File>) {
    release.draft == Some(false) && release.assets == UploadedAll(expected)
  }

  lemma DraftIsSound(expected: seq<File>, assets: seq<Asset>, all: bool)
    requires DistinctFiles(expected) && PartUploaded(expected, [], assets, all)
    ensures Sound(assets, expected) <==> AllUploaded(assets)
    ensures all ==> assets == UploadedAll(expected) && Sound(assets, expected)
  {
    WithoutAny(expected);
    PartUploadStaysSound(expected, [], assets, all);
    assert [] + UploadedAll(expected) == UploadedAll(expected);
  }

  lemma {:induction false} WithoutAny(expected: seq<File>)
    ensures Without(expected, Names([])) == expected
  {
    if expected != [] {
      WithoutAny(expected[1..]);
    }
  }

  /** Nothing is missing from a draft that was created with every file. */
  lemma WithoutNames(expected: seq<File>, assets: seq<Asset>)
    requires assets == UploadedAll(expected)
    ensures Without(expected, Names(assets)) == [] && assets + UploadedAll([]) == assets
  {
    forall k | 0 <= k < |expected| ensures expected[k].name in Names(assets) {
      assert assets[k].name == expected[k].name;
    }
    WithoutNothing(expected, Names(assets));
  }

  method VerifyPublished(github: Github, expected: seq<File>) returns (ok: bool)
    requires github.Valid() && Safe(github.log, github.tag, expected)
    modifies github
    ensures github.Valid() && Safe(github.log, github.tag, expected)
    ensures github.Untouched(old(github.ours), old(github.others)) && Grown(old(github.log), github.log)
    ensures ok ==> SawPublished(github.log, github.tag, expected)
    ensures (github.quiet && github.reliable && github.ours.Some? && github.ours.value.draft == Some(false)
             && Complete(github.ours.value.assets, expected)) ==> ok
  {
    ghost var log := github.log;
    var release := github.GetByTag();
    SafeGrown(log, github.log, github.tag, expected);
    if release.Err? || release.value.tag != github.tag || release.value.draft != Some(false) {
      return false;
    }
    var missing := MissingAssets(release.value, expected);
    if missing.Err? || missing.value != [] {
      return false;
    }
    ok := CheckSafely(github, TagBound(true), expected);
  }

  /** The checks of `publish` before it looks at any release. */
  method Admit(github: Github, expected: seq<File>, tagged: bool) returns (ok: bool)
    requires github.Valid() && Safe(github.log, github.tag, expected)
    modifies github
    ensures github.Valid() && Safe(github.log, github.tag, expected)
    ensures github.Untouched(old(github.ours), old(github.others)) && Grown(old(github.log), github.log)
    ensures github.quiet && github.reliable ==> ok
  {
    ok := CheckSafely(github, Origin(true), expected);
    if !ok {
      return;
    }
    ok := CheckSafely(github, Unchanged(true), expected);
    if !ok || !tagged {
      return;
    }
    ok := CheckSafely(github, TagBound(true), expected);
    if !ok {
      return;
    }
    ok := CheckSafely(github, Reviewed(true), expected);
  }

  /** `Publisher::publish`. A source that is no tag (`tagged` false) publishes nothing. */
  method PublishRelease(github: Github, expected: seq<File>, tagged: bool) returns (ok: bool)
    requires github.Valid() && Safe(github.log, github.tag, expected)
    modifies github
    // In every run, whatever other actors do: each command is warranted, and success means seen.
    ensures github.Valid() && Safe(github.log, github.tag, expected)
    ensures ok && tagged ==> SawPublished(github.log, github.tag, expected)
    ensures !tagged ==> Grown(old(github.log), github.log)
    // Alone, even when commands fail halfway: what remains can be resumed, unless an upload is half finished.
    ensures github.quiet && DistinctFiles(expected) && Recoverable(old(github.ours), expected) ==>
      (Recoverable(github.ours, expected) <==> Unbroken(github.ours))
    // Alone and when nothing fails: it succeeds exactly in a recoverable state that the listing can hold.
    ensures github.quiet && github.reliable && tagged && DistinctFiles(expected) ==>
      (ok <==> Recoverable(old(github.ours), expected) && |old(github.others)| + 1 < SCAN_LIMIT)
    // Alone and succeeding: it uploads exactly what was missing, and publishes.
    ensures github.quiet && tagged && DistinctFiles(expected) && ok ==>
      Completed(old(github.ours), github.ours, expected)
    ensures github.quiet ==> github.others == old(github.others)
    // Alone and refused: what is not recoverable, or fills the listing, is left as it is.
    ensures (github.quiet && tagged
             && !(Recoverable(old(github.ours), expected) && InBounds(old(github.ours), old(github.others)))) ==>
      !ok && github.ours == old(github.ours)
    // Alone, a new release that would fill the listing is created and then not found.
    ensures (github.quiet && github.reliable && tagged && DistinctFiles(expected)
             && old(github.ours).None? && |old(github.others)| + 1 == SCAN_LIMIT) ==>
      github.ours.Some? && DraftWith(github.ours.value, expected)
    // Alone, a distribution already published is left as it is and no command is issued.
    ensures (github.quiet && old(github.ours).Some? && old(github.ours).value.draft == Some(false)) ==>
      github.ours == old(github.ours) && Grown(old(github.log), github.log)
  {
    var admitted := Admit(github, expected, tagged);
    if !admitted || !tagged {
      return admitted;
    }
    ok := PublishAdmitted(github, expected);
  }

  /** From `was` the distribution has become public: whole, and with nothing sent twice. */
  ghost predicate Completed(was: Option<Release>, now: Option<Release>, expected: seq<File>) {
    && now.Some? && Complete(now.value.assets, expected)
    && if was.Some? then now.value == Finished(was.value, expected) else PublishedWith(now.value, expected)
  }

  method PublishAdmitted(github: Github, expected: seq<File>) returns (ok: bool)
    requires github.Valid() && Safe(github.log, github.tag, expected)
    modifies github
    ensures github.Valid() && Safe(github.log, github.tag, expected)
    ensures ok ==> SawPublished(github.log, github.tag, expected)
    ensures github.quiet && DistinctFiles(expected) && Recoverable(old(github.ours), expected) ==>
      (Recoverable(github.ours, expected) <==> Unbroken(github.ours))
    ensures github.quiet && github.reliable && DistinctFiles(expected) ==>
      (ok <==> Recoverable(old(github.ours), expected) && |old(github.others)| + 1 < SCAN_LIMIT)
    ensures github.quiet && DistinctFiles(expected) && ok ==> Completed(old(github.ours), github.ours, expected)
    ensures github.quiet ==> github.others == old(github.others)
    ensures (github.quiet
             && !(Recoverable(old(github.ours), expected) && InBounds(old(github.ours), old(github.others)))) ==>
      !ok && github.ours == old(github.ours)
    ensures (github.quiet && github.reliable && DistinctFiles(expected)
             && old(github.ours).None? && |old(github.others)| + 1 == SCAN_LIMIT) ==>
      github.ours.Some? && DraftWith(github.ours.value, expected)
    ensures (github.quiet && old(github.ours).Some? && old(github.ours).value.draft == Some(false)) ==>
      github.ours == old(github.ours) && Grown(old(github.log), github.log)
  {
    ghost var log := github.log;
    var found := ReleaseForTag(github);
    SafeGrown(log, github.log, github.tag, expected);
    if found.Err? {
      return false;
    }
    if found.value.Some? {
      if github.quiet && DistinctFiles(expected) && Recoverable(old(github.ours), expected) {
        FinishedIsComplete(found.value.value, expected);
      }
      var resumed := ResumePublication(github, expected, found.value.value);
      if !resumed {
        return false;
      }
    } else {
      var created := CreateRelease(github, expected);
      if !created {
        return false;
      }
    }
    ok := VerifyPublished(github, expected);
  }

  /** Publishing once more after each failure. Alone and when nothing fails, the first attempt decides:
      repeating never repairs a state in which it was refused. */
  method PublishAgain(github: Github, expected: seq<File>, attempts: nat) returns (ok: bool)
    requires github.Valid() && Safe(github.log, github.tag, expected)
    requires github.quiet && github.reliable && DistinctFiles(expected)
    modifies github
    ensures github.Valid() && Safe(github.log, github.tag, expected)
    ensures ok <==>
      attempts > 0 && Recoverable(old(github.ours), expected) && |old(github.others)| + 1 < SCAN_LIMIT
    ensures ok ==> Completed(old(github.ours), github.ours, expected)
  {
    for attempt := 0 to attempts
      invariant github.Valid() && Safe(github.log, github.tag, expected) && github.others == old(github.others)
      invariant attempt == 0 ==> github.ours == old(github.ours)
      invariant attempt > 0 ==>
        && !(Recoverable(old(github.ours), expected) && |old(github.others)| + 1 < SCAN_LIMIT)
        && !(Recoverable(github.ours, expected) && |github.others| + 1 < SCAN_LIMIT)
    {
      ok := PublishRelease(github, expected, true);
      if ok {
        return true;
      }
    }
    return false;
  }

  /** Any number of attempts that may crash at any command, and then one in which nothing fails: it succeeds
      exactly if the crashes left no half-finished asset. `clean` is the world of `crashing` after it has calmed. */
  method PublishAfterCrashes(crashing: Github, clean: Github, expected: seq<File>, attempts: nat) returns (ok: bool)
    requires crashing.Valid() && crashing.quiet && Safe(crashing.log, crashing.tag, expected)
    requires clean != crashing && clean.tag == crashing.tag && clean.quiet && clean.reliable
    requires DistinctFiles(expected)
    requires Recoverable(crashing.ours, expected) && |crashing.others| + 1 < SCAN_LIMIT
    modifies crashing, clean
    ensures clean.Valid() && Safe(clean.log, clean.tag, expected)
    ensures ok <==> Unbroken(crashing.ours)
    ensures ok ==> Completed(crashing.ours, clean.ours, expected)
    ensures !ok ==> clean.ours == crashing.ours
    ensures clean.others == old(crashing.others)
  {
    RecoverableIsUnbroken(crashing.ours, expected);
    for attempt := 0 to attempts
      invariant crashing.Valid() && Safe(crashing.log, crashing.tag, expected)
      invariant crashing.others == old(crashing.others)
      invariant Recoverable(crashing.ours, expected) <==> Unbroken(crashing.ours)
    {
      var _ := PublishRelease(crashing, expected, true);
    }
    clean.ours, clean.others, clean.log := crashing.ours, crashing.others, crashing.log;
    ok := PublishRelease(clean, expected, true);
  }

  lemma RecoverableIsUnbroken(ours: Option<Release>, expected: seq<File>)
    requires Recoverable(ours, expected)
    ensures Unbroken(ours)
  {
  }

  // ---------------------------------------------------------------- where publication stops for good

  /** A crash in the middle of the only upload: the draft with its half-finished asset, which GitHub shows
      as a starter, is refused from then on. */
  lemma StarterIsNotRecoverable(file: File, id: nat, tag: string)
    ensures var draft := Release(id, tag, Some(true), [Asset(file.name, "starter", "")]);
      && PartUploaded([file], [], draft.assets, false)
      && Correct(Uploaded(file), [file])
      && !Recoverable(Some(draft), [file])
  {
    var asset := Asset(file.name, "starter", "");
    PartRefl([file]);
    assert ArePartTraces([file], [file], [asset]);
    assert Traced([file], [asset], false) && [] + [asset] == [asset];
    assert !Correct([asset][0], [file]);
  }

  /** Beside 99 other releases a listing admits the creation of a draft, and no listing admits the draft. */
  lemma NinetyNineOthers(all: seq<Release>, draft: Release, others: seq<Release>, tag: string)
    requires |others| == 99 && draft.tag == tag && forall i :: 0 <= i < |others| ==> others[i].tag != tag
    ensures IsInventory(all, None, others) ==> ShowsNone(Listed(all), tag)
    ensures IsInventory(all, Some(draft), others) ==> |all| >= SCAN_LIMIT
    ensures Recoverable(None, []) && InBounds(None, others) && !InBounds(Some(draft), others)
  {
    if IsInventory(all, None, others) {
      MatchingInventory(all, None, others, tag);
      MatchingNone(all, tag);
    }
    if IsInventory(all, Some(draft), others) {
      MatchingInventory(all, Some(draft), others, tag);
    }
  }
}
