/** The file inventory of the native proof tools, `default_files` of `xtask/src/proof_tools.rs`, on a
  file system that does not change. Directories list their entries in any order.
  */
module DefaultFiles {

  import opened Wrappers
  import opened DefaultRoles
  import opened Collections

  type Path = string

  datatype Kind = Executable | Library | SupportFile

  /** What a regular file shows: its length, its identity, and as what kinds of object it is admitted. */
  datatype Observed = Observed(length: nat, identity: int, admits: set<Kind>)

  type FileSystem = map<Path, Observed>

  datatype DefaultFile = DefaultFile(path: Path, identity: int, bytes: nat)

  datatype Candidate = Candidate(path: Path, kind: Kind, role: Role)

  /** An entry of a support directory, by its name: the nested `rustlib`, or its extension. */
  datatype Shape = Rustlib | Rlib | Shared | Unregistered

  datatype Member = Member(path: Path, shape: Shape)

  // ---------------------------------------------------------------- what may be included

  predicate Readable(fs: FileSystem, c: Candidate) {
    c.path in fs && c.kind in fs[c.path].admits && fs[c.path].length <= MAX_OBJECT_BYTES
  }

  predicate AllReadable(fs: FileSystem, cs: seq<Candidate>) {
    forall i :: 0 <= i < |cs| ==> Readable(fs, cs[i])
  }

  function Length(fs: FileSystem, c: Candidate): nat {
    if c.path in fs then fs[c.path].length else 0
  }

  function Bytes(fs: FileSystem, cs: seq<Candidate>): nat {
    if cs == [] then 0 else Bytes(fs, cs[..|cs| - 1]) + Length(fs, cs[|cs| - 1])
  }

  /** No required role is filled twice. */
  predicate DistinctRoles(cs: seq<Candidate>) {
    forall i, j :: 0 <= i < j < |cs| ==> cs[i].role == cs[j].role ==> cs[i].role == Support
  }

  /** Every candidate is a readable file, no required role is filled twice, and the budget holds. */
  predicate Admissible(fs: FileSystem, cs: seq<Candidate>) {
    AllReadable(fs, cs) && DistinctRoles(cs) && |cs| <= MAX_MEMBERS && Bytes(fs, cs) <= MAX_TOTAL_BYTES
  }

  predicate AreRoles(roles: seq<Role>, cs: seq<Candidate>) {
    |roles| == |cs| && forall i :: 0 <= i < |cs| ==> roles[i] == cs[i].role
  }

  function FileOf(fs: FileSystem, c: Candidate): DefaultFile
    requires c.path in fs
  {
    DefaultFile(c.path, fs[c.path].identity, fs[c.path].length)
  }

  predicate AreFiles(fs: FileSystem, files: seq<DefaultFile>, cs: seq<Candidate>) {
    |files| == |cs| && forall i :: 0 <= i < |cs| ==> cs[i].path in fs && files[i] == FileOf(fs, cs[i])
  }

  lemma {:induction false} BytesBounded(fs: FileSystem, cs: seq<Candidate>)
    requires AllReadable(fs, cs)
    ensures Bytes(fs, cs) <= |cs| * MAX_OBJECT_BYTES
  {
    if cs != [] {
      BytesBounded(fs, cs[..|cs| - 1]);
    }
  }

  /** Admissibility grows one candidate at a time, by exactly what the roles and the budget check. */
  lemma AdmissibleNext(fs: FileSystem, cs: seq<Candidate>, c: Candidate, roles: seq<Role>)
    requires Admissible(fs, cs) && AreRoles(roles, cs)
    ensures Distinct(roles)
    ensures Admissible(fs, cs + [c]) <==>
      && Readable(fs, c)
      && Distinct(roles + [c.role])
      && IncludeBytes(Budget(|cs|, Bytes(fs, cs)), Length(fs, c)).Ok?
    ensures AreRoles(roles + [c.role], cs + [c])
    ensures Bytes(fs, cs + [c]) == Bytes(fs, cs) + Length(fs, c)
  {
    SameDistinct(roles, cs);
    RolesNext(cs, c, roles);
    SameDistinct(roles + [c.role], cs + [c]);
    ReadableNext(fs, cs, c);
  }

  lemma RolesNext(cs: seq<Candidate>, c: Candidate, roles: seq<Role>)
    requires AreRoles(roles, cs)
    ensures AreRoles(roles + [c.role], cs + [c])
  {
  }

  lemma ReadableNext(fs: FileSystem, cs: seq<Candidate>, c: Candidate)
    ensures AllReadable(fs, cs + [c]) <==> AllReadable(fs, cs) && Readable(fs, c)
    ensures Bytes(fs, cs + [c]) == Bytes(fs, cs) + Length(fs, c)
  {
    var all := cs + [c];
    assert all[..|cs|] == cs && all[|cs|] == c && forall i :: 0 <= i < |cs| ==> all[i] == cs[i];
  }

  /** The budget of what was admitted is one that could have been reached. */
  lemma AdmissibleIsObserved(fs: FileSystem, cs: seq<Candidate>)
    requires Admissible(fs, cs)
    ensures FromObservation(|cs|, Bytes(fs, cs)).Some?
  {
    BytesBounded(fs, cs);
  }

  lemma FilesNext(fs: FileSystem, files: seq<DefaultFile>, cs: seq<Candidate>, c: Candidate)
    requires AreFiles(fs, files, cs) && c.path in fs
    ensures AreFiles(fs, files + [FileOf(fs, c)], cs + [c])
  {
  }

  lemma SameDistinct(roles: seq<Role>, cs: seq<Candidate>)
    requires AreRoles(roles, cs)
    ensures Distinct(roles) <==> DistinctRoles(cs)
  {
  }

  // ---------------------------------------------------------------- the snapshot

  class Snapshot {
    var files: seq<DefaultFile>
    var roles: bv32
    var budget: Budget
    ghost var taken: seq<Candidate>
    ghost var filled: seq<Role>

    ghost predicate Valid(fs: FileSystem)
      reads this
    {
      && Admissible(fs, taken)
      && AreFiles(fs, files, taken)
      && AreRoles(filled, taken) && roles == Mask(filled)
      && budget == Budget(|taken|, Bytes(fs, taken))
    }

    constructor (fs: FileSystem)
      ensures Valid(fs) && taken == []
    {
      files, roles, budget, taken, filled := [], 0, Budget(0, 0), [], [];
    }

    /** The roles and the budget with one more file, if it may be taken in. */
    method Admit(fs: FileSystem, c: Candidate) returns (r: Result<(bv32, Budget), Refusal>)
      requires Valid(fs)
      ensures r.Ok? <==> Admissible(fs, taken + [c])
      ensures r.Ok? ==> r.value.0 == Mask(filled + [c.role])
      ensures r.Ok? ==> r.value.1 == Budget(|taken| + 1, Bytes(fs, taken + [c]))
      ensures AreRoles(filled + [c.role], taken + [c])
    {
      AdmissibleNext(fs, taken, c, filled);
      AdmissibleIsObserved(fs, taken);
      var mask := TakeRole(roles, filled, c.role);
      if mask.Err? {
        return Err(mask.error);
      }
      if c.path !in fs {
        return Err(Missing);
      }
      var admitted := FromObservation(budget.members, budget.bytes);
      var next := IncludeBytes(admitted.value, fs[c.path].length);
      if next.Err? {
        return Err(next.error);
      }
      if c.kind !in fs[c.path].admits {
        return Err(Object);
      }
      return Ok((mask.value, next.value));
    }

    /** Takes in one file, or changes nothing. */
    method Include(fs: FileSystem, c: Candidate) returns (ok: bool)
      requires Valid(fs)
      modifies this
      ensures Valid(fs)
      ensures ok <==> Admissible(fs, old(taken) + [c])
      ensures taken == if ok then old(taken) + [c] else old(taken)
    {
      var admitted := Admit(fs, c);
      if admitted.Err? {
        return false;
      }
      FilesNext(fs, files, taken, c);
      files := files + [FileOf(fs, c)];
      roles, budget := admitted.value.0, admitted.value.1;
      taken := taken + [c];
      filled := filled + [c.role];
      return true;
    }
  }

  /** The candidates a support directory stands for, in the order of its listing. */
  function SupportOf(listing: seq<Member>): Option<seq<Candidate>> {
    if listing == [] then Some([]) else
    match (SupportOf(listing[..|listing| - 1]), listing[|listing| - 1].shape)
    case (None, _) => None
    case (Some(_), Unregistered) => None
    case (Some(front), Rustlib) => Some(front)
    case (Some(front), Rlib) => Some(front + [Candidate(listing[|listing| - 1].path, SupportFile, Support)])
    case (Some(front), Shared) => Some(front + [Candidate(listing[|listing| - 1].path, Library, Support)])
  }

  lemma {:induction false} AdmissiblePrefix(fs: FileSystem, cs: seq<Candidate>, more: seq<Candidate>)
    requires Admissible(fs, cs + more)
    ensures Admissible(fs, cs)
    decreases |more|
  {
    if more != [] {
      var all, front := cs + more, cs + more[..|more| - 1];
      assert all == front + [more[|more| - 1]];
      assert forall i :: 0 <= i < |front| ==> all[i] == front[i];
      AdmissiblePrefix(fs, cs, more[..|more| - 1]);
    } else {
      assert cs + more == cs;
    }
  }

  lemma SupportNext(listing: seq<Member>, i: nat)
    requires i < |listing|
    ensures SupportOf(listing[..i]).None? ==> SupportOf(listing[..i + 1]).None?
    ensures SupportOf(listing[..i]).Some? ==>
      SupportOf(listing[..i + 1]) ==
        match listing[i].shape
        case Unregistered => None
        case Rustlib => SupportOf(listing[..i])
        case Rlib => Some(SupportOf(listing[..i]).value + [Candidate(listing[i].path, SupportFile, Support)])
        case Shared => Some(SupportOf(listing[..i]).value + [Candidate(listing[i].path, Library, Support)])
  {
    assert listing[..i + 1][..i] == listing[..i];
  }

  /** What a listing stands for begins with what each of its prefixes stands for. */
  lemma {:induction false} SupportPrefix(listing: seq<Member>, i: nat) returns (more: seq<Candidate>)
    requires i <= |listing| && SupportOf(listing).Some?
    ensures SupportOf(listing[..i]).Some? && SupportOf(listing).value == SupportOf(listing[..i]).value + more
    decreases |listing| - i
  {
    if i == |listing| {
      assert listing[..i] == listing;
      more := [];
    } else {
      more := SupportPrefix(listing, i + 1);
      SupportNext(listing, i);
      var here, next := SupportOf(listing[..i]).value, SupportOf(listing[..i + 1]).value;
      assert next == here + next[|here|..];
      more := next[|here|..] + more;
    }
  }

  /** What is admitted of a listing is admitted of each of its prefixes. */
  lemma SupportAdmitted(fs: FileSystem, start: seq<Candidate>, listing: seq<Member>, i: nat)
    requires i <= |listing| && SupportOf(listing).Some? && Admissible(fs, start + SupportOf(listing).value)
    ensures SupportOf(listing[..i]).Some? && Admissible(fs, start + SupportOf(listing[..i]).value)
  {
    var more := SupportPrefix(listing, i);
    AdmissibleFront(fs, start, SupportOf(listing[..i]).value, more);
  }

  lemma AdmissibleFront(fs: FileSystem, start: seq<Candidate>, front: seq<Candidate>, more: seq<Candidate>)
    requires Admissible(fs, start + (front + more))
    ensures Admissible(fs, start + front)
  {
    assert start + (front + more) == (start + front) + more;
    AdmissiblePrefix(fs, start + front, more);
  }

  /** Takes in one entry of a support directory, or refuses it. */
  method IncludeMember(
    fs: FileSystem, snapshot: Snapshot, ghost start: seq<Candidate>, ghost listing: seq<Member>, ghost i: nat,
    member: Member)
    returns (ok: bool)
    requires snapshot.Valid(fs) && i < |listing| && listing[i] == member
    requires SupportOf(listing[..i]).Some? && snapshot.taken == start + SupportOf(listing[..i]).value
    modifies snapshot
    ensures snapshot.Valid(fs)
    ensures ok <==> SupportOf(listing[..i + 1]).Some? && Admissible(fs, start + SupportOf(listing[..i + 1]).value)
    ensures ok ==> snapshot.taken == start + SupportOf(listing[..i + 1]).value
  {
    SupportNext(listing, i);
    if member.shape == Rustlib {
      return true;
    }
    if member.shape == Unregistered {
      return false;
    }
    var candidate := Candidate(member.path, if member.shape == Rlib then SupportFile else Library, Support);
    assert start + SupportOf(listing[..i + 1]).value == snapshot.taken + [candidate];
    ok := snapshot.Include(fs, candidate);
  }

  method IncludeSupport(fs: FileSystem, snapshot: Snapshot, listing: seq<Member>) returns (ok: bool)
    requires snapshot.Valid(fs)
    modifies snapshot
    ensures snapshot.Valid(fs)
    ensures ok <==> SupportOf(listing).Some? && Admissible(fs, old(snapshot.taken) + SupportOf(listing).value)
    ensures ok ==> snapshot.taken == old(snapshot.taken) + SupportOf(listing).value
  {
    ghost var start := snapshot.taken;
    assert start + [] == start;
    for i := 0 to |listing|
      invariant snapshot.Valid(fs)
      invariant SupportOf(listing[..i]).Some? && snapshot.taken == start + SupportOf(listing[..i]).value
    {
      var included := IncludeMember(fs, snapshot, start, listing, i, listing[i]);
      if !included {
        if SupportOf(listing).Some? && Admissible(fs, start + SupportOf(listing).value) {
          SupportAdmitted(fs, start, listing, i + 1);
        }
        return false;
      }
    }
    assert listing[..|listing|] == listing;
    return true;
  }

  method IncludeRequired(fs: FileSystem, snapshot: Snapshot, required: seq<Candidate>) returns (ok: bool)
    requires snapshot.Valid(fs) && snapshot.taken == []
    modifies snapshot
    ensures snapshot.Valid(fs)
    ensures ok <==> Admissible(fs, required)
    ensures ok ==> snapshot.taken == required
  {
    for i := 0 to |required|
      invariant snapshot.Valid(fs) && snapshot.taken == required[..i]
    {
      assert required[..i + 1] == required[..i] + [required[i]];
      if Admissible(fs, required) {
        assert required == required[..i + 1] + required[i + 1..];
        AdmissiblePrefix(fs, required[..i + 1], required[i + 1..]);
      }
      var included := snapshot.Include(fs, required[i]);
      if !included {
        return false;
      }
    }
    assert required[..|required|] == required;
    return true;
  }

  // ---------------------------------------------------------------- sorting by path

  ghost predicate TotalOrder(below: (Path, Path) -> bool) {
    && (forall p, q :: below(p, q) || below(q, p))
    && (forall p, q :: below(p, q) && below(q, p) ==> p == q)
    && (forall p, q, r :: below(p, q) && below(q, r) ==> below(p, r))
  }

  predicate Sorted(below: (Path, Path) -> bool, files: seq<DefaultFile>) {
    forall i, j :: 0 <= i < j < |files| ==> below(files[i].path, files[j].path)
  }

  function Insert(below: (Path, Path) -> bool, file: DefaultFile, sorted: seq<DefaultFile>): seq<DefaultFile> {
    if sorted == [] || below(file.path, sorted[0].path) then [file] + sorted
    else [sorted[0]] + Insert(below, file, sorted[1..])
  }

  function SortByPath(below: (Path, Path) -> bool, files: seq<DefaultFile>): seq<DefaultFile> {
    if files == [] then [] else Insert(below, files[0], SortByPath(below, files[1..]))
  }

  lemma {:induction false} InsertKeeps(below: (Path, Path) -> bool, file: DefaultFile, sorted: seq<DefaultFile>)
    ensures multiset(Insert(below, file, sorted)) == multiset(sorted) + multiset{file}
  {
    if !(sorted == [] || below(file.path, sorted[0].path)) {
      InsertKeeps(below, file, sorted[1..]);
      assert sorted == [sorted[0]] + sorted[1..];
    }
  }

  lemma InsertMembers(below: (Path, Path) -> bool, file: DefaultFile, sorted: seq<DefaultFile>, j: nat)
    requires j < |Insert(below, file, sorted)|
    ensures var one := Insert(below, file, sorted)[j]; one == file || one in sorted
  {
    InsertKeeps(below, file, sorted);
    assert Insert(below, file, sorted)[j] in multiset(Insert(below, file, sorted));
  }

  lemma {:induction false} InsertSorts(below: (Path, Path) -> bool, file: DefaultFile, sorted: seq<DefaultFile>)
    requires TotalOrder(below) && Sorted(below, sorted)
    ensures Sorted(below, Insert(below, file, sorted))
  {
    if !(sorted == [] || below(file.path, sorted[0].path)) {
      var rest := Insert(below, file, sorted[1..]);
      InsertSorts(below, file, sorted[1..]);
      forall j | 0 <= j < |rest| ensures below(sorted[0].path, rest[j].path) {
        InsertMembers(below, file, sorted[1..], j);
        if rest[j] in sorted[1..] {
          var k :| 0 <= k < |sorted[1..]| && sorted[1..][k] == rest[j];
          assert sorted[k + 1] == rest[j];
        }
      }
    }
  }

  lemma {:induction false} SortSorts(below: (Path, Path) -> bool, files: seq<DefaultFile>)
    requires TotalOrder(below)
    ensures Sorted(below, SortByPath(below, files))
    ensures multiset(SortByPath(below, files)) == multiset(files)
  {
    if files != [] {
      SortSorts(below, files[1..]);
      InsertSorts(below, files[0], SortByPath(below, files[1..]));
      InsertKeeps(below, files[0], SortByPath(below, files[1..]));
      assert files == [files[0]] + files[1..];
    }
  }

  /** A path stands for one file. */
  ghost predicate OneFilePerPath(files: seq<DefaultFile>) {
    forall f, g :: f in files && g in files && f.path == g.path ==> f == g
  }

  /** Sorted lists of the same files are the same list, if a path stands for one file. */
  lemma {:induction false} SortedUnique(below: (Path, Path) -> bool, a: seq<DefaultFile>, b: seq<DefaultFile>)
    requires TotalOrder(below) && Sorted(below, a) && Sorted(below, b) && multiset(a) == multiset(b)
    requires OneFilePerPath(a) && OneFilePerPath(b)
    ensures a == b
    decreases |a|
  {
    assert |multiset(a)| == |multiset(b)|;
    if a != [] {
      SameFirst(below, a, b);
      WithoutFirst(a);
      WithoutFirst(b);
      SortedRest(below, a);
      SortedRest(below, b);
      SortedUnique(below, a[1..], b[1..]);
      SameParts(a, b);
    }
  }

  lemma SortedRest(below: (Path, Path) -> bool, a: seq<DefaultFile>)
    requires Sorted(below, a) && OneFilePerPath(a) && a != []
    ensures Sorted(below, a[1..]) && OneFilePerPath(a[1..])
  {
  }

  lemma SameParts(a: seq<DefaultFile>, b: seq<DefaultFile>)
    requires a != [] && b != [] && a[0] == b[0] && a[1..] == b[1..]
    ensures a == b
  {
    assert a == [a[0]] + a[1..] && b == [b[0]] + b[1..];
  }

  lemma WithoutFirst(a: seq<DefaultFile>)
    requires a != []
    ensures multiset(a[1..]) == multiset(a) - multiset{a[0]}
  {
    assert a == [a[0]] + a[1..];
  }

  lemma SameFirst(below: (Path, Path) -> bool, a: seq<DefaultFile>, b: seq<DefaultFile>)
    requires TotalOrder(below) && Sorted(below, a) && Sorted(below, b) && multiset(a) == multiset(b)
    requires OneFilePerPath(a) && a != [] && b != []
    ensures a[0] == b[0]
  {
    assert a[0] in multiset(b) && b[0] in multiset(a);
    var i :| 0 <= i < |b| && b[i] == a[0];
    var j :| 0 <= j < |a| && a[j] == b[0];
    assert below(a[0].path, a[j].path) && below(b[0].path, b[i].path);
    assert a[0] in a && a[j] in a;
  }

  // ---------------------------------------------------------------- the whole inventory

  datatype Inventory = Inventory(
    files: seq<DefaultFile>, directories: seq<DefaultFile>, absent: seq<Path>, roles: bv32, members: nat, bytes: nat)

  // ---------------------------------------------------------------- the directories

  /** The directories that exist, with their identities. */
  type Directories = map<Path, int>

  /** The directories that a scan records: those of the support files, those that may be absent, and those
      that have to exist. */
  datatype Places = Places(support: seq<Path>, optional: seq<Path>, needed: seq<Path>)

  predicate AllThere(dirs: Directories, paths: seq<Path>) {
    forall i :: 0 <= i < |paths| ==> paths[i] in dirs
  }

  /** The directories among these that exist, in order. */
  function Recorded(dirs: Directories, paths: seq<Path>): seq<DefaultFile> {
    if paths == [] then [] else
    var front, last := Recorded(dirs, paths[..|paths| - 1]), paths[|paths| - 1];
    if last in dirs then front + [DefaultFile(last, dirs[last], 0)] else front
  }

  function Absent(dirs: Directories, paths: seq<Path>): seq<Path> {
    if paths == [] then [] else
    var front, last := Absent(dirs, paths[..|paths| - 1]), paths[|paths| - 1];
    if last in dirs then front else front + [last]
  }

  /** Records directories one after the other; an absent one is a refusal, unless it may be absent. */
  method RecordDirectories(dirs: Directories, paths: seq<Path>, optional: bool)
    returns (ok: bool, recorded: seq<DefaultFile>, absent: seq<Path>)
    ensures ok <==> optional || AllThere(dirs, paths)
    ensures ok ==> recorded == Recorded(dirs, paths) && absent == Absent(dirs, paths)
  {
    recorded, absent := [], [];
    for i := 0 to |paths|
      invariant optional || AllThere(dirs, paths[..i])
      invariant recorded == Recorded(dirs, paths[..i]) && absent == Absent(dirs, paths[..i])
    {
      assert paths[..i + 1][..i] == paths[..i];
      if paths[i] in dirs {
        recorded := recorded + [DefaultFile(paths[i], dirs[paths[i]], 0)];
      } else if optional {
        absent := absent + [paths[i]];
      } else {
        return false, [], [];
      }
    }
    assert paths[..|paths|] == paths;
    return true, recorded, absent;
  }

  /** Every directory asked for is recorded with its identity or absent, and never both. */
  lemma {:induction false} RecordedOrAbsent(dirs: Directories, paths: seq<Path>)
    ensures forall f :: f in Recorded(dirs, paths) <==>
      f.path in paths && f.path in dirs && f == DefaultFile(f.path, dirs[f.path], 0)
    ensures forall p :: p in Absent(dirs, paths) <==> p in paths && p !in dirs
  {
    if paths != [] {
      var front, last := paths[..|paths| - 1], paths[|paths| - 1];
      RecordedOrAbsent(dirs, front);
      assert paths == front + [last];
    }
  }

  /** All directories of a scan, in the order in which it records them. */
  function AllRecorded(dirs: Directories, places: Places): seq<DefaultFile> {
    Recorded(dirs, places.support) + Recorded(dirs, places.optional) + Recorded(dirs, places.needed)
  }

  method ScanDirectories(dirs: Directories, places: Places)
    returns (ok: bool, recorded: seq<DefaultFile>, absent: seq<Path>)
    ensures ok <==> AllThere(dirs, places.support) && AllThere(dirs, places.needed)
    ensures ok ==> recorded == AllRecorded(dirs, places) && absent == Absent(dirs, places.optional)
  {
    var found, supported, none := RecordDirectories(dirs, places.support, false);
    if !found {
      return false, [], [];
    }
    var _, present, missing := RecordDirectories(dirs, places.optional, true);
    var complete, needed, nothing := RecordDirectories(dirs, places.needed, false);
    return complete, supported + present + needed, missing;
  }

  // ---------------------------------------------------------------- one scan

  /** All candidates of a scan, in the order in which it meets them. */
  function Candidates(required: seq<Candidate>, library: seq<Member>, target: seq<Member>): Option<seq<Candidate>> {
    match (SupportOf(library), SupportOf(target))
    case (Some(first), Some(second)) => Some(required + first + second)
    case _ => None
  }

  predicate Fills(cs: seq<Candidate>, r: Role) {
    exists i :: 0 <= i < |cs| && cs[i].role == r
  }

  predicate FilledAt(cs: seq<Candidate>, r: Role, i: nat) {
    i < |cs| && cs[i].role == r && forall j :: 0 <= j < |cs| && cs[j].role == r ==> j == i
  }

  /** Exactly one candidate fills this role. */
  ghost predicate FillsOnce(cs: seq<Candidate>, r: Role) {
    exists i: nat :: FilledAt(cs, r, i)
  }

  ghost predicate FillsAll(cs: seq<Candidate>) {
    forall r: Role :: r != Support ==> Fills(cs, r)
  }

  /** The inventory lists, sorted by path, exactly the files of these candidates and these directories. */
  ghost predicate Lists(
    below: (Path, Path) -> bool, fs: FileSystem, dirs: Directories, places: Places, inventory: Inventory,
    cs: seq<Candidate>)
  {
    && inventory.roles == REQUIRED_ROLES
    && inventory.members == |cs| && inventory.bytes == Bytes(fs, cs)
    && inventory.directories == SortByPath(below, AllRecorded(dirs, places))
    && inventory.absent == Absent(dirs, places.optional)
    && exists files :: AreFiles(fs, files, cs) && inventory.files == SortByPath(below, files)
  }

  /** All that a scan looks at: the file system, the places, the required files, and its two listings. */
  datatype Scene = Scene(
    fs: FileSystem, dirs: Directories, places: Places, required: seq<Candidate>,
    library: seq<Member>, target: seq<Member>)

  function Found(scene: Scene): Option<seq<Candidate>> {
    Candidates(scene.required, scene.library, scene.target)
  }

  /** The scan of this scene succeeds. */
  ghost predicate Complete(scene: Scene) {
    && Found(scene).Some? && Admissible(scene.fs, Found(scene).value) && FillsAll(Found(scene).value)
    && AllThere(scene.dirs, scene.places.support) && AllThere(scene.dirs, scene.places.needed)
  }

  /** What a scan of this scene answers. */
  ghost predicate Answers(below: (Path, Path) -> bool, scene: Scene, r: Result<Inventory, Refusal>) {
    && (r.Ok? <==> Complete(scene))
    && (r.Ok? ==> Lists(below, scene.fs, scene.dirs, scene.places, r.value, Found(scene).value))
  }

  /** Takes in the required files and the two support directories. */
  method TakeFiles(fs: FileSystem, required: seq<Candidate>, library: seq<Member>, target: seq<Member>)
    returns (ok: bool, snapshot: Snapshot)
    ensures fresh(snapshot) && snapshot.Valid(fs)
    ensures ok <==> var cs := Candidates(required, library, target); cs.Some? && Admissible(fs, cs.value)
    ensures ok ==> snapshot.taken == Candidates(required, library, target).value
  {
    snapshot := new Snapshot(fs);
    ok := IncludeRequired(fs, snapshot, required);
    if !ok {
      RequiredRefused(fs, required, library, target);
      return;
    }
    ok := IncludeSupport(fs, snapshot, library);
    if !ok {
      LibraryRefused(fs, required, library, target);
      return;
    }
    ok := IncludeSupport(fs, snapshot, target);
  }

  method ScanFiles(below: (Path, Path) -> bool, scene: Scene) returns (r: Result<Inventory, Refusal>)
    ensures Answers(below, scene, r)
  {
    var ok, snapshot := TakeFiles(scene.fs, scene.required, scene.library, scene.target);
    if !ok {
      return Err(Missing);
    }
    var found, recorded, absent := ScanDirectories(scene.dirs, scene.places);
    if !found {
      return Err(Missing);
    }
    FilledRoles(snapshot.filled, snapshot.taken);
    if snapshot.roles != REQUIRED_ROLES {
      return Err(Missing);
    }
    var files, directories := SortByPath(below, snapshot.files), SortByPath(below, recorded);
    var budget := snapshot.budget;
    return Ok(Inventory(files, directories, absent, snapshot.roles, budget.members, budget.bytes));
  }

  lemma RequiredRefused(fs: FileSystem, required: seq<Candidate>, library: seq<Member>, target: seq<Member>)
    requires !Admissible(fs, required)
    ensures var cs := Candidates(required, library, target); cs.None? || !Admissible(fs, cs.value)
  {
    var cs := Candidates(required, library, target);
    if cs.Some? && Admissible(fs, cs.value) {
      AdmissiblePrefix(fs, required + SupportOf(library).value, SupportOf(target).value);
      AdmissiblePrefix(fs, required, SupportOf(library).value);
    }
  }

  lemma LibraryRefused(fs: FileSystem, required: seq<Candidate>, library: seq<Member>, target: seq<Member>)
    requires SupportOf(library).None? || !Admissible(fs, required + SupportOf(library).value)
    ensures var cs := Candidates(required, library, target); cs.None? || !Admissible(fs, cs.value)
  {
    var cs := Candidates(required, library, target);
    if cs.Some? && Admissible(fs, cs.value) {
      AdmissiblePrefix(fs, required + SupportOf(library).value, SupportOf(target).value);
    }
  }

  lemma FilledRoles(roles: seq<Role>, cs: seq<Candidate>)
    requires AreRoles(roles, cs)
    ensures Mask(roles) == REQUIRED_ROLES <==> FillsAll(cs)
  {
    AdmitsAllRequired(roles);
    if FillsAll(cs) {
      forall r: Role | r != Support ensures r in roles {
        assert Fills(cs, r);
        var i :| 0 <= i < |cs| && cs[i].role == r;
        assert roles[i] == r;
      }
    }
    if HasAllRequired(roles) {
      forall r: Role | r != Support ensures Fills(cs, r) {
        assert r in roles;
        var i :| 0 <= i < |roles| && roles[i] == r;
        assert cs[i].role == r;
      }
    }
  }

  // ---------------------------------------------------------------- what an inventory is worth

  function TotalBytes(files: seq<DefaultFile>): nat {
    if files == [] then 0 else TotalBytes(files[..|files| - 1]) + files[|files| - 1].bytes
  }

  lemma {:induction false} BytesOfFiles(fs: FileSystem, files: seq<DefaultFile>, cs: seq<Candidate>)
    requires AreFiles(fs, files, cs)
    ensures TotalBytes(files) == Bytes(fs, cs)
  {
    if cs != [] {
      BytesOfFiles(fs, files[..|files| - 1], cs[..|cs| - 1]);
    }
  }

  /** A required role is filled by one candidate only. */
  lemma RoleFilledOnce(cs: seq<Candidate>, r: Role)
    requires FillsAll(cs) && DistinctRoles(cs) && r != Support
    ensures FillsOnce(cs, r)
  {
    assert Fills(cs, r);
    var i :| 0 <= i < |cs| && cs[i].role == r;
    forall j | 0 <= j < |cs| && j != i ensures cs[j].role != r {
      if j < i && cs[j].role == r {
        assert false;
      }
    }
    assert FilledAt(cs, r, i);
  }

  /** What an inventory lists: these files, sorted, counted and summed within the budget. */
  ghost predicate CountsFiles(inventory: Inventory, files: seq<DefaultFile>) {
    && multiset(inventory.files) == multiset(files)
    && inventory.bytes == TotalBytes(files) <= MAX_TOTAL_BYTES
    && inventory.members == |inventory.files| <= MAX_MEMBERS
  }

  /** A successful inventory counts its files, sums their sizes within the budget, is sorted by path, and
      fills each required role exactly once. */
  lemma InventoryIsExact(
    below: (Path, Path) -> bool, fs: FileSystem, dirs: Directories, places: Places, inventory: Inventory,
    cs: seq<Candidate>)
    requires TotalOrder(below) && Lists(below, fs, dirs, places, inventory, cs) && Admissible(fs, cs) && FillsAll(cs)
    ensures exists files :: AreFiles(fs, files, cs) && CountsFiles(inventory, files)
    ensures Sorted(below, inventory.files)
    ensures forall r: Role :: r != Support ==> FillsOnce(cs, r)
  {
    var files :| AreFiles(fs, files, cs) && inventory.files == SortByPath(below, files);
    SortSorts(below, files);
    BytesOfFiles(fs, files, cs);
    assert |multiset(inventory.files)| == |multiset(files)|;
    assert CountsFiles(inventory, files);
    forall r: Role | r != Support ensures FillsOnce(cs, r) {
      RoleFilledOnce(cs, r);
    }
  }

  // ---------------------------------------------------------------- listing order does not matter

  function SupportOfOne(member: Member): Option<seq<Candidate>> {
    match member.shape
    case Unregistered => None
    case Rustlib => Some([])
    case Rlib => Some([Candidate(member.path, SupportFile, Support)])
    case Shared => Some([Candidate(member.path, Library, Support)])
  }

  lemma SupportLast(listing: seq<Member>, last: Member)
    ensures SupportOf(listing + [last]).Some? <==> SupportOf(listing).Some? && SupportOfOne(last).Some?
    ensures SupportOf(listing + [last]).Some? ==>
      SupportOf(listing + [last]).value == SupportOf(listing).value + SupportOfOne(last).value
  {
    assert (listing + [last])[..|listing|] == listing;
  }

  /** A member may stand anywhere in a listing. */
  lemma {:induction false} SupportMoved(before: seq<Member>, one: Member, after: seq<Member>)
    ensures SupportOf(before + ([one] + after)).Some? <==> SupportOf(before + after).Some? && SupportOfOne(one).Some?
    ensures SupportOf(before + ([one] + after)).Some? ==>
      multiset(SupportOf(before + ([one] + after)).value)
        == multiset(SupportOf(before + after).value + SupportOfOne(one).value)
    decreases |after|
  {
    if after == [] {
      assert before + ([one] + after) == before + [one] && before + after == before;
      SupportLast(before, one);
    } else {
      var front, last := after[..|after| - 1], after[|after| - 1];
      assert before + ([one] + after) == before + ([one] + front) + [last] && before + after == before + front + [last];
      SupportLast(before + ([one] + front), last);
      SupportLast(before + front, last);
      SupportMoved(before, one, front);
    }
  }

  /** Listings of the same members stand for the same candidates, in some order. */
  lemma {:induction false} SupportPermuted(a: seq<Member>, b: seq<Member>)
    requires multiset(a) == multiset(b)
    ensures SupportOf(a).Some? <==> SupportOf(b).Some?
    ensures SupportOf(a).Some? ==> multiset(SupportOf(a).value) == multiset(SupportOf(b).value)
    decreases |a|
  {
    if a == [] {
      assert |multiset(b)| == 0;
    } else {
      var k := RemoveLast(a, b);
      var front := a[..|a| - 1];
      assert a == front + [b[k]];
      SupportPermuted(front, b[..k] + b[k + 1..]);
      SupportLast(front, b[k]);
      SupportMoved(b[..k], b[k], b[k + 1..]);
    }
  }

  lemma {:induction false} BytesConcat(fs: FileSystem, a: seq<Candidate>, b: seq<Candidate>)
    ensures Bytes(fs, a + b) == Bytes(fs, a) + Bytes(fs, b)
    decreases |b|
  {
    if b == [] {
      assert a + b == a;
    } else {
      assert (a + b)[..|a + b| - 1] == a + b[..|b| - 1];
      BytesConcat(fs, a, b[..|b| - 1]);
    }
  }

  lemma {:induction false} BytesPermuted(fs: FileSystem, a: seq<Candidate>, b: seq<Candidate>)
    requires multiset(a) == multiset(b)
    ensures Bytes(fs, a) == Bytes(fs, b)
    decreases |a|
  {
    if a == [] {
      assert |multiset(b)| == 0;
    } else {
      var k := RemoveLast(a, b);
      BytesPermuted(fs, a[..|a| - 1], b[..k] + b[k + 1..]);
      BytesConcat(fs, b[..k], [b[k]] + b[k + 1..]);
      BytesConcat(fs, [b[k]], b[k + 1..]);
      BytesConcat(fs, b[..k], b[k + 1..]);
    }
  }

  lemma MemberOf(a: seq<Candidate>, b: seq<Candidate>, i: nat) returns (j: nat)
    requires multiset(a) == multiset(b) && i < |a|
    ensures j < |b| && b[j] == a[i]
  {
    assert a[i] in multiset(b);
    j :| 0 <= j < |b| && b[j] == a[i];
  }

  /** A role that occurs at most once does so in every order. */
  lemma DistinctPermuted(a: seq<Candidate>, b: seq<Candidate>)
    requires multiset(a) == multiset(b) && DistinctRoles(a)
    ensures DistinctRoles(b)
  {
    forall i, j | 0 <= i < j < |b| && b[i].role == b[j].role ensures b[i].role == Support {
      var k := MemberOf(b, a, i);
      var l := MemberOf(b, a, j);
      if k == l {
        assert b[..j] + b[j..] == b && b[i] in multiset(b[..j]) && b[j] in multiset(b[j..]);
        assert multiset(b)[b[i]] >= 2;
        OccursTwice(a, k);
      }
    }
  }

  lemma OccursTwice(a: seq<Candidate>, k: nat)
    requires k < |a| && multiset(a)[a[k]] >= 2 && DistinctRoles(a)
    ensures a[k].role == Support
  {
    var before, after := a[..k], a[k + 1..];
    assert a == before + [a[k]] + after;
    assert a[k] in multiset(before) || a[k] in multiset(after);
    if a[k] in multiset(before) {
      var i :| 0 <= i < |before| && before[i] == a[k];
      assert a[i] == a[k];
    } else {
      var i :| 0 <= i < |after| && after[i] == a[k];
      assert a[k + 1 + i] == a[k];
    }
  }

  lemma AdmissiblePermuted(fs: FileSystem, a: seq<Candidate>, b: seq<Candidate>)
    requires multiset(a) == multiset(b) && Admissible(fs, a)
    ensures Admissible(fs, b)
  {
    assert |multiset(a)| == |multiset(b)|;
    BytesPermuted(fs, a, b);
    DistinctPermuted(a, b);
    forall i | 0 <= i < |b| ensures Readable(fs, b[i]) {
      var j := MemberOf(b, a, i);
    }
  }

  lemma FillsPermuted(a: seq<Candidate>, b: seq<Candidate>)
    requires multiset(a) == multiset(b) && FillsAll(a)
    ensures FillsAll(b)
  {
    forall r: Role | r != Support ensures Fills(b, r) {
      assert Fills(a, r);
      var i: nat :| 0 <= i < |a| && a[i].role == r;
      var j := MemberOf(a, b, i);
    }
  }

  lemma {:induction false} FilesPermuted(
    fs: FileSystem, a: seq<Candidate>, b: seq<Candidate>, f: seq<DefaultFile>, g: seq<DefaultFile>)
    requires multiset(a) == multiset(b) && AreFiles(fs, f, a) && AreFiles(fs, g, b)
    ensures multiset(f) == multiset(g)
    decreases |a|
  {
    if a == [] {
      assert |multiset(b)| == 0;
    } else {
      var n := |a| - 1;
      var k := RemoveLast(a, b);
      FilesPermuted(fs, a[..n], b[..k] + b[k + 1..], f[..n], g[..k] + g[k + 1..]);
      PutBack(f, g, k);
    }
  }

  lemma SortedOnePerPath(below: (Path, Path) -> bool, files: seq<DefaultFile>)
    requires TotalOrder(below) && OneFilePerPath(files)
    ensures OneFilePerPath(SortByPath(below, files))
  {
    SortSorts(below, files);
    forall p | p in SortByPath(below, files) ensures p in files {
      assert p in multiset(SortByPath(below, files));
    }
  }

  lemma SortsAlike(below: (Path, Path) -> bool, f: seq<DefaultFile>, g: seq<DefaultFile>)
    requires TotalOrder(below) && multiset(f) == multiset(g) && OneFilePerPath(f) && OneFilePerPath(g)
    ensures SortByPath(below, f) == SortByPath(below, g)
  {
    SortSorts(below, f);
    SortSorts(below, g);
    SortedOnePerPath(below, f);
    SortedOnePerPath(below, g);
    SortedUnique(below, SortByPath(below, f), SortByPath(below, g));
  }

  /** Two scans of one file system give the same inventory, whatever order the directories list in. */
  lemma ListingOrderIsFree(
    below: (Path, Path) -> bool, fs: FileSystem, dirs: Directories, places: Places, x: Inventory, y: Inventory,
    a: seq<Candidate>, b: seq<Candidate>)
    requires TotalOrder(below) && multiset(a) == multiset(b)
    requires Lists(below, fs, dirs, places, x, a) && Lists(below, fs, dirs, places, y, b)
    ensures x == y
  {
    var f :| AreFiles(fs, f, a) && x.files == SortByPath(below, f);
    var g :| AreFiles(fs, g, b) && y.files == SortByPath(below, g);
    FilesAlike(below, fs, a, b, f, g);
    CountsAlike(fs, a, b);
  }

  lemma FilesAlike(below: (Path, Path) -> bool, fs: FileSystem, a: seq<Candidate>, b: seq<Candidate>,
    f: seq<DefaultFile>, g: seq<DefaultFile>)
    requires TotalOrder(below) && multiset(a) == multiset(b) && AreFiles(fs, f, a) && AreFiles(fs, g, b)
    ensures SortByPath(below, f) == SortByPath(below, g)
  {
    FilesPermuted(fs, a, b, f, g);
    PathsAreFiles(fs, f, a);
    PathsAreFiles(fs, g, b);
    SortsAlike(below, f, g);
  }

  lemma PathsAreFiles(fs: FileSystem, files: seq<DefaultFile>, cs: seq<Candidate>)
    requires AreFiles(fs, files, cs)
    ensures OneFilePerPath(files)
  {
  }

  lemma CountsAlike(fs: FileSystem, a: seq<Candidate>, b: seq<Candidate>)
    requires multiset(a) == multiset(b)
    ensures |a| == |b| && Bytes(fs, a) == Bytes(fs, b)
  {
    BytesPermuted(fs, a, b);
    assert |multiset(a)| == |multiset(b)|;
  }

  /** The scenes differ only in the order of their listings. */
  predicate SameListings(a: Scene, b: Scene) {
    && b == a.(library := b.library, target := b.target)
    && multiset(a.library) == multiset(b.library) && multiset(a.target) == multiset(b.target)
  }

  lemma FoundPermuted(a: Scene, b: Scene)
    requires SameListings(a, b)
    ensures Found(a).Some? ==> Found(b).Some? && multiset(Found(a).value) == multiset(Found(b).value)
  {
    SupportPermuted(a.library, b.library);
    SupportPermuted(a.target, b.target);
  }

  /** Whether a scan succeeds does not depend on the listing order either. */
  lemma ScanOrderIsFree(a: Scene, b: Scene)
    requires SameListings(a, b) && Complete(a)
    ensures Complete(b)
  {
    FoundPermuted(a, b);
    AdmissiblePermuted(a.fs, Found(a).value, Found(b).value);
    FillsPermuted(Found(a).value, Found(b).value);
  }

  /** Two scans of one file system, whose directories list their entries in any two orders, both fail or
      give the same inventory. */
  lemma TwoScansAgree(
    below: (Path, Path) -> bool, a: Scene, b: Scene, x: Result<Inventory, Refusal>, y: Result<Inventory, Refusal>)
    requires TotalOrder(below) && SameListings(a, b) && Answers(below, a, x) && Answers(below, b, y)
    ensures x.Ok? <==> y.Ok?
    ensures x.Ok? ==> x.value == y.value
  {
    if Complete(a) {
      ScanOrderIsFree(a, b);
      FoundPermuted(a, b);
      ListingOrderIsFree(below, a.fs, a.dirs, a.places, x.value, y.value, Found(a).value, Found(b).value);
    }
    if Complete(b) {
      ScanOrderIsFree(b, a);
    }
  }
}
