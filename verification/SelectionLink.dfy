/** The symbolic-link walk that binds a selected program, `selection_link` of `xtask/src/proof_tools.rs`.

  The walk rewrites the whole remaining path at each link and starts again from the root. The
  reference is the resolver of a POSIX kernel, `Resolve`, which never goes back. The file system
  is any static one.
  */
module SelectionLink {

  import opened Wrappers
  import DefaultRoles

  /** A component of an absolute path; the empty path is the root. */
  datatype Part = Name(name: string) | Up

  type Path = seq<Part>

  /** A link-free place in the file system. */
  type Place = seq<string>

  datatype Node = Directory | File | Link(absolute: bool, target: Path)

  type FileSystem = map<Place, Node>

  function NodeAt(fs: FileSystem, place: Place): Option<Node> {
    if place == [] then Some(Directory) else if place in fs then Some(fs[place]) else None
  }

  function Drop(place: Place): Place {
    if place == [] then [] else place[..|place| - 1]
  }

  function Enter(place: Place, part: Part): Place {
    match part case Up => Drop(place) case Name(n) => place + [n]
  }

  /** The place a path names when none of its components is a link. */
  function Physical(path: Path): Place {
    if path == [] then [] else Enter(Physical(path[..|path| - 1]), path[|path| - 1])
  }

  // ---------------------------------------------------------------- the reference resolver

  datatype Resolution = Found(place: Place) | Absent | TooManyLinks

  /** Resolves `todo` from the directory `done`, following at most `hops` links. */
  function Resolve(fs: FileSystem, done: Place, todo: Path, hops: nat): Resolution
    decreases hops, |todo|
  {
    if todo == [] then Found(done)
    else if NodeAt(fs, done) != Some(Directory) then Absent
    else
      match todo[0]
      case Up => Resolve(fs, Drop(done), todo[1..], hops)
      case Name(n) =>
        match NodeAt(fs, done + [n])
        case None => Absent
        case Some(Link(absolute, target)) =>
          if hops == 0 then TooManyLinks
          else Resolve(fs, if absolute then [] else done, target + todo[1..], hops - 1)
        case Some(_) => Resolve(fs, done + [n], todo[1..], hops)
  }

  /** The links that the resolver follows, each spelled as the path it has walked there: from the root, or
      since the last absolute link. It stands at `Physical(spelled)`. */
  function Trace(fs: FileSystem, spelled: Path, todo: Path, hops: nat): seq<Path>
    decreases hops, |todo|
  {
    if todo == [] || NodeAt(fs, Physical(spelled)) != Some(Directory) then [] else
    match todo[0]
    case Up => Trace(fs, spelled + [Up], todo[1..], hops)
    case Name(n) =>
      match NodeAt(fs, Physical(spelled) + [n])
      case None => []
      case Some(Link(absolute, target)) =>
        if hops == 0 then []
        else [spelled + [todo[0]]] + Trace(fs, if absolute then [] else spelled, target + todo[1..], hops - 1)
      case Some(_) => Trace(fs, spelled + [todo[0]], todo[1..], hops)
  }

  ghost predicate NoneTwice(trace: seq<Path>) {
    forall i, j :: 0 <= i < j < |trace| ==> trace[i] != trace[j]
  }

  // ---------------------------------------------------------------- the walk

  /** `lstat` of a path none of whose proper prefixes is a link; the walk asks about no other. */
  function LinkStatus(fs: FileSystem, path: Path): Option<Node> {
    if path == [] then Some(Directory)
    else if LinkStatus(fs, path[..|path| - 1]) != Some(Directory) then None
    else NodeAt(fs, Physical(path))
  }

  datatype Sight = Missing | Clear | LinkAt(end: nat)

  /** The status of each prefix of a path. */
  function Prefixes(fs: FileSystem, path: Path): nat -> Option<Node> {
    (k: nat) => if k <= |path| then LinkStatus(fs, path[..k]) else None
  }

  predicate IsLink(status: Option<Node>) {
    status.Some? && status.value.Link?
  }

  /** The first status after `i` that is missing or a link. */
  function LookAt(status: nat -> Option<Node>, length: nat, i: nat): (sight: Sight)
    requires i <= length
    ensures sight.LinkAt? ==> i < sight.end <= length && IsLink(status(sight.end))
    decreases length - i
  {
    if i == length then Clear else
    match status(i + 1)
    case None => Missing
    case Some(Link(_, _)) => LinkAt(i + 1)
    case Some(_) => LookAt(status, length, i + 1)
  }

  /** The first prefix of `path`, longer than `i`, that is missing or a link. */
  function Look(fs: FileSystem, path: Path, i: nat): (sight: Sight)
    requires i <= |path|
    ensures sight.LinkAt? ==> i < sight.end <= |path| && IsLink(LinkStatus(fs, path[..sight.end]))
  {
    LookAt(Prefixes(fs, path), |path|, i)
  }

  /** What is recorded of a link: its path and where it points. */
  datatype SelectionLink = SelectionLink(path: Path, absolute: bool, target: Path)

  function Redirect(link: SelectionLink, rest: Path): Path
    requires link.path != []
  {
    (if link.absolute then [] else link.path[..|link.path| - 1]) + link.target + rest
  }

  function Observed(fs: FileSystem, path: Path): (link: SelectionLink)
    requires IsLink(LinkStatus(fs, path))
    ensures link.path == path != []
  {
    var node := LinkStatus(fs, path).value;
    SelectionLink(path, node.absolute, node.target)
  }

  datatype Refusal = NotFound | Cyclic | Unresolved

  function Recorded(links: seq<SelectionLink>, path: Path): bool {
    exists i :: 0 <= i < |links| && links[i].path == path
  }

  /** What the walk does with a path: it is lost, it has ended, or it follows a link. */
  datatype Step = Lost | Ended | Onward(link: SelectionLink, rest: Path)

  function StepFrom(fs: FileSystem, path: Path): Step {
    match Look(fs, path, 0)
    case Missing => Lost
    case Clear => Ended
    case LinkAt(end) =>
      var link := Observed(fs, path[..end]);
      Onward(link, Redirect(link, path[end..]))
  }

  function Steps(fs: FileSystem): Path -> Step {
    (path: Path) => StepFrom(fs, path)
  }

  /** The walk from `remaining` on, with `links` already recorded. */
  function WalkBy(step: Path -> Step, remaining: Path, links: seq<SelectionLink>)
    : Result<(seq<SelectionLink>, Path), Refusal>
    decreases DefaultRoles.MAX_MEMBERS - |links|
  {
    match step(remaining)
    case Lost => Err(NotFound)
    case Ended => Ok((links, remaining))
    case Onward(link, rest) =>
      if |links| >= DefaultRoles.MAX_MEMBERS || Recorded(links, link.path) then Err(Cyclic)
      else WalkBy(step, rest, links + [link])
  }

  function Walk(fs: FileSystem, selected: Path): Result<(seq<SelectionLink>, Path), Refusal> {
    WalkBy(Steps(fs), selected, [])
  }

  datatype SelectedProgram = SelectedProgram(selected: Path, canonical: Place, links: seq<SelectionLink>)

  /** The inner loop of the walk: pushes one component after the other until one is missing or a link. */
  method FirstLink(fs: FileSystem, remaining: Path) returns (sight: Sight)
    ensures sight == Look(fs, remaining, 0)
  {
    var current: Path, index := [], 0;
    while index < |remaining|
      invariant 0 <= index <= |remaining| && current == remaining[..index]
      invariant Look(fs, remaining, 0) == Look(fs, remaining, index)
    {
      current := current + [remaining[index]];
      index := index + 1;
      assert current == remaining[..index];
      var metadata := LinkStatus(fs, current);
      if metadata.None? {
        return Missing;
      }
      if metadata.value.Link? {
        return LinkAt(index);
      }
    }
    return Clear;
  }

  /** `hops` is how many links the platform's own path resolution follows. */
  method SelectLink(fs: FileSystem, hops: nat, selected: Path) returns (r: Result<SelectedProgram, Refusal>)
    ensures r == match Walk(fs, selected)
                 case Err(e) => Err(e)
                 case Ok((links, _)) =>
                   match Resolve(fs, [], selected, hops)
                   case Found(place) => Ok(SelectedProgram(selected, place, links))
                   case _ => Err(Unresolved)
  {
    var remaining, links := selected, [];
    while true
      invariant |links| <= DefaultRoles.MAX_MEMBERS
      invariant Walk(fs, selected) == WalkBy(Steps(fs), remaining, links)
      decreases DefaultRoles.MAX_MEMBERS - |links|
    {
      var sight := FirstLink(fs, remaining);
      if sight == Missing {
        return Err(NotFound);
      }
      if sight == Clear {
        break;
      }
      var link := Observed(fs, remaining[..sight.end]);
      if |links| >= DefaultRoles.MAX_MEMBERS || Recorded(links, link.path) {
        return Err(Cyclic);
      }
      remaining := Redirect(link, remaining[sight.end..]);
      links := links + [link];
    }
    match Resolve(fs, [], selected, hops) {
      case Found(place) => return Ok(SelectedProgram(selected, place, links));
      case _ => return Err(Unresolved);
    }
  }

  // ---------------------------------------------------------------- what the record certifies

  /** Applies recorded links, in order, without looking at any file system. */
  function Replay(path: Path, links: seq<SelectionLink>): Option<Path>
    decreases |links|
  {
    if links == [] then Some(path)
    else if links[0].path != [] && links[0].path <= path then
      Replay(Redirect(links[0], path[|links[0].path|..]), links[1..])
    else None
  }

  ghost predicate Distinct(links: seq<SelectionLink>) {
    forall i, j :: 0 <= i < j < |links| ==> links[i].path != links[j].path
  }

  /** Every component of `path` exists and none is a link. */
  ghost predicate LinkFree(fs: FileSystem, path: Path) {
    forall i :: 0 <= i <= |path| ==> IsPlain(LinkStatus(fs, path[..i]))
  }

  predicate IsPlain(status: Option<Node>) {
    status.Some? && !status.value.Link?
  }

  /** The resolver walks a plain directory prefix without following a link. */
  lemma {:induction false} ResolvePrefix(fs: FileSystem, prefix: Path, rest: Path, hops: nat)
    requires LinkStatus(fs, prefix) == Some(Directory)
    ensures NodeAt(fs, Physical(prefix)) == Some(Directory)
    ensures Resolve(fs, [], prefix + rest, hops) == Resolve(fs, Physical(prefix), rest, hops)
    decreases |prefix|
  {
    if prefix == [] {
      assert prefix + rest == rest;
    } else {
      var front, last := prefix[..|prefix| - 1], prefix[|prefix| - 1];
      assert prefix + rest == front + ([last] + rest);
      ResolvePrefix(fs, front, [last] + rest, hops);
      assert ([last] + rest)[1..] == rest;
    }
  }

  /** A rewritten path starts at the root, or in the directory of its link. */
  lemma RedirectStarts(fs: FileSystem, link: SelectionLink, front: Path, rest: Path, hops: nat)
    requires LinkStatus(fs, front) == Some(Directory)
    requires link.path != [] && link.path[..|link.path| - 1] == front
    ensures Resolve(fs, [], Redirect(link, rest), hops)
      == Resolve(fs, if link.absolute then [] else Physical(front), link.target + rest, hops)
  {
    if link.absolute {
      assert Redirect(link, rest) == link.target + rest;
    } else {
      assert Redirect(link, rest) == front + (link.target + rest);
      ResolvePrefix(fs, front, link.target + rest, hops);
    }
  }

  /** Following one link by rewriting the path is what the resolver does. */
  lemma RedirectResolves(fs: FileSystem, path: Path, end: nat, hops: nat)
    requires Look(fs, path, 0) == LinkAt(end)
    ensures var link := Observed(fs, path[..end]);
      && Resolve(fs, [], path, 0) == TooManyLinks
      && Resolve(fs, [], path, hops + 1) == Resolve(fs, [], Redirect(link, path[end..]), hops)
  {
    var front, last, node := LinkParts(fs, path, end);
    var rest := path[end..];
    ResolvePrefix(fs, front, [last] + rest, 0);
    ResolvePrefix(fs, front, [last] + rest, hops + 1);
    ResolveAtLink(fs, Physical(front), last, rest, hops, node);
    RedirectStarts(fs, SelectionLink(path[..end], node.absolute, node.target), front, rest, hops);
  }

  lemma ResolveAtLink(fs: FileSystem, done: Place, last: Part, rest: Path, hops: nat, link: Node)
    requires NodeAt(fs, done) == Some(Directory) && last.Name? && link.Link?
    requires NodeAt(fs, done + [last.name]) == Some(link)
    ensures Resolve(fs, done, [last] + rest, 0) == TooManyLinks
    ensures Resolve(fs, done, [last] + rest, hops + 1)
      == Resolve(fs, if link.absolute then [] else done, link.target + rest, hops)
  {
    assert ([last] + rest)[1..] == rest;
  }

  /** The parts of a path that the walk stops at: a plain directory, the name of a link in it, and the rest. */
  lemma LinkParts(fs: FileSystem, path: Path, end: nat) returns (front: Path, last: Part, node: Node)
    requires Look(fs, path, 0) == LinkAt(end)
    ensures front == path[..end - 1] && path[..end] == front + [last] && path == front + ([last] + path[end..])
    ensures LinkStatus(fs, front) == Some(Directory) && last.Name? && node.Link?
    ensures NodeAt(fs, Physical(front) + [last.name]) == Some(node)
    ensures Observed(fs, path[..end]) == SelectionLink(path[..end], node.absolute, node.target)
  {
    front, last, node := path[..end - 1], path[end - 1], LinkStatus(fs, path[..end]).value;
    assert path[..end][..end - 1] == front && path[..end] == front + [last];
    assert path == front + ([last] + path[end..]);
    if last == Up {
      UpIsNoLink(fs, front);
    }
  }

  lemma {:induction false} ParentsAreDirectories(fs: FileSystem, path: Path)
    requires LinkStatus(fs, path) == Some(Directory)
    ensures forall i :: 0 <= i <= |Physical(path)| ==> NodeAt(fs, Physical(path)[..i]) == Some(Directory)
    decreases |path|
  {
    if path != [] {
      var front := path[..|path| - 1];
      ParentsAreDirectories(fs, front);
      forall i | 0 <= i <= |Physical(path)| ensures NodeAt(fs, Physical(path)[..i]) == Some(Directory) {
        if i < |Physical(path)| || path[|path| - 1] == Up {
          assert Physical(path)[..i] == Physical(front)[..i];
        } else {
          assert Physical(path)[..i] == Physical(path);
        }
      }
    }
  }

  lemma UpIsNoLink(fs: FileSystem, front: Path)
    requires LinkStatus(fs, front) == Some(Directory)
    ensures LinkStatus(fs, front + [Up]) == Some(Directory)
  {
    ParentsAreDirectories(fs, front);
    var place := Physical(front);
    assert (front + [Up])[..|front|] == front;
    assert Drop(place) == place[..|Drop(place)|];
  }

  /** The statuses before the one where the look stops. */
  lemma {:induction false} LookPasses(status: nat -> Option<Node>, length: nat, i: nat, k: nat)
    requires i < k <= length
    requires match LookAt(status, length, i) case LinkAt(end) => k < end case Clear => true case Missing => false
    ensures IsPlain(status(k))
    decreases k - i
  {
    if i + 1 < k {
      LookPasses(status, length, i + 1, k);
    }
  }

  /** A path that the walk finds clear is link free, and the resolver ends at its place. */
  lemma ClearResolves(fs: FileSystem, path: Path, hops: nat)
    requires Look(fs, path, 0) == Clear
    ensures LinkFree(fs, path)
    ensures Resolve(fs, [], path, hops) == Found(Physical(path))
  {
    forall i | 0 <= i <= |path| ensures IsPlain(LinkStatus(fs, path[..i])) {
      if i > 0 {
        LookPasses(Prefixes(fs, path), |path|, 0, i);
      }
    }
    if path != [] {
      var front, last := path[..|path| - 1], path[|path| - 1];
      assert path[..|path|] == path == front + [last];
      assert IsPlain(LinkStatus(fs, path));
      ResolvePrefix(fs, front, [last], hops);
    }
  }

  lemma MissingHere(fs: FileSystem, path: Path, i: nat, hops: nat)
    requires i < |path| && LinkStatus(fs, path[..i]) == Some(Directory) && LinkStatus(fs, path[..i + 1]).None?
    ensures Resolve(fs, [], path, hops) == Absent
  {
    var prefix, next := path[..i], path[i];
    assert path == prefix + path[i..] && path[..i + 1] == prefix + [next];
    if next == Up {
      UpIsNoLink(fs, prefix);
    }
    ResolvePrefix(fs, prefix, path[i..], hops);
  }

  /** A component below a file. */
  lemma MissingBelow(fs: FileSystem, path: Path, i: nat, hops: nat)
    requires i < |path| && LinkStatus(fs, path[..i]) == Some(File)
    ensures Resolve(fs, [], path, hops) == Absent
  {
    var front, part := path[..i - 1], path[i - 1];
    assert path[..i] == front + [part] && path == front + ([part] + path[i..]);
    BelowFile(fs, front, part, path[i..], hops);
  }

  lemma BelowFile(fs: FileSystem, front: Path, part: Part, rest: Path, hops: nat)
    requires LinkStatus(fs, front + [part]) == Some(File) && rest != []
    ensures Resolve(fs, [], front + ([part] + rest), hops) == Absent
  {
    assert (front + [part])[..|front|] == front && ([part] + rest)[1..] == rest;
    UpIsNoLink(fs, front);
    ResolvePrefix(fs, front, [part] + rest, hops);
  }

  /** A path on which the walk misses a component is one the resolver does not find. */
  lemma {:induction false} MissingResolves(fs: FileSystem, path: Path, i: nat, hops: nat)
    requires i <= |path| && Look(fs, path, i) == Missing
    requires IsPlain(LinkStatus(fs, path[..i]))
    ensures Resolve(fs, [], path, hops) == Absent
    decreases |path| - i
  {
    assert path[..i + 1][..i] == path[..i];
    if LinkStatus(fs, path[..i + 1]).Some? {
      MissingResolves(fs, path, i + 1, hops);
    } else if LinkStatus(fs, path[..i]) == Some(Directory) {
      MissingHere(fs, path, i, hops);
    } else {
      MissingBelow(fs, path, i, hops);
    }
  }

  /** The links met on the way, and the path at its end. */
  datatype Chased = Chased(links: seq<SelectionLink>, end: Path)

  /** Follows at most `n` links, by rewriting the path, to a clear path. */
  function ChaseBy(step: Path -> Step, path: Path, n: nat): Option<Chased>
    decreases n
  {
    match step(path)
    case Lost => None
    case Ended => Some(Chased([], path))
    case Onward(link, rest) =>
      if n == 0 then None else
      match ChaseBy(step, rest, n - 1)
      case None => None
      case Some(chased) => Some(Chased([link] + chased.links, chased.end))
  }

  function Chase(fs: FileSystem, path: Path, n: nat): Option<Chased> {
    ChaseBy(Steps(fs), path, n)
  }

  /** Replaying the links of a chase follows its steps. */
  ghost predicate Replays(step: Path -> Step, replay: (Path, seq<SelectionLink>) -> Option<Path>) {
    forall path: Path ::
      && replay(path, []) == Some(path)
      && (step(path).Onward? ==>
            forall links :: replay(path, [step(path).link] + links) == replay(step(path).rest, links))
  }

  lemma {:induction false} ChaseReplaysBy(
    step: Path -> Step, replay: (Path, seq<SelectionLink>) -> Option<Path>, path: Path, n: nat)
    requires Replays(step, replay) && ChaseBy(step, path, n).Some?
    ensures var chase := ChaseBy(step, path, n).value;
      |chase.links| <= n && replay(path, chase.links) == Some(chase.end) && step(chase.end).Ended?
    decreases n
  {
    if step(path).Onward? {
      ChaseReplaysBy(step, replay, step(path).rest, n - 1);
    }
  }

  lemma StepReplays(fs: FileSystem, path: Path, links: seq<SelectionLink>)
    requires StepFrom(fs, path).Onward?
    ensures Replay(path, [StepFrom(fs, path).link] + links) == Replay(StepFrom(fs, path).rest, links)
  {
    var link := StepFrom(fs, path).link;
    assert ([link] + links)[1..] == links && link.path <= path;
  }

  /** The links of a chase lead from its path to its end, which is clear. */
  lemma ChaseReplays(fs: FileSystem, path: Path, n: nat)
    requires Chase(fs, path, n).Some?
    ensures var chase := Chase(fs, path, n).value;
      |chase.links| <= n && Replay(path, chase.links) == Some(chase.end) && Look(fs, chase.end, 0) == Clear
  {
    var replay := (p: Path, links: seq<SelectionLink>) => Replay(p, links);
    forall p, links | Steps(fs)(p).Onward?
      ensures replay(p, [Steps(fs)(p).link] + links) == replay(Steps(fs)(p).rest, links)
    {
      StepReplays(fs, p, links);
    }
    ChaseReplaysBy(Steps(fs), replay, path, n);
  }

  /** The resolver follows the step of the walk from this path. */
  ghost predicate ResolvesAt(
    step: Step, resolve: (Path, nat) -> Resolution, place: Path -> Place, path: Path, n: nat)
  {
    match step
    case Lost => resolve(path, n) == Absent
    case Ended => resolve(path, n) == Found(place(path))
    case Onward(_, rest) => resolve(path, n) == if n == 0 then TooManyLinks else resolve(rest, n - 1)
  }

  lemma {:induction false} ChaseResolvesBy(
    step: Path -> Step, resolve: (Path, nat) -> Resolution, place: Path -> Place, path: Path, n: nat)
    requires forall p, m: nat :: ResolvesAt(step(p), resolve, place, p, m)
    ensures ChaseBy(step, path, n).Some? <==> resolve(path, n).Found?
    ensures ChaseBy(step, path, n).Some? ==> resolve(path, n) == Found(place(ChaseBy(step, path, n).value.end))
    decreases n
  {
    assert ResolvesAt(step(path), resolve, place, path, n);
    if step(path).Onward? && n > 0 {
      ChaseResolvesBy(step, resolve, place, step(path).rest, n - 1);
    }
  }

  lemma StepResolves(fs: FileSystem, path: Path, n: nat)
    ensures StepFrom(fs, path).Lost? ==> Resolve(fs, [], path, n) == Absent
    ensures StepFrom(fs, path).Ended? ==> Resolve(fs, [], path, n) == Found(Physical(path))
    ensures StepFrom(fs, path).Onward? ==>
      Resolve(fs, [], path, n) == if n == 0 then TooManyLinks else Resolve(fs, [], StepFrom(fs, path).rest, n - 1)
  {
    match Look(fs, path, 0)
    case Missing => MissingResolves(fs, path, 0, n);
    case Clear => ClearResolves(fs, path, n);
    case LinkAt(end) => RedirectResolves(fs, path, end, if n == 0 then 0 else n - 1);
  }

  /** Rewriting and restarting finds a path exactly when the resolver does, and at the same place. */
  lemma ChaseResolves(fs: FileSystem, path: Path, n: nat)
    ensures Chase(fs, path, n).Some? <==> Resolve(fs, [], path, n).Found?
    ensures Chase(fs, path, n).Some? ==>
      Resolve(fs, [], path, n) == Found(Physical(Chase(fs, path, n).value.end))
  {
    var resolve := (p: Path, m: nat) => Resolve(fs, [], p, m);
    var place := (p: Path) => Physical(p);
    forall p: Path, m: nat ensures ResolvesAt(Steps(fs)(p), resolve, place, p, m) {
      StepResolves(fs, p, m);
    }
    ChaseResolvesBy(Steps(fs), resolve, place, path, n);
  }

  /** The walk succeeds exactly if the chase does without repeating a link, and adds its links to the record. */
  ghost predicate Records(
    links: seq<SelectionLink>, walk: Result<(seq<SelectionLink>, Path), Refusal>, chase: Option<Chased>)
  {
    && (walk.Ok? <==> chase.Some? && Distinct(links + chase.value.links))
    && (walk.Ok? ==> walk.value.0 == links + chase.value.links)
  }

  lemma RecordsNone(links: seq<SelectionLink>, path: Path)
    requires Distinct(links)
    ensures Records(links, Ok((links, path)), Some(Chased([], path)))
  {
    assert links + [] == links;
  }

  lemma RecordsFirst(links: seq<SelectionLink>, link: SelectionLink,
    walk: Result<(seq<SelectionLink>, Path), Refusal>, chase: Option<Chased>)
    requires Recorded(links, link.path) ==> walk == Err(Cyclic)
    requires !Recorded(links, link.path) ==> Records(links + [link], walk, chase)
    ensures Records(
      links, walk, if chase.Some? then Some(Chased([link] + chase.value.links, chase.value.end)) else None)
  {
    if chase.Some? {
      LinksJoin(links, link, chase.value.links);
    }
  }

  /** The walk records what is met on the way, as long as no link is met twice. */
  lemma {:induction false} WalkChases(step: Path -> Step, remaining: Path, links: seq<SelectionLink>, n: nat)
    requires Distinct(links) && |links| + n == DefaultRoles.MAX_MEMBERS
    ensures Records(links, WalkBy(step, remaining, links), ChaseBy(step, remaining, n))
    decreases n
  {
    match step(remaining)
    case Lost =>
    case Ended => RecordsNone(links, remaining);
    case Onward(link, rest) =>
      if n > 0 {
        if !Recorded(links, link.path) {
          DistinctNext(links, link);
          WalkChases(step, rest, links + [link], n - 1);
        }
        RecordsFirst(links, link, WalkBy(step, remaining, links), ChaseBy(step, rest, n - 1));
      }
  }

  lemma LinksJoin(links: seq<SelectionLink>, link: SelectionLink, chase: seq<SelectionLink>)
    ensures links + [link] + chase == links + ([link] + chase)
    ensures Recorded(links, link.path) ==> !Distinct(links + ([link] + chase))
  {
    if Recorded(links, link.path) {
      var i :| 0 <= i < |links| && links[i].path == link.path;
      var all := links + ([link] + chase);
      assert all[i].path == all[|links|].path;
    }
  }

  lemma DistinctNext(links: seq<SelectionLink>, link: SelectionLink)
    requires Distinct(links) && !Recorded(links, link.path)
    ensures Distinct(links + [link])
  {
  }

  /** What the walk records from the start. */
  lemma WalkFromStart(fs: FileSystem, selected: Path, n: nat)
    requires n == DefaultRoles.MAX_MEMBERS
    ensures var walk, chase := Walk(fs, selected), Chase(fs, selected, n);
      && (walk.Ok? <==> chase.Some? && Distinct(chase.value.links))
      && (walk.Ok? ==> walk.value.0 == chase.value.links)
  {
    WalkChases(Steps(fs), selected, [], n);
    StartWithNone(Walk(fs, selected), Chase(fs, selected, n));
  }

  lemma StartWithNone(walk: Result<(seq<SelectionLink>, Path), Refusal>, chase: Option<Chased>)
    requires Records([], walk, chase)
    ensures walk.Ok? <==> chase.Some? && Distinct(chase.value.links)
    ensures walk.Ok? ==> walk.value.0 == chase.value.links
  {
    if chase.Some? {
      assert [] + chase.value.links == chase.value.links;
    }
  }

  lemma ChaseEnds(fs: FileSystem, path: Path, n: nat)
    requires Chase(fs, path, n).Some?
    ensures var chase := Chase(fs, path, n).value;
      && |chase.links| <= n && Replay(path, chase.links) == Some(chase.end) && LinkFree(fs, chase.end)
      && Resolve(fs, [], path, n) == Found(Physical(chase.end))
  {
    ChaseReplays(fs, path, n);
    ChaseResolves(fs, path, n);
    ClearResolves(fs, Chase(fs, path, n).value.end, 0);
  }

  lemma WalkIsSoundWithin(fs: FileSystem, selected: Path, n: nat)
    requires n == DefaultRoles.MAX_MEMBERS && Walk(fs, selected).Ok?
    ensures var links := Walk(fs, selected).value.0;
      && |links| <= n && Distinct(links)
      && Replay(selected, links).Some?
      && LinkFree(fs, Replay(selected, links).value)
      && Resolve(fs, [], selected, n) == Found(Physical(Replay(selected, links).value))
  {
    WalkFromStart(fs, selected, n);
    ChaseEnds(fs, selected, n);
  }

  /** When the walk succeeds: its links are a bounded, repetition-free certificate that leads, without
      the file system, to a link-free path at the very place the reference resolver finds. */
  lemma WalkIsSound(fs: FileSystem, selected: Path)
    requires Walk(fs, selected).Ok?
    ensures var links := Walk(fs, selected).value.0;
      && |links| <= DefaultRoles.MAX_MEMBERS && Distinct(links)
      && Replay(selected, links).Some?
      && LinkFree(fs, Replay(selected, links).value)
      && Resolve(fs, [], selected, DefaultRoles.MAX_MEMBERS) == Found(Physical(Replay(selected, links).value))
  {
    WalkIsSoundWithin(fs, selected, DefaultRoles.MAX_MEMBERS);
  }

  lemma TraceStep(fs: FileSystem, front: Path, last: Part, rest: Path, hops: nat)
    requires NodeAt(fs, Physical(front)) == Some(Directory)
    requires NodeAt(fs, Enter(Physical(front), last)) == Some(Directory)
    ensures Trace(fs, front, [last] + rest, hops) == Trace(fs, front + [last], rest, hops)
  {
    assert ([last] + rest)[1..] == rest;
  }

  lemma TraceAtLink(fs: FileSystem, front: Path, last: Part, rest: Path, hops: nat, link: Node)
    requires NodeAt(fs, Physical(front)) == Some(Directory) && last.Name? && link.Link?
    requires NodeAt(fs, Physical(front) + [last.name]) == Some(link)
    ensures Trace(fs, front, [last] + rest, hops + 1)
      == [front + [last]] + Trace(fs, if link.absolute then [] else front, link.target + rest, hops)
  {
    assert ([last] + rest)[1..] == rest;
  }

  lemma DirectoryParts(fs: FileSystem, front: Path, last: Part)
    requires LinkStatus(fs, front + [last]) == Some(Directory)
    ensures LinkStatus(fs, front) == Some(Directory)
    ensures NodeAt(fs, Enter(Physical(front), last)) == Some(Directory)
  {
    assert (front + [last])[..|front|] == front;
  }

  /** Going into the directory `front + [last]` changes nothing of what `f` tells about what is spelled and
      what is still to do. */
  ghost predicate Passes<T(!new)>(
    status: Path -> Option<Node>, f: (Path, Path) -> T, front: Path, last: Part, rest: Path)
  {
    status(front + [last]) == Some(Directory) ==>
      status(front) == Some(Directory) && f(front, [last] + rest) == f(front + [last], rest)
  }

  lemma {:induction false} PrefixPasses<T(!new)>(
    status: Path -> Option<Node>, f: (Path, Path) -> T, prefix: Path, rest: Path)
    requires forall front, last, todo :: Passes(status, f, front, last, todo)
    requires status(prefix) == Some(Directory)
    ensures f([], prefix + rest) == f(prefix, rest)
    decreases |prefix|
  {
    if prefix == [] {
      assert prefix + rest == rest;
    } else {
      var front, last := prefix[..|prefix| - 1], prefix[|prefix| - 1];
      assert prefix + rest == front + ([last] + rest) && front + [last] == prefix;
      assert Passes(status, f, front, last, rest);
      PrefixPasses(status, f, front, [last] + rest);
    }
  }

  lemma TracePasses(fs: FileSystem, hops: nat, front: Path, last: Part, rest: Path)
    ensures LinkStatus(fs, front + [last]) == Some(Directory) ==>
      && LinkStatus(fs, front) == Some(Directory)
      && Trace(fs, front, [last] + rest, hops) == Trace(fs, front + [last], rest, hops)
  {
    if LinkStatus(fs, front + [last]) == Some(Directory) {
      DirectoryParts(fs, front, last);
      DirectoryStands(fs, front);
      TraceStep(fs, front, last, rest, hops);
    }
  }

  lemma DirectoryStands(fs: FileSystem, path: Path)
    requires LinkStatus(fs, path) == Some(Directory)
    ensures NodeAt(fs, Physical(path)) == Some(Directory)
  {
  }

  /** The trace runs along a plain directory prefix. */
  lemma TracePrefix(fs: FileSystem, prefix: Path, rest: Path, hops: nat)
    requires LinkStatus(fs, prefix) == Some(Directory)
    ensures Trace(fs, [], prefix + rest, hops) == Trace(fs, prefix, rest, hops)
  {
    var status := (path: Path) => LinkStatus(fs, path);
    var trace := (spelled: Path, todo: Path) => Trace(fs, spelled, todo, hops);
    forall front, last, todo ensures Passes(status, trace, front, last, todo) {
      TracePasses(fs, hops, front, last, todo);
    }
    PrefixPasses(status, trace, prefix, rest);
  }

  lemma RedirectTraceStarts(fs: FileSystem, link: SelectionLink, front: Path, rest: Path, hops: nat)
    requires LinkStatus(fs, front) == Some(Directory)
    requires link.path != [] && link.path[..|link.path| - 1] == front
    ensures Trace(fs, [], Redirect(link, rest), hops)
      == Trace(fs, if link.absolute then [] else front, link.target + rest, hops)
  {
    if link.absolute {
      assert Redirect(link, rest) == link.target + rest;
    } else {
      assert Redirect(link, rest) == front + (link.target + rest);
      TracePrefix(fs, front, link.target + rest, hops);
    }
  }

  /** The first link of the trace is the one the walk stops at, and the rest is that of the rewritten path. */
  lemma RedirectTraces(fs: FileSystem, path: Path, end: nat, hops: nat)
    requires Look(fs, path, 0) == LinkAt(end)
    ensures Trace(fs, [], path, hops + 1)
      == [path[..end]] + Trace(fs, [], Redirect(Observed(fs, path[..end]), path[end..]), hops)
  {
    var front, last, node := LinkParts(fs, path, end);
    var rest := path[end..];
    TracePrefix(fs, front, [last] + rest, hops + 1);
    TraceAtLink(fs, front, last, rest, hops, node);
    RedirectTraceStarts(fs, SelectionLink(path[..end], node.absolute, node.target), front, rest, hops);
  }

  lemma ClearTraces(fs: FileSystem, path: Path, hops: nat)
    requires Look(fs, path, 0) == Clear
    ensures Trace(fs, [], path, hops) == []
  {
    if path != [] {
      var front, last := path[..|path| - 1], path[|path| - 1];
      ClearResolves(fs, path, hops);
      assert path[..|path|] == path == front + [last];
      TraceEnds(fs, front, last, hops);
    }
  }

  lemma TraceEnds(fs: FileSystem, front: Path, last: Part, hops: nat)
    requires IsPlain(LinkStatus(fs, front + [last]))
    ensures Trace(fs, [], front + [last], hops) == []
  {
    assert (front + [last])[..|front|] == front && [last][1..] == [];
    TracePrefix(fs, front, [last], hops);
  }

  function Paths(links: seq<SelectionLink>): seq<Path> {
    if links == [] then [] else [links[0].path] + Paths(links[1..])
  }

  lemma PathsCons(link: SelectionLink, links: seq<SelectionLink>)
    ensures Paths([link] + links) == [link.path] + Paths(links)
  {
    assert ([link] + links)[1..] == links;
  }

  lemma {:induction false} PathsAt(links: seq<SelectionLink>)
    ensures |Paths(links)| == |links|
    ensures forall i :: 0 <= i < |links| ==> Paths(links)[i] == links[i].path
  {
    if links != [] {
      PathsAt(links[1..]);
    }
  }

  lemma DistinctPaths(links: seq<SelectionLink>)
    ensures Distinct(links) <==> NoneTwice(Paths(links))
  {
    PathsAt(links);
  }

  /** The trace of the resolver follows the step of the walk from this path. */
  ghost predicate TracesAt(step: Step, trace: (Path, nat) -> seq<Path>, path: Path, n: nat) {
    match step
    case Lost => true
    case Ended => trace(path, n) == []
    case Onward(link, rest) => n > 0 ==> trace(path, n) == [link.path] + trace(rest, n - 1)
  }

  lemma {:induction false} ChaseIsTraceBy(step: Path -> Step, trace: (Path, nat) -> seq<Path>, path: Path, n: nat)
    requires forall p, m: nat :: TracesAt(step(p), trace, p, m)
    requires ChaseBy(step, path, n).Some?
    ensures trace(path, n) == Paths(ChaseBy(step, path, n).value.links)
    decreases n
  {
    assert TracesAt(step(path), trace, path, n);
    if step(path).Onward? {
      var rest := step(path).rest;
      ChaseIsTraceBy(step, trace, rest, n - 1);
      PathsCons(step(path).link, ChaseBy(step, rest, n - 1).value.links);
    }
  }

  lemma StepTraces(fs: FileSystem, path: Path, n: nat)
    ensures StepFrom(fs, path).Ended? ==> Trace(fs, [], path, n) == []
    ensures StepFrom(fs, path).Onward? && n > 0 ==>
      Trace(fs, [], path, n) == [StepFrom(fs, path).link.path] + Trace(fs, [], StepFrom(fs, path).rest, n - 1)
  {
    match Look(fs, path, 0)
    case Missing =>
    case Clear => ClearTraces(fs, path, n);
    case LinkAt(end) =>
      if n > 0 {
        RedirectTraces(fs, path, end, n - 1);
      }
  }

  function Traces(fs: FileSystem): (Path, nat) -> seq<Path> {
    (path: Path, n: nat) => Trace(fs, [], path, n)
  }

  lemma StepTracesAt(fs: FileSystem, path: Path, n: nat)
    ensures TracesAt(StepFrom(fs, path), Traces(fs), path, n)
  {
    StepTraces(fs, path, n);
  }

  /** A chase meets exactly the links that the resolver follows. */
  lemma ChaseIsTrace(fs: FileSystem, path: Path, n: nat)
    requires Chase(fs, path, n).Some?
    ensures Trace(fs, [], path, n) == Paths(Chase(fs, path, n).value.links)
  {
    forall p: Path, m: nat ensures TracesAt(Steps(fs)(p), Traces(fs), p, m) {
      StepTracesAt(fs, p, m);
    }
    ChaseIsTraceBy(Steps(fs), Traces(fs), path, n);
  }

  /** Exactly when the walk succeeds: the resolver finds the path within the bound, and on its way follows no
      link twice under one spelling. */
  lemma WalkSucceedsExactly(fs: FileSystem, selected: Path, n: nat)
    requires n == DefaultRoles.MAX_MEMBERS
    ensures Walk(fs, selected).Ok? <==>
      Resolve(fs, [], selected, n).Found? && NoneTwice(Trace(fs, [], selected, n))
  {
    WalkFromStart(fs, selected, n);
    ChaseResolves(fs, selected, n);
    if Chase(fs, selected, n).Some? {
      ChaseIsTrace(fs, selected, n);
      DistinctPaths(Chase(fs, selected, n).value.links);
    }
  }

  /** The resolver does not care how much it may follow, once it finds a path. */
  lemma {:induction false} MoreHops(fs: FileSystem, done: Place, todo: Path, hops: nat, more: nat)
    requires Resolve(fs, done, todo, hops).Found? && hops <= more
    ensures Resolve(fs, done, todo, more) == Resolve(fs, done, todo, hops)
    decreases hops, |todo|
  {
    if todo != [] {
      match todo[0]
      case Up => MoreHops(fs, Drop(done), todo[1..], hops, more);
      case Name(n) =>
        match NodeAt(fs, done + [n])
        case None =>
        case Some(Link(absolute, target)) =>
          if hops > 0 {
            MoreHops(fs, if absolute then [] else done, target + todo[1..], hops - 1, more - 1);
          }
        case Some(_) => MoreHops(fs, done + [n], todo[1..], hops, more);
    }
  }

  /** The canonical place of a selected program is where its recorded links lead. */
  lemma SelectionAgrees(fs: FileSystem, selected: Path, hops: nat)
    requires Walk(fs, selected).Ok? && Resolve(fs, [], selected, hops).Found?
    ensures Replay(selected, Walk(fs, selected).value.0).Some?
    ensures Resolve(fs, [], selected, hops)
         == Found(Physical(Replay(selected, Walk(fs, selected).value.0).value))
  {
    WalkIsSound(fs, selected);
    if hops <= DefaultRoles.MAX_MEMBERS {
      MoreHops(fs, [], selected, hops, DefaultRoles.MAX_MEMBERS);
    } else {
      MoreHops(fs, [], selected, DefaultRoles.MAX_MEMBERS, hops);
    }
  }

  /** The file `/f`, and a link `/l` to the root. */
  const LOOP: FileSystem := map[["l"] := Link(true, []), ["f"] := File]

  const L := Name("l")

  const F := Name("f")

  lemma LoopStatus()
    ensures LinkStatus(LOOP, [L]) == Some(Link(true, [])) && LinkStatus(LOOP, []) == Some(Directory)
  {
    assert [] + ["l"] == ["l"] && [L][..0] == [] && Physical([L]) == ["l"];
  }

  lemma LoopIsCyclic()
    ensures Walk(LOOP, [L, L, F]) == Err(Cyclic)
  {
    LoopStatus();
    var link := SelectionLink([L], true, []);
    assert [L, L, F][..1] == [L] && [L, L, F][1..] == [L, F];
    assert [L, F][..1] == [L] && Redirect(link, [L, F]) == [L, F];
    assert [link][0].path == [L];
    assert WalkBy(Steps(LOOP), [L, F], [link]) == Err(Cyclic);
    var unseen: seq<SelectionLink> := [];
    assert unseen + [link] == [link] && Look(LOOP, [L, L, F], 0) == LinkAt(1);
  }

  lemma LoopResolves()
    ensures Resolve(LOOP, [], [L, L, F], 2) == Found(["f"])
  {
    var l, f := L, F;
    assert ["l"] != ["f"] by {
      assert "l"[0] != "f"[0];
    }
    assert [] + ["l"] == ["l"] && [] + ["f"] == ["f"];
    assert Resolve(LOOP, ["f"], [], 0) == Found(["f"]) && [f][1..] == [];
    assert Resolve(LOOP, [], [f], 0) == Found(["f"]);
    var none: Path := [];
    assert none + [f] == [f] && none + [l, f] == [l, f] && [l, f][1..] == [f] && [l, l, f][1..] == [l, f];
    assert Resolve(LOOP, [], [l, f], 1) == Found(["f"]);
  }

  /** The walk refuses as cyclic some paths that have no cycle: here `/l/l/f`, where `/l` points to
      the root, is the file `/f`. */
  lemma RefusesWithoutCycle()
    ensures exists fs: FileSystem, path: Path ::
      Resolve(fs, [], path, 2) == Found(["f"]) && Walk(fs, path) == Err(Cyclic)
  {
    LoopIsCyclic();
    LoopResolves();
  }
}
