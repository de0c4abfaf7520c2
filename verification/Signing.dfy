/** The signing session of `xtask/src/release.rs`: private files, the signing keychain, the operation,
  and cleaning up after any of them fails.

  `Driver` answers every native command, file operation and local check, with success or failure
  as it likes. It holds the outside state that the session must give back: the keychain search list,
  and whether its keychain file exists. A failing command may or may not have had its effect.
  */
module Signing {

  import opened Wrappers

  datatype Step =
    // private files
    | MakeDirectory | CreateCertificate | WriteCertificate | CreateNotaryKey | WriteNotaryKey | CreateArchive
    | CreateInstaller | WriteInstaller
    // preparing the keychain
    | Capture | Quote | Create | Configure | Unlock | SetSearch(list: seq<string>) | Import
    | DistinctIdentities | QuoteInstaller | ImportInstaller
    | Partition | FindIdentity | RequireIdentity | FindInstaller | RequireInstaller
    // the work
    | Operation
    // cleaning up
    | Restore(list: seq<string>) | InspectKeychain | DeleteKeychain
    | CloseCertificate | CloseInstaller | CloseNotaryKey | CloseArchive | CloseDirectory

  datatype Event = Event(step: Step, ok: bool)

  datatype Outside = Outside(search: seq<string>, file: bool)

  class Driver {
    var search: seq<string>
    var file: bool
    var log: seq<Event>

    constructor (search: seq<string>)
      ensures this.search == search && !file && log == []
    {
      this.search, file, log := search, false, [];
    }

    function Now(): Outside
      reads this
    {
      Outside(search, file)
    }

    method Run(step: Step) returns (ok: bool)
      modifies this
      ensures log == old(log) + [Event(step, ok)]
      ensures !step.SetSearch? && !step.Restore? ==> search == old(search)
      ensures (step.SetSearch? || step.Restore?) && ok ==> search == step.list
      ensures !step.Create? && file ==> old(file)
      ensures (step.DeleteKeychain? || step.CloseDirectory?) && ok ==> !file
      ensures !step.Create? && !step.DeleteKeychain? && !step.CloseDirectory? ==> file == old(file)
    {
      ok := *;
      var effect: bool := *;
      if ok || effect {
        match step
        case SetSearch(list) => search := list;
        case Restore(list) => search := list;
        case Create => file := true;
        case DeleteKeychain => file := false;
        case CloseDirectory => file := false;
        case _ =>
      }
      log := log + [Event(step, ok)];
    }

    /** Whether the keychain file is there, if that can be told. */
    method Exists() returns (r: Option<bool>)
      modifies this`log
      ensures log == old(log) + [Event(InspectKeychain, r.Some?)] && (r.Some? ==> r.value == file)
    {
      var fails: bool := *;
      r := if fails then None else Some(file);
      log := log + [Event(InspectKeychain, r.Some?)];
    }
  }

  /** The first failure of the forward work, and every failure of cleaning up. */
  datatype Outcome = Succeeded | Failed(primary: Option<Step>, cleanup: seq<Step>)

  // ---------------------------------------------------------------- what a log says

  predicate AllOk(log: seq<Event>) {
    forall i :: 0 <= i < |log| ==> log[i].ok
  }

  function Failures(log: seq<Event>): seq<Step> {
    if log == [] then [] else
    Failures(log[..|log| - 1]) + if log[|log| - 1].ok then [] else [log[|log| - 1].step]
  }

  /** The work follows the plan and stops at its first failure, or never. */
  predicate Follows(work: seq<Event>, plan: seq<Step>) {
    && |work| <= |plan|
    && (forall i :: 0 <= i < |work| ==> work[i].step == plan[i])
    && (forall i :: 0 <= i < |work| - 1 ==> work[i].ok)
    && (|work| == |plan| || (work != [] && !work[|work| - 1].ok))
  }

  /** The step at which the work failed. */
  function Primary(work: seq<Event>): Option<Step> {
    if AllOk(work) then None else Some(work[|work| - 1].step)
  }

  /** How many of its steps succeeded, when it stops at the first failure. */
  function Done(work: seq<Event>): nat {
    if AllOk(work) then |work| else |work| - 1
  }

  function FilePlan(installer: bool): seq<Step> {
    [MakeDirectory, CreateCertificate, WriteCertificate, CreateNotaryKey, WriteNotaryKey, CreateArchive]
    + if installer then [CreateInstaller, WriteInstaller] else []
  }

  function PreparePlan(path: string, original: seq<string>, installer: bool): seq<Step> {
    [Quote, Create, Configure, Unlock, SetSearch([path] + original), Import]
    + (if installer then [DistinctIdentities, QuoteInstaller, ImportInstaller] else [])
    + [Partition, FindIdentity, RequireIdentity]
    + (if installer then [FindInstaller, RequireInstaller] else [])
    + [Operation]
  }

  /** No step sets the search list or creates the keychain. */
  predicate KeepsSearch(plan: seq<Step>) {
    forall i :: 0 <= i < |plan| ==> !plan[i].SetSearch? && !plan[i].Restore? && !plan[i].Create?
  }

  /** Runs a plan up to its first failure. */
  method RunPlan(driver: Driver, plan: seq<Step>) returns (primary: Option<Step>, done: nat, ghost work: seq<Event>)
    modifies driver
    ensures driver.log == old(driver.log) + work && Follows(work, plan)
    ensures primary == Primary(work) && done == Done(work)
    ensures KeepsSearch(plan) ==> driver.search == old(driver.search) && (driver.file ==> old(driver.file))
  {
    primary, done, work := None, 0, [];
    for i := 0 to |plan|
      invariant primary == None && done == i && |work| == i && AllOk(work)
      invariant forall k :: 0 <= k < i ==> work[k].step == plan[k]
      invariant driver.log == old(driver.log) + work
      invariant KeepsSearch(plan) ==> driver.search == old(driver.search) && (driver.file ==> old(driver.file))
    {
      var ok := driver.Run(plan[i]);
      work := work + [Event(plan[i], ok)];
      if !ok {
        return Some(plan[i]), done, work;
      }
      done := done + 1;
    }
  }

  // ---------------------------------------------------------------- the keychain

  class SigningKeychain {
    const driver: Driver
    const path: string
    const original: seq<string>
    var attempted: bool
    var finished: bool

    constructor (driver: Driver, path: string, original: seq<string>)
      ensures this.driver == driver && this.path == path && this.original == original
      ensures !attempted && !finished
    {
      this.driver, this.path, this.original, attempted, finished := driver, path, original, false, false;
    }

    /** Prepares the keychain and does the work. Nothing outside is touched before `attempted` is set. */
    method Work(installer: bool) returns (primary: Option<Step>, ghost work: seq<Event>)
      requires !attempted
      modifies this`attempted, driver
      ensures driver.log == old(driver.log) + work && Follows(work, PreparePlan(path, original, installer))
      ensures primary == Primary(work)
      ensures attempted <==> Attempted(work)
      ensures !attempted ==> driver.Now() == old(driver.Now())
    {
      primary, work := WorkOn(PreparePlan(path, original, installer));
    }

    method WorkOn(plan: seq<Step>) returns (primary: Option<Step>, ghost work: seq<Event>)
      requires !attempted && |plan| > 1 && plan[0] == Quote
      modifies this`attempted, driver
      ensures driver.log == old(driver.log) + work && Follows(work, plan)
      ensures primary == Primary(work)
      ensures attempted <==> Attempted(work)
      ensures !attempted ==> driver.Now() == old(driver.Now())
    {
      var quoted := driver.Run(Quote);
      work := [Event(Quote, quoted)];
      if !quoted {
        return Some(Quote), work;
      }
      attempted := true;
      ghost var rest;
      var done;
      primary, done, rest := RunPlan(driver, plan[1..]);
      work := work + rest;
    }

    method Cleanup() returns (failures: seq<Step>, ghost cleaning: seq<Event>)
      modifies this`finished, driver
      ensures finished && driver.log == old(driver.log) + cleaning && failures == Failures(cleaning)
      ensures CleansUp(attempted, original, cleaning, old(driver.Now()), driver.Now())
    {
      failures, cleaning := [], [];
      if attempted {
        var restored := driver.Run(Restore(original));
        failures := if restored then [] else [Restore(original)];
        var more;
        more, cleaning := Remove();
        FailuresCons(Event(Restore(original), restored), cleaning);
        failures := failures + more;
        cleaning := [Event(Restore(original), restored)] + cleaning;
      }
      finished := true;
    }

    /** Deletes the keychain file if it is there. */
    method Remove() returns (failures: seq<Step>, ghost removing: seq<Event>)
      modifies driver
      ensures driver.log == old(driver.log) + removing && failures == Failures(removing)
      ensures driver.search == old(driver.search)
      ensures 1 <= |removing| <= 2 && removing[0].step == InspectKeychain
      ensures |removing| == 2 ==> removing[0].ok && removing[1].step == DeleteKeychain
      ensures removing[0].ok ==> (|removing| == 2 <==> old(driver.file))
      ensures driver.file ==> !removing[|removing| - 1].ok
    {
      var seen := driver.Exists();
      removing := [Event(InspectKeychain, seen.Some?)];
      failures := if seen.Some? then [] else [InspectKeychain];
      FailuresNext([], removing[0]);
      if seen == Some(true) {
        var deleted := driver.Run(DeleteKeychain);
        FailuresNext(removing, Event(DeleteKeychain, deleted));
        removing := removing + [Event(DeleteKeychain, deleted)];
        failures := failures + if deleted then [] else [DeleteKeychain];
      }
    }

    /** What happens when the keychain goes out of scope: it is cleaned up, unless that was done before. */
    method Drop() returns (ghost cleaning: seq<Event>)
      modifies this`finished, driver
      ensures finished && driver.log == old(driver.log) + cleaning
      ensures CleansUp(attempted && !old(finished), original, cleaning, old(driver.Now()), driver.Now())
    {
      cleaning := [];
      if !finished {
        var unread;
        unread, cleaning := Cleanup();
      }
    }

    method Finish() returns (failures: seq<Step>, ghost cleaning: seq<Event>)
      modifies this`finished, driver
      ensures finished && driver.log == old(driver.log) + cleaning && failures == Failures(cleaning)
      ensures CleansUp(attempted, original, cleaning, old(driver.Now()), driver.Now())
    {
      failures, cleaning := Cleanup();
      var _ := Drop();
    }
  }

  /** The list is restored and the keychain file looked for, whatever becomes of either; a deletion follows
      only when the file was seen. */
  predicate IsCleanup(cleaning: seq<Event>, original: seq<string>) {
    && 2 <= |cleaning| <= 3
    && cleaning[0].step == Restore(original) && cleaning[1].step == InspectKeychain
    && (|cleaning| == 3 ==> cleaning[1].ok && cleaning[2].step == DeleteKeychain)
  }

  /** It failed to tell whether the keychain file is there, or to delete it. */
  predicate FailsToRemove(cleaning: seq<Event>) {
    |cleaning| >= 2 && (!cleaning[1].ok || (|cleaning| == 3 && !cleaning[2].ok))
  }

  /** What cleaning up does to the world: nothing if the keychain was never touched. */
  predicate CleansUp(attempted: bool, original: seq<string>, cleaning: seq<Event>, was: Outside, now: Outside) {
    if !attempted then cleaning == [] && now == was else
    && IsCleanup(cleaning, original)
    && (cleaning[0].ok ==> now.search == original)
    && (cleaning[1].ok ==> (|cleaning| == 3 <==> was.file))
    && (now.file ==> FailsToRemove(cleaning))
  }

  lemma FailuresNext(log: seq<Event>, event: Event)
    ensures Failures(log + [event]) == Failures(log) + if event.ok then [] else [event.step]
  {
    assert (log + [event])[..|log|] == log;
  }

  lemma {:induction false} FailuresCons(event: Event, log: seq<Event>)
    ensures Failures([event] + log) == (if event.ok then [] else [event.step]) + Failures(log)
  {
    if log == [] {
      FailuresNext([], event);
      assert [event] + log == [] + [event];
    } else {
      var front, last := log[..|log| - 1], log[|log| - 1];
      FailuresCons(event, front);
      FailuresNext([event] + front, last);
      assert [event] + log == [event] + front + [last];
    }
  }

  lemma {:induction false} NoFailures(log: seq<Event>)
    ensures Failures(log) == [] <==> AllOk(log)
  {
    if log != [] {
      NoFailures(log[..|log| - 1]);
    }
  }

  // ---------------------------------------------------------------- the private files

  /** Closes, in order, the files that exist once `made` steps of `FilePlan` have succeeded. */
  function ClosePlan(made: nat): seq<Step> {
    if made == 0 then [] else
    (if made >= 2 then [CloseCertificate] else [])
    + (if made >= 7 then [CloseInstaller] else [])
    + (if made >= 4 then [CloseNotaryKey] else [])
    + (if made >= 6 then [CloseArchive] else [])
    + [CloseDirectory]
  }

  predicate Tries(closing: seq<Event>, plan: seq<Step>) {
    |closing| == |plan| && forall i :: 0 <= i < |plan| ==> closing[i].step == plan[i]
  }

  /** Every close is tried, whatever became of the ones before. */
  method TryAll(driver: Driver, plan: seq<Step>) returns (failures: seq<Step>, ghost tried: seq<Event>)
    requires KeepsSearch(plan)
    modifies driver
    ensures driver.log == old(driver.log) + tried && driver.search == old(driver.search)
    ensures driver.file ==> old(driver.file)
    ensures failures == Failures(tried) && Tries(tried, plan)
  {
    failures, tried := [], [];
    for i := 0 to |plan|
      invariant |tried| == i && forall k :: 0 <= k < i ==> tried[k].step == plan[k]
      invariant driver.log == old(driver.log) + tried && driver.search == old(driver.search)
      invariant driver.file ==> old(driver.file)
      invariant failures == Failures(tried)
    {
      var ok := driver.Run(plan[i]);
      FailuresNext(tried, Event(plan[i], ok));
      tried := tried + [Event(plan[i], ok)];
      if !ok {
        failures := failures + [plan[i]];
      }
    }
  }

  /** The outcome of a session: a primary failure, and those of cleaning up. */
  function FinishOperation(primary: Option<Step>, cleanup: seq<Step>): Outcome {
    if primary == None && cleanup == [] then Succeeded else Failed(primary, cleanup)
  }

  // ---------------------------------------------------------------- a session

  /** The events of a session, in order: files made, list captured, work, keychain and files cleaned up. */
  datatype Session = Session(
    files: seq<Event>, capture: seq<Event>, work: seq<Event>, keychain: seq<Event>, closing: seq<Event>)

  function Log(s: Session): seq<Event> {
    s.files + s.capture + s.work + s.keychain + s.closing
  }

  /** The keychain was touched. */
  predicate Attempted(work: seq<Event>) {
    |work| > 1
  }

  /** A keychain that was touched is cleaned up, once, and no other. */
  predicate CleansOnce(work: seq<Event>, keychain: seq<Event>, original: seq<string>) {
    if Attempted(work) then IsCleanup(keychain, original) else keychain == []
  }

  /** What every session looks like. */
  ghost predicate Orderly(s: Session, installer: bool, path: string, original: seq<string>) {
    && Follows(s.files, FilePlan(installer))
    // Each phase starts exactly if the one before it succeeded.
    && (if AllOk(s.files) then |s.capture| == 1 && s.capture[0].step == Capture else s.capture == [])
    && (if s.capture != [] && AllOk(s.capture) then Follows(s.work, PreparePlan(path, original, installer))
        else s.work == [])
    && CleansOnce(s.work, s.keychain, original)
    // Whatever files were made are closed, each of them.
    && Tries(s.closing, ClosePlan(Done(s.files)))
  }

  /** The first failure of a session, cleaning up aside. */
  function FirstFailure(s: Session): Option<Step> {
    if !AllOk(s.files) then Primary(s.files)
    else if !AllOk(s.capture) then Primary(s.capture)
    else Primary(s.work)
  }

  /** The keychain's part of a session, once the files are made. */
  method KeychainSession(driver: Driver, path: string, installer: bool)
    returns (
      primary: Option<Step>, cleanup: seq<Step>, ghost capture: Event, ghost work: seq<Event>,
      ghost cleaning: seq<Event>)
    modifies driver
    ensures driver.log == old(driver.log) + [capture] + work + cleaning && capture.step == Capture
    ensures if capture.ok then Follows(work, PreparePlan(path, old(driver.search), installer)) else work == []
    ensures primary == if capture.ok then Primary(work) else Some(Capture)
    ensures CleansOnce(work, cleaning, old(driver.search)) && cleanup == Failures(cleaning)
    ensures driver.search == old(driver.search) || (Attempted(work) && !cleaning[0].ok)
    ensures if Attempted(work) then driver.file ==> FailsToRemove(cleaning) else driver.file ==> old(driver.file)
  {
    var original := driver.search;
    var captured := driver.Run(Capture);
    capture, work, cleaning := Event(Capture, captured), [], [];
    if !captured {
      return Some(Capture), [], capture, work, cleaning;
    }
    var keychain := new SigningKeychain(driver, path, original);
    primary, work := keychain.Work(installer);
    cleanup, cleaning := keychain.Finish();
  }

  method WithSigning(driver: Driver, path: string, installer: bool) returns (r: Outcome, ghost s: Session)
    modifies driver
    ensures driver.log == old(driver.log) + Log(s)
    ensures Orderly(s, installer, path, old(driver.search))
    // The outcome reports the first failure of the work and every failure of cleaning up.
    ensures r == FinishOperation(FirstFailure(s), Failures(s.keychain) + Failures(s.closing))
    // The captured search list is in force at the end, or its restoring failed.
    ensures driver.search == old(driver.search) || (Attempted(s.work) && !s.keychain[0].ok)
    // The keychain file is gone at the end, or removing it failed.
    ensures if Attempted(s.work) then driver.file ==> FailsToRemove(s.keychain) else driver.file ==> old(driver.file)
    ensures r == Succeeded ==> !driver.file
  {
    ghost var files, closing: seq<Event>;
    var primary, made;
    primary, made, files := MakeFiles(driver, installer);
    var cleanup: seq<Step> := [];
    s := Session(files, [], [], [], []);
    if primary.None? {
      ghost var capture, work, cleaning;
      primary, cleanup, capture, work, cleaning := KeychainSession(driver, path, installer);
      s := Session(files, [capture], work, cleaning, []);
    }
    LogSoFar(old(driver.log), s);
    CaptureOk(s);
    var failures;
    failures, closing := CloseFiles(driver, made);
    LogClosing(old(driver.log), s, closing);
    s := s.(closing := closing);
    r := FinishOperation(primary, cleanup + failures);
    if r == Succeeded {
      SuccessRemoves(s, installer, path, old(driver.search));
    }
  }

  method MakeFiles(driver: Driver, installer: bool) returns (primary: Option<Step>, made: nat, ghost files: seq<Event>)
    modifies driver
    ensures driver.log == old(driver.log) + files && driver.search == old(driver.search)
    ensures driver.file ==> old(driver.file)
    ensures Follows(files, FilePlan(installer)) && primary == Primary(files) && made == Done(files)
  {
    primary, made, files := RunPlan(driver, FilePlan(installer));
  }

  method CloseFiles(driver: Driver, made: nat) returns (failures: seq<Step>, ghost closing: seq<Event>)
    modifies driver
    ensures driver.log == old(driver.log) + closing && driver.search == old(driver.search)
    ensures driver.file ==> old(driver.file)
    ensures failures == Failures(closing) && Tries(closing, ClosePlan(made))
  {
    failures, closing := TryAll(driver, ClosePlan(made));
  }

  lemma LogSoFar(log: seq<Event>, s: Session)
    requires s.closing == []
    ensures log + Log(s) == log + s.files + s.capture + s.work + s.keychain
    ensures s.capture == [] && s.work == [] && s.keychain == [] ==> log + Log(s) == log + s.files
  {
  }

  lemma CaptureOk(s: Session)
    requires |s.capture| <= 1
    ensures AllOk(s.capture) <==> s.capture == [] || s.capture[0].ok
  {
  }

  lemma LogClosing(log: seq<Event>, s: Session, closing: seq<Event>)
    requires s.closing == []
    ensures log + Log(s) + closing == log + Log(s.(closing := closing))
  {
  }

  /** A failure of restoring the search list is among those reported. */
  lemma RestoreFailureIsReported(s: Session, installer: bool, path: string, original: seq<string>)
    requires Orderly(s, installer, path, original) && Attempted(s.work) && !s.keychain[0].ok
    ensures Restore(original) in Failures(s.keychain) + Failures(s.closing)
  {
    FirstFails(s.keychain);
  }

  /** A keychain file that may be left is among the failures reported. */
  lemma KeychainFailureIsReported(s: Session, installer: bool, path: string, original: seq<string>)
    requires Orderly(s, installer, path, original) && FailsToRemove(s.keychain)
    ensures var reported := Failures(s.keychain) + Failures(s.closing);
      InspectKeychain in reported || DeleteKeychain in reported
  {
    var n := |s.keychain| - 1;
    assert !s.keychain[n].ok && s.keychain[n].step in Failures(s.keychain);
  }

  lemma SuccessRemoves(s: Session, installer: bool, path: string, original: seq<string>)
    requires Orderly(s, installer, path, original) && FirstFailure(s) == None && Failures(s.keychain) == []
    ensures Attempted(s.work) && !FailsToRemove(s.keychain)
  {
    NoFailures(s.keychain);
  }

  lemma {:induction false} FirstFails(log: seq<Event>)
    requires log != [] && !log[0].ok
    ensures log[0].step in Failures(log)
  {
    if |log| > 1 {
      FirstFails(log[..|log| - 1]);
    }
  }

  /** A session succeeds exactly when every one of its commands, cleaning up included, did. */
  lemma SucceedsWhenAllOk(s: Session, installer: bool, path: string, original: seq<string>)
    requires Orderly(s, installer, path, original)
    ensures FinishOperation(FirstFailure(s), Failures(s.keychain) + Failures(s.closing)) == Succeeded <==> AllOk(Log(s))
  {
    NoFailures(s.keychain);
    NoFailures(s.closing);
    AllOkConcat(s.files + s.capture + s.work + s.keychain, s.closing);
    AllOkConcat(s.files + s.capture + s.work, s.keychain);
    AllOkConcat(s.files + s.capture, s.work);
    AllOkConcat(s.files, s.capture);
  }

  lemma AllOkConcat(a: seq<Event>, b: seq<Event>)
    ensures AllOk(a + b) <==> AllOk(a) && AllOk(b)
  {
    if AllOk(a + b) {
      forall i | 0 <= i < |a| ensures a[i].ok {
        assert (a + b)[i] == a[i];
      }
      forall i | 0 <= i < |b| ensures b[i].ok {
        assert (a + b)[|a| + i] == b[i];
      }
    }
  }
}
