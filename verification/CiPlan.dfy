/** The plan of checks of `xtask/src/ci.rs`: how changed paths select it, how it is written and read as a
  record of flags, and the gate that holds the results of a workflow against it.
  */
module CiPlan {

  import opened Wrappers
  import opened CiPaths

  datatype Check =
    | Docs | Workflows | Xtask | XtaskNative | WindowsContracts | Product | Dependencies | DependencyReview | Fuzz
    | CodeqlRust | CodeqlActions | Scorecard | Fleet

  const CHECKS := [
    Docs, Workflows, Xtask, XtaskNative, WindowsContracts, Product, Dependencies, DependencyReview, Fuzz,
    CodeqlRust, CodeqlActions, Scorecard, Fleet
  ]

  const WORKFLOW_CHECKS := {Workflows, Xtask, DependencyReview, CodeqlActions, Scorecard}
  const XTASK_CHECKS := {Workflows, Xtask, CodeqlRust}
  const NATIVE_CHECKS := {Workflows, Xtask, CodeqlRust, XtaskNative}
  const WINDOWS_CHECKS := {Workflows, Xtask, CodeqlRust, XtaskNative, WindowsContracts}

  const FULL := {
    Docs, Workflows, Xtask, XtaskNative, WindowsContracts, Product, Dependencies, DependencyReview, Fuzz,
    CodeqlRust, CodeqlActions, Scorecard
  }

  function Adds(change: Change): set<Check> {
    match change
    case Nothing => {}
    case Workflow => WORKFLOW_CHECKS
    case Rust => XTASK_CHECKS
    case Native => NATIVE_CHECKS
    case Windows => WINDOWS_CHECKS
    case Everything => FULL
  }

  class Plan {
    var checks: set<Check>

    constructor Docs()
      ensures checks == {Check.Docs}
    {
      checks := {Check.Docs};
    }

    method SelectWorkflows()
      modifies this
      ensures checks == old(checks) + WORKFLOW_CHECKS
    {
      checks := checks + {Workflows, Xtask, DependencyReview, CodeqlActions, Scorecard};
    }

    method SelectXtask()
      modifies this
      ensures checks == old(checks) + XTASK_CHECKS
    {
      checks := checks + {Workflows, Xtask, CodeqlRust};
    }

    method SelectNativeXtask()
      modifies this
      ensures checks == old(checks) + NATIVE_CHECKS
    {
      SelectXtask();
      checks := checks + {XtaskNative};
    }

    method SelectWindowsContracts()
      modifies this
      ensures checks == old(checks) + WINDOWS_CHECKS
    {
      SelectNativeXtask();
      checks := checks + {WindowsContracts};
    }
  }

  // ---------------------------------------------------------------- classification

  /** What these paths ask for, by a rule for single paths. */
  function Changes(rule: string -> Change, paths: seq<string>): set<Change> {
    set i | 0 <= i < |paths| :: rule(paths[i])
  }

  function AddsIf(changes: set<Change>, change: Change): set<Check> {
    if change in changes then Adds(change) else {}
  }

  /** The checks for these changes, as long as none of them needs everything. */
  function Selected(changes: set<Change>): set<Check> {
    {Docs} + AddsIf(changes, Workflow) + AddsIf(changes, Rust) + AddsIf(changes, Native) + AddsIf(changes, Windows)
  }

  function PlanOf(changes: set<Change>): set<Check> {
    if Everything in changes then FULL else Selected(changes)
  }

  function PlanBy(rule: string -> Change, paths: seq<string>): set<Check> {
    PlanOf(Changes(rule, paths))
  }

  /** The checks for these changed paths. */
  function PlanFor(paths: seq<string>): set<Check> {
    PlanBy(ChangeOf, paths)
  }

  method SelectPath(plan: Plan, change: Change)
    requires change != Everything
    modifies plan
    ensures plan.checks == old(plan.checks) + Adds(change)
  {
    match change
    case Workflow => plan.SelectWorkflows();
    case Rust => plan.SelectXtask();
    case Native => plan.SelectNativeXtask();
    case Windows => plan.SelectWindowsContracts();
    case Nothing =>
  }

  lemma ChangesOf(rule: string -> Change, a: seq<string>, b: seq<string>)
    ensures Changes(rule, a + b) == Changes(rule, a) + Changes(rule, b)
  {
    forall i | 0 <= i < |a| ensures rule(a[i]) in Changes(rule, a + b) {
      assert (a + b)[i] == a[i];
    }
    forall i | 0 <= i < |b| ensures rule(b[i]) in Changes(rule, a + b) {
      assert (a + b)[|a| + i] == b[i];
    }
  }

  method Classify(paths: seq<string>) returns (checks: set<Check>)
    ensures checks == PlanFor(paths)
  {
    var rule: string -> Change := ChangeOf;
    checks := ClassifyBy(rule, paths);
  }

  method ClassifyBy(rule: string -> Change, paths: seq<string>) returns (checks: set<Check>)
    ensures checks == PlanBy(rule, paths)
  {
    var plan := new Plan.Docs();
    for i := 0 to |paths|
      invariant Everything !in Changes(rule, paths[..i])
      invariant plan.checks == Selected(Changes(rule, paths[..i]))
    {
      var change := rule(paths[i]);
      if change == Everything {
        return FULL;
      }
      SelectPath(plan, change);
    }
    assert paths[..|paths|] == paths;
    return plan.checks;
  }

  /** A check is selected exactly if it is the documentation check or one of the paths adds it. */
  lemma SelectedByOne(rule: string -> Change, paths: seq<string>, c: Check)
    ensures c in PlanBy(rule, paths) <==> c == Docs || exists p :: p in paths && c in Adds(rule(p))
  {
    if change :| change in Changes(rule, paths) && c in Adds(change) {
      var i :| 0 <= i < |paths| && rule(paths[i]) == change;
      assert paths[i] in paths;
    }
    if p :| p in paths && c in Adds(rule(p)) {
      var i :| 0 <= i < |paths| && paths[i] == p;
      assert rule(paths[i]) in Changes(rule, paths);
    }
  }

  /** Order and repetition of the paths do not matter, whatever the rule for single paths. */
  lemma OrderIsFree(rule: string -> Change, a: seq<string>, b: seq<string>)
    requires forall p :: p in a <==> p in b
    ensures PlanBy(rule, a) == PlanBy(rule, b)
  {
    SameChanges(rule, a, b);
    SameChanges(rule, b, a);
  }

  lemma SameChanges(rule: string -> Change, a: seq<string>, b: seq<string>)
    requires forall p :: p in a ==> p in b
    ensures Changes(rule, a) <= Changes(rule, b)
  {
    forall i | 0 <= i < |a| ensures rule(a[i]) in Changes(rule, b) {
      assert a[i] in b;
      var j :| 0 <= j < |b| && b[j] == a[i];
    }
  }

  /** Paths together select what each part selects, and the full plan absorbs every other. */
  lemma ConcatenationIsUnion(rule: string -> Change, a: seq<string>, b: seq<string>)
    ensures PlanBy(rule, a + b) == PlanBy(rule, a) + PlanBy(rule, b)
    ensures PlanBy(rule, a) == FULL ==> PlanBy(rule, a + b) == PlanBy(rule, b + a) == FULL
  {
    ChangesOf(rule, a, b);
    ChangesOf(rule, b, a);
    PlanWithin(Changes(rule, b));
  }

  lemma PlanWithin(changes: set<Change>)
    ensures PlanOf(changes) <= FULL
  {
  }

  // ---------------------------------------------------------------- plans that the scope policy accepts

  /** The plan that the scope policy expects from the flags of this one. */
  function Expected(plan: set<Check>): set<Check> {
    if Product in plan then FULL else
    {Docs}
    + (if CodeqlActions in plan then WORKFLOW_CHECKS else {})
    + (if CodeqlRust in plan then XTASK_CHECKS else {})
    + (if XtaskNative in plan then NATIVE_CHECKS else {})
    + (if WindowsContracts in plan then WINDOWS_CHECKS else {})
  }

  predicate Accepted(plan: set<Check>) {
    plan == Expected(plan)
  }

  /** The changes that the flags of a plan stand for. */
  function Flagged(plan: set<Check>): set<Change> {
    if Product in plan then {Everything} else
    (if CodeqlActions in plan then {Workflow} else {})
    + (if CodeqlRust in plan then {Rust} else {})
    + (if XtaskNative in plan then {Native} else {})
    + (if WindowsContracts in plan then {Windows} else {})
  }

  lemma PlanIsAccepted(changes: set<Change>)
    ensures Accepted(PlanOf(changes))
  {
    var plan := PlanOf(changes);
    assert forall c :: c in Expected(plan) <==> c in plan;
  }

  /** A path for a change that is asked for. */
  lemma PathFor(change: Change) returns (path: string)
    requires change != Nothing
    ensures ChangeOf(path) == change
  {
    match change
    case Workflow => path := WorkflowPath("a");
    case Rust => path := RustPath("a");
    case Native => path := NativePath("a");
    case Windows => path := WindowsPath("lib");
    case Everything =>
      path := "";
      OtherPath(path);
  }

  ghost predicate HasPath(rule: string -> Change, change: Change) {
    exists path :: rule(path) == change
  }

  /** Every change that is asked for has a path. */
  ghost predicate Covers(rule: string -> Change) {
    forall change :: change != Nothing ==> HasPath(rule, change)
  }

  lemma {:induction false} PathsFor(rule: string -> Change, changes: set<Change>) returns (paths: seq<string>)
    requires Covers(rule) && Nothing !in changes
    ensures Changes(rule, paths) == changes
    decreases |changes|
  {
    if changes == {} {
      paths := [];
    } else {
      var change :| change in changes;
      var rest := PathsFor(rule, changes - {change});
      assert HasPath(rule, change);
      var path :| rule(path) == change;
      paths := rest + [path];
      ChangesOf(rule, rest, [path]);
      assert [path][0] == path && Changes(rule, [path]) == {change};
    }
  }

  lemma ChangeOfCovers()
    ensures Covers(ChangeOf)
  {
    var rule: string -> Change := ChangeOf;
    forall change: Change | change != Nothing ensures HasPath(rule, change) {
      var path := PathFor(change);
      assert rule(path) == change;
    }
  }

  lemma ClassifiedBy(rule: string -> Change, plan: set<Check>)
    requires Covers(rule)
    ensures Accepted(plan) <==> exists paths :: PlanBy(rule, paths) == plan
  {
    if Accepted(plan) {
      var paths := PathsFor(rule, Flagged(plan));
      assert PlanBy(rule, paths) == plan;
    }
    if paths :| PlanBy(rule, paths) == plan {
      PlanIsAccepted(Changes(rule, paths));
    }
  }

  /** The classified plans are exactly the plans that are accepted. */
  lemma ClassifiedExactlyAccepted(plan: set<Check>)
    ensures Accepted(plan) <==> exists paths :: PlanFor(paths) == plan
  {
    ChangeOfCovers();
    ClassifiedBy(ChangeOf, plan);
    if paths :| PlanBy(ChangeOf, paths) == plan {
      assert PlanFor(paths) == plan;
    }
    if paths :| PlanFor(paths) == plan {
      assert PlanBy(ChangeOf, paths) == plan;
    }
  }
}
