/** The written form of a plan and the gate over a workflow's jobs, of `xtask/src/ci.rs`. JSON objects are
  maps; parsing their text is not part of this model.
  */
module CiGate {

  import opened Wrappers
  import opened CiPlan
  import opened Collections

  datatype Value = Flag(b: bool) | Number(n: int) | Unknown

  type Object = map<string, Value>

  datatype Refusal =
    | NoObject | Schema | NotBoolean | Contradiction | Workflow | Jobs | NoResult | NoSuccess | NoPlan | OtherPlan

  function NameOf(c: Check): string {
    match c
    case Docs => "docs"
    case Workflows => "workflows"
    case Xtask => "xtask"
    case XtaskNative => "xtask_native"
    case WindowsContracts => "windows_contracts"
    case Product => "product"
    case Dependencies => "dependencies"
    case DependencyReview => "dependency_review"
    case Fuzz => "fuzz"
    case CodeqlRust => "codeql_rust"
    case CodeqlActions => "codeql_actions"
    case Scorecard => "scorecard"
    case Fleet => "fleet"
  }

  const SCHEMA := "schemaVersion"

  // ---------------------------------------------------------------- flags by name

  predicate Distinct(checks: seq<Check>) {
    forall i, j :: 0 <= i < j < |checks| ==> checks[i] != checks[j]
  }

  /** The flags of these checks, by name. */
  function Flags(plan: set<Check>, name: Check -> string, checks: seq<Check>): Object {
    if checks == [] then map[SCHEMA := Number(1)]
    else
      var last := checks[|checks| - 1];
      Flags(plan, name, checks[..|checks| - 1])[name(last) := Flag(last in plan)]
  }

  ghost predicate Names(name: Check -> string) {
    && (forall c, d :: name(c) == name(d) ==> c == d)
    && forall c :: name(c) != SCHEMA
  }

  lemma {:induction false} FlagsHold(plan: set<Check>, name: Check -> string, checks: seq<Check>)
    requires Names(name) && Distinct(checks)
    ensures |Flags(plan, name, checks)| == |checks| + 1
    ensures SCHEMA in Flags(plan, name, checks) && Flags(plan, name, checks)[SCHEMA] == Number(1)
    ensures forall c :: name(c) in Flags(plan, name, checks) <==> c in checks
    ensures forall c :: c in checks ==> Flags(plan, name, checks)[name(c)] == Flag(c in plan)
  {
    if checks != [] {
      var front, last := checks[..|checks| - 1], checks[|checks| - 1];
      FlagsHold(plan, name, front);
      assert checks == front + [last] && last !in front;
    }
  }

  /** A record of the right size with the schema and these flags is the written form of their plan. */
  lemma {:induction false} FlagsOnly(record: Object, plan: set<Check>, name: Check -> string, checks: seq<Check>)
    requires Names(name) && Distinct(checks)
    requires SCHEMA in record && record[SCHEMA] == Number(1)
    requires forall c :: c in checks ==> name(c) in record && record[name(c)] == Flag(c in plan)
    ensures Flags(plan, name, checks).Items <= record.Items
  {
    if checks != [] {
      var front, last := checks[..|checks| - 1], checks[|checks| - 1];
      assert checks == front + [last];
      FlagsOnly(record, plan, name, front);
    }
  }

  lemma SameItems(a: Object, b: Object)
    requires a.Items <= b.Items && |a| == |b|
    ensures a == b
  {
    assert a.Keys <= b.Keys by {
      forall k | k in a.Keys ensures k in b.Keys {
        assert (k, a[k]) in b.Items;
      }
    }
    SubsetSize(a.Keys, b.Keys);
    forall k | k in a ensures a[k] == b[k] {
      assert (k, a[k]) in b.Items;
    }
  }

  // ---------------------------------------------------------------- writing and reading plans

  lemma AllChecks()
    ensures Distinct(CHECKS) && |CHECKS| == 13 && forall c :: c in CHECKS
  {
    ChecksDiffer();
    forall c ensures c in CHECKS {
      IsListed(c);
    }
  }

  lemma ChecksDiffer()
    ensures Distinct(CHECKS) && |CHECKS| == 13
  {
    var checks := CHECKS;
    assert |checks| == 13;
    forall i, j | 0 <= i < j < |checks| ensures checks[i] != checks[j] {
      PlaceAt(i);
      PlaceAt(j);
    }
  }

  function Place(c: Check): nat {
    match c
    case Docs => 0
    case Workflows => 1
    case Xtask => 2
    case XtaskNative => 3
    case WindowsContracts => 4
    case Product => 5
    case Dependencies => 6
    case DependencyReview => 7
    case Fuzz => 8
    case CodeqlRust => 9
    case CodeqlActions => 10
    case Scorecard => 11
    case Fleet => 12
  }

  lemma PlaceAt(i: nat)
    requires i < |CHECKS|
    ensures Place(CHECKS[i]) == i
  {
  }

  lemma IsListed(c: Check)
    ensures c in CHECKS
  {
    assert CHECKS[Place(c)] == c;
  }

  function Written(plan: set<Check>): Object {
    Flags(plan, NameOf, CHECKS)
  }

  /** The record has the schema, one flag for each check, and nothing else. */
  ghost predicate Spells(record: Object, plan: set<Check>, name: Check -> string) {
    && |record| == 14
    && SCHEMA in record && record[SCHEMA] == Number(1)
    && forall c :: name(c) in record && record[name(c)] == Flag(c in plan)
  }

  lemma WrittenExactly(record: Object, plan: set<Check>)
    ensures record == Written(plan) <==> Spells(record, plan, NameOf)
  {
    AllChecks();
    NamesDiffer();
    WrittenExactlyBy(record, plan, NameOf, CHECKS);
  }

  lemma NamesDiffer()
    ensures Names(NameOf)
  {
  }

  lemma WrittenExactlyBy(record: Object, plan: set<Check>, name: Check -> string, checks: seq<Check>)
    requires Names(name) && Distinct(checks) && |checks| == 13 && forall c :: c in checks
    ensures record == Flags(plan, name, checks) <==> Spells(record, plan, name)
  {
    FlagsHold(plan, name, checks);
    if Spells(record, plan, name) {
      FlagsOnly(record, plan, name, checks);
      SameItems(Flags(plan, name, checks), record);
    }
  }

  method Json(plan: set<Check>) returns (record: Object)
    ensures record == Written(plan)
  {
    var checks := CHECKS;
    record := map[SCHEMA := Number(1)];
    for i := 0 to |checks|
      invariant record == Flags(plan, NameOf, checks[..i])
    {
      assert checks[..i + 1][..i] == checks[..i];
      record := record[NameOf(checks[i]) := Flag(checks[i] in plan)];
    }
    assert checks[..|checks|] == checks;
  }

  /** Reads the flags of all checks, if each is there. */
  method ReadFlags(record: Object, checks: seq<Check>, name: Check -> string) returns (r: Option<set<Check>>)
    ensures r.Some? <==> forall c :: c in checks ==> name(c) in record && record[name(c)].Flag?
    ensures r.Some? ==> forall c :: c in r.value <==> c in checks && record[name(c)] == Flag(true)
  {
    var selected: set<Check> := {};
    for i := 0 to |checks|
      invariant forall c :: c in checks[..i] ==> name(c) in record && record[name(c)].Flag?
      invariant forall c :: c in selected <==> c in checks[..i] && record[name(c)] == Flag(true)
    {
      assert checks[..i + 1] == checks[..i] + [checks[i]];
      var key := name(checks[i]);
      if key !in record || !record[key].Flag? {
        assert checks[i] in checks;
        return None;
      }
      if record[key].b {
        selected := selected + {checks[i]};
      }
    }
    assert checks[..|checks|] == checks;
    return Some(selected);
  }

  /** The flags of a record of the right size are those of the plan it is the written form of. */
  lemma FlagsSpell(record: Object, read: Option<set<Check>>, checks: seq<Check>, name: Check -> string)
    requires |record| == 14 && SCHEMA in record && record[SCHEMA] == Number(1) && forall c :: c in checks
    requires read.Some? <==> forall c :: c in checks ==> name(c) in record && record[name(c)].Flag?
    requires read.Some? ==> forall c :: c in read.value <==> c in checks && record[name(c)] == Flag(true)
    ensures forall plan :: Spells(record, plan, name) <==> read == Some(plan)
  {
    forall plan | Spells(record, plan, name) ensures read == Some(plan) {
      assert read.Some?;
      forall c ensures c in plan <==> c in read.value {
        assert name(c) in record && record[name(c)] == Flag(c in plan);
      }
      assert plan == read.value;
    }
  }

  /** Only a record with the schema and a flag for each check is a written form. */
  lemma WrittenHasSchema(record: Object)
    ensures forall plan :: record == Written(plan) ==>
      |record| == 14 && SCHEMA in record && record[SCHEMA] == Number(1)
  {
    forall plan | record == Written(plan) ensures Spells(record, plan, NameOf) {
      WrittenExactly(record, plan);
    }
  }

  /** What the flags of a record say about it. */
  lemma FlagsDecide(record: Object, read: Option<set<Check>>)
    requires forall plan :: Spells(record, plan, NameOf) <==> read == Some(plan)
    ensures forall plan :: record == Written(plan) <==> read == Some(plan)
  {
    forall plan ensures record == Written(plan) <==> Spells(record, plan, NameOf) {
      WrittenExactly(record, plan);
    }
  }

  /** The record is the written form of a plan that the scope policy accepts. */
  ghost predicate Reads(record: Object, plan: set<Check>) {
    record == Written(plan) && Accepted(plan)
  }

  /** Reading succeeds exactly on the written forms of accepted plans, and gives that plan back. */
  method Decode(value: Option<Object>) returns (r: Result<set<Check>, Refusal>)
    ensures r.Ok? ==> value.Some? && Reads(value.value, r.value)
    ensures forall plan :: value.Some? && Reads(value.value, plan) ==> r == Ok(plan)
  {
    if value.None? {
      return Err(NoObject);
    }
    var record := value.value;
    WrittenHasSchema(record);
    if |record| != 14 || SCHEMA !in record || record[SCHEMA] != Number(1) {
      return Err(Schema);
    }
    var selected := ReadFlags(record, CHECKS, NameOf);
    AllChecks();
    FlagsSpell(record, selected, CHECKS, NameOf);
    FlagsDecide(record, selected);
    if selected.None? {
      return Err(NotBoolean);
    }
    if !Accepted(selected.value) {
      return Err(Contradiction);
    }
    return Ok(selected.value);
  }

  /** Every classified plan survives being written and read. */
  lemma ClassifiedPlansAreRead(paths: seq<string>, plan: set<Check>)
    requires plan == PlanFor(paths)
    ensures Reads(Written(plan), plan)
  {
    ClassifiedExactlyAccepted(plan);
  }

  // ---------------------------------------------------------------- the gate

  /** A job as the gate sees it: its result, and the plan that it put out, if that can be parsed. */
  datatype Job = Job(result: Option<string>, plan: Option<Object>)

  datatype Needed = Needed(name: string, required: bool)

  /** The jobs of a workflow, and whether the plan selects them. */
  function GateJobs(workflow: string, plan: set<Check>): Option<seq<Needed>> {
    var changes := Needed("changes", true);
    if workflow == "ci" then
      var dependencies := Dependencies in plan;
      Some([
        changes, Needed("lint", true), Needed("deny", dependencies), Needed("vet", dependencies),
        Needed("test", Product in plan || Xtask in plan)])
    else if workflow == "codeql" then
      Some([changes, Needed("analyze", CodeqlRust in plan || CodeqlActions in plan)])
    else if workflow == "dependency-review" then Some([changes, Needed("review", DependencyReview in plan)])
    else if workflow == "scorecard" then Some([changes, Needed("analysis", Scorecard in plan)])
    else None
  }

  /** A selected job succeeded; any other job succeeded or was skipped. */
  predicate Satisfied(job: Needed, needs: map<string, Job>) {
    && job.name in needs
    && (needs[job.name].result == Some("success")
        || (!job.required && needs[job.name].result == Some("skipped")))
  }

  predicate AllSatisfied(jobs: seq<Needed>, needs: map<string, Job>) {
    forall i :: 0 <= i < |jobs| ==> Satisfied(jobs[i], needs)
  }

  function NamesOf(jobs: seq<Needed>): set<string> {
    set i | 0 <= i < |jobs| :: jobs[i].name
  }

  /** The results stand for this plan: exactly its jobs ran, all satisfied, and the plan is the one that the
      `changes` job put out. */
  ghost predicate Passes(workflow: string, value: Option<Object>, needs: map<string, Job>, plan: set<Check>) {
    && value.Some? && Reads(value.value, plan)
    && GateJobs(workflow, plan).Some?
    && needs.Keys == NamesOf(GateJobs(workflow, plan).value)
    && AllSatisfied(GateJobs(workflow, plan).value, needs)
    && "changes" in needs && needs["changes"].plan.Some? && Reads(needs["changes"].plan.value, plan)
  }

  predicate DistinctNames(jobs: seq<Needed>) {
    forall i, j :: 0 <= i < j < |jobs| ==> jobs[i].name != jobs[j].name
  }

  lemma GateJobsAreDistinct(workflow: string, plan: set<Check>)
    requires GateJobs(workflow, plan).Some?
    ensures DistinctNames(GateJobs(workflow, plan).value)
    ensures "changes" in NamesOf(GateJobs(workflow, plan).value)
  {
    var jobs := GateJobs(workflow, plan).value;
    assert jobs[0].name == "changes";
  }

  lemma {:induction false} NamesCount(jobs: seq<Needed>)
    requires DistinctNames(jobs)
    ensures |NamesOf(jobs)| == |jobs|
  {
    if jobs != [] {
      var front, last := jobs[..|jobs| - 1], jobs[|jobs| - 1];
      NamesCount(front);
      assert NamesOf(jobs) == NamesOf(front) + {last.name};
    }
  }

  /** With as many results as jobs, and one for each, there is no result for anything else. */
  lemma NoOtherResults(jobs: seq<Needed>, needs: map<string, Job>)
    requires DistinctNames(jobs)
    ensures |needs| == |jobs| && NamesOf(jobs) <= needs.Keys <==> needs.Keys == NamesOf(jobs)
  {
    NamesCount(jobs);
    if |needs| == |jobs| && NamesOf(jobs) <= needs.Keys {
      SubsetSize(NamesOf(jobs), needs.Keys);
    }
  }

  method CheckJobs(jobs: seq<Needed>, needs: map<string, Job>) returns (r: Option<Refusal>)
    ensures r.None? <==> AllSatisfied(jobs, needs)
  {
    for i := 0 to |jobs|
      invariant forall j :: 0 <= j < i ==> Satisfied(jobs[j], needs)
    {
      var job := jobs[i];
      if job.name !in needs || needs[job.name].result.None? {
        assert !Satisfied(jobs[i], needs);
        return Some(NoResult);
      }
      var result := needs[job.name].result.value;
      if result != "success" && (job.required || result != "skipped") {
        assert !Satisfied(jobs[i], needs);
        return Some(NoSuccess);
      }
    }
    return None;
  }

  /** The gate passes exactly on the results that stand for the plan it is given. */
  method VerifyGate(workflow: string, value: Option<Object>, needs: map<string, Job>)
    returns (r: Result<set<Check>, Refusal>)
    ensures r.Ok? ==> Passes(workflow, value, needs, r.value)
    ensures forall plan :: Passes(workflow, value, needs, plan) ==> r == Ok(plan)
  {
    var decoded := Decode(value);
    if decoded.Err? {
      return Err(decoded.error);
    }
    var plan := decoded.value;
    var jobs := GateJobs(workflow, plan);
    if jobs.None? {
      return Err(Workflow);
    }
    GateJobsAreDistinct(workflow, plan);
    NoOtherResults(jobs.value, needs);
    if |needs| != |jobs.value| {
      return Err(Jobs);
    }
    var refusal := CheckJobs(jobs.value, needs);
    if refusal.Some? {
      return Err(refusal.value);
    }
    if needs["changes"].plan.None? {
      return Err(NoPlan);
    }
    var actual := Decode(needs["changes"].plan);
    if actual.Err? {
      return Err(actual.error);
    }
    if actual.value != plan {
      return Err(OtherPlan);
    }
    return Ok(plan);
  }
}
