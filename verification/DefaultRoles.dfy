/** The role mask and the running budget of `xtask/src/proof_tools/native_default.rs`. */
module DefaultRoles {

  import opened Wrappers

  const MAX_OBJECT_BYTES := 256 * 1024 * 1024
  const MAX_TOTAL_BYTES := 1024 * 1024 * 1024
  const MAX_MEMBERS := 1024

  datatype Refusal = Object | Count | Aggregate | DuplicateRole | Missing

  datatype Role =
    | Mise | Observer | OuterCargo | CargoProxy | StandaloneProxy | Driver | Compiler | Cbmc | GotoCc | GotoInstrument
    | LinkedCargo | LinkedRustc | RustcRuntime | LlvmRuntime | CompilerMarker | ToolchainMarker | KaniLibC | Support

  function Bit(role: Role): bv32 {
    match role
    case Mise => 1
    case Observer => 2
    case OuterCargo => 4
    case CargoProxy => 8
    case StandaloneProxy => 16
    case Driver => 32
    case Compiler => 64
    case Cbmc => 128
    case GotoCc => 256
    case GotoInstrument => 512
    case LinkedCargo => 1024
    case LinkedRustc => 2048
    case RustcRuntime => 4096
    case LlvmRuntime => 8192
    case CompilerMarker => 16384
    case ToolchainMarker => 32768
    case KaniLibC => 65536
    case Support => 0
  }

  const REQUIRED_ROLES: bv32 := 0x1_ffff

  function IncludeRole(mask: bv32, role: Role): Result<bv32, Refusal> {
    if Bit(role) != 0 && mask & Bit(role) != 0 then Err(DuplicateRole) else Ok(mask | Bit(role))
  }

  datatype Budget = Budget(members: nat, bytes: nat)

  /** A checkpoint of a budget, if it could have been reached. */
  function FromObservation(members: nat, bytes: nat): Option<Budget> {
    if members <= MAX_MEMBERS && bytes <= MAX_TOTAL_BYTES && bytes <= members * MAX_OBJECT_BYTES
    then Some(Budget(members, bytes)) else None
  }

  function IncludeBytes(budget: Budget, bytes: nat): Result<Budget, Refusal> {
    if bytes > MAX_OBJECT_BYTES then Err(Object)
    else if budget.members + 1 > MAX_MEMBERS then Err(Count)
    else if budget.bytes + bytes > MAX_TOTAL_BYTES then Err(Aggregate)
    else Ok(Budget(budget.members + 1, budget.bytes + bytes))
  }

  // ---------------------------------------------------------------- the mask is a set of roles

  /** The mask of a list of roles. */
  function Mask(roles: seq<Role>): bv32 {
    MaskWith(Bit, roles)
  }

  function MaskWith(bit: Role -> bv32, roles: seq<Role>): bv32 {
    if roles == [] then 0 else MaskWith(bit, roles[..|roles| - 1]) | bit(roles[|roles| - 1])
  }

  /** No role but `Support` occurs twice. */
  predicate Distinct(roles: seq<Role>) {
    forall i, j :: 0 <= i < j < |roles| ==> roles[i] == roles[j] ==> roles[i] == Support
  }

  lemma {:induction false} MaskWithHas(bit: Role -> bv32, roles: seq<Role>, r: Role)
    requires forall s :: bit(s) & bit(r) == 0 <==> s != r
    ensures MaskWith(bit, roles) & bit(r) == 0 <==> r !in roles
  {
    if roles == [] {
    } else {
      var front, last := roles[..|roles| - 1], roles[|roles| - 1];
      MaskWithHas(bit, front, r);
      assert roles == front + [last];
    }
  }

  /** A role's bit is in the mask exactly when the role is in the list. */
  lemma MaskHas(roles: seq<Role>, r: Role)
    requires r != Support
    ensures Mask(roles) & Bit(r) == 0 <==> r !in roles
  {
    var bit: Role -> bv32 := Bit;
    assert forall s: Role :: bit(s) & bit(r) == 0 <==> s != r;
    MaskWithHas(bit, roles, r);
  }

  /** Including one more role succeeds exactly if the list stays distinct, and gives its mask. */
  lemma IncludeIsDistinct(roles: seq<Role>, r: Role)
    requires Distinct(roles)
    ensures IncludeRole(Mask(roles), r).Ok? <==> Distinct(roles + [r])
    ensures IncludeRole(Mask(roles), r).Ok? ==> IncludeRole(Mask(roles), r).value == Mask(roles + [r])
  {
    IncludeOk(Mask(roles), r);
    DistinctNext(roles, r);
    if r != Support {
      MaskHas(roles, r);
    }
  }

  /** Takes one more role into the mask of the roles taken so far. */
  method TakeRole(mask: bv32, ghost taken: seq<Role>, role: Role) returns (r: Result<bv32, Refusal>)
    requires mask == Mask(taken) && Distinct(taken)
    ensures r.Ok? <==> Distinct(taken + [role])
    ensures r.Ok? ==> r.value == Mask(taken + [role])
  {
    IncludeIsDistinct(taken, role);
    r := IncludeRole(mask, role);
  }

  lemma IncludeOk(mask: bv32, r: Role)
    ensures IncludeRole(mask, r).Ok? <==> r == Support || mask & Bit(r) == 0
    ensures IncludeRole(mask, r).Ok? ==> IncludeRole(mask, r).value == mask | Bit(r)
  {
  }

  lemma DistinctNext(roles: seq<Role>, r: Role)
    ensures Distinct(roles + [r]) <==> Distinct(roles) && (r == Support || r !in roles)
  {
    var all := roles + [r];
    assert forall i :: 0 <= i < |roles| ==> all[i] == roles[i];
    assert all[|roles|] == r;
  }

  lemma {:induction false} MaskBounded(roles: seq<Role>)
    ensures Mask(roles) & !REQUIRED_ROLES == 0
  {
    if roles != [] {
      var front, last := roles[..|roles| - 1], roles[|roles| - 1];
      MaskBounded(front);
    }
  }

  ghost predicate HasAllRequired(roles: seq<Role>) {
    forall r: Role :: r != Support ==> r in roles
  }

  /** The mask admits a list of roles exactly when no required role is missing from it. */
  lemma AdmitsAllRequired(roles: seq<Role>)
    ensures Mask(roles) == REQUIRED_ROLES <==> HasAllRequired(roles)
  {
    if Mask(roles) == REQUIRED_ROLES {
      forall r: Role | r != Support ensures r in roles {
        MaskHas(roles, r);
      }
    }
    if HasAllRequired(roles) {
      forall r: Role | r != Support ensures Mask(roles) & Bit(r) != 0 {
        MaskHas(roles, r);
      }
      MaskBounded(roles);
      assert Mask(roles) & Bit(Mise) != 0 && Mask(roles) & Bit(Observer) != 0 && Mask(roles) & Bit(OuterCargo) != 0;
      assert Mask(roles) & Bit(CargoProxy) != 0 && Mask(roles) & Bit(StandaloneProxy) != 0;
      assert Mask(roles) & Bit(Driver) != 0 && Mask(roles) & Bit(Compiler) != 0 && Mask(roles) & Bit(Cbmc) != 0;
      assert Mask(roles) & Bit(GotoCc) != 0 && Mask(roles) & Bit(GotoInstrument) != 0;
      assert Mask(roles) & Bit(LinkedCargo) != 0 && Mask(roles) & Bit(LinkedRustc) != 0;
      assert Mask(roles) & Bit(RustcRuntime) != 0 && Mask(roles) & Bit(LlvmRuntime) != 0;
      assert Mask(roles) & Bit(CompilerMarker) != 0 && Mask(roles) & Bit(ToolchainMarker) != 0;
      assert Mask(roles) & Bit(KaniLibC) != 0;
    }
  }
}
