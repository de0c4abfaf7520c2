/** The findings of the ownership policy of `xtask/src/ownership.rs`, and its reading of macro tokens. */
module OwnershipTokens {

  import opened Wrappers

  const REPLACEMENT := "crates/domyjob/src/platform/replacement.rs"
  const LOCK := "crates/domyjob/src/lock.rs"
  const MAIN_FILE := "crates/domyjob/src/main.rs"
  const KERNEL := "crates/domyjob/src/process/windows/kernel.rs"
  const DESCRIPTOR := "crates/domyjob/src/platform/windows_acl/descriptor.rs"
  const SOURCE_FILE := "crates/domyjob/src/platform/source_file/windows.rs"
  const TERMINAL_KERNEL := "crates/domyjob/src/platform/terminal/windows/kernel.rs"
  const TERMINAL_FIXTURE := "crates/domyjob/src/platform/terminal/windows/fixture.rs"
  const DISTRIBUTION := "xtask/src/distribution.rs"
  const CI := "xtask/src/ci.rs"
  const RELEASE_READY := "xtask/src/release_ready.rs"
  const STATE_IO := "crates/domyjob/src/state_io.rs"
  const RELEASE := "xtask/src/release.rs"
  const RELEASE_QUEUE := "xtask/src/release_queue.rs"
  const RELEASE_ORCHESTRATION := "xtask/src/release_orchestration.rs"
  const MACOS_PACKAGE := "xtask/src/macos_package.rs"
  const DEPENDENCIES := "xtask/src/dependencies.rs"
  const RESOURCES := "crates/domyjob/src/process/resources.rs"
  const APP := "crates/domyjob/src/app.rs"
  const INPUT_ACCOUNTING := "crates/domyjob/tests/e2e/os/windows/owned_job.rs"
  const E2E := "crates/domyjob/tests/e2e.rs"
  const E2E_DIRECTORY := "crates/domyjob/tests/e2e/"
  const E2E_PEER := "crates/domyjob/tests/e2e/peer.rs"
  const E2E_WORLD := "crates/domyjob/tests/e2e/world.rs"
  const E2E_WINDOWS := "crates/domyjob/tests/e2e/os/windows.rs"

  const CAPABILITY_OWNERS := {
    KERNEL, DESCRIPTOR, SOURCE_FILE, LOCK, REPLACEMENT, RELEASE, DISTRIBUTION, CI, RELEASE_QUEUE,
    RELEASE_ORCHESTRATION, MACOS_PACKAGE, RELEASE_READY, DEPENDENCIES, RESOURCES
  }

  const RAW_OWNERS := {
    E2E_PEER, "crates/domyjob/tests/e2e_peer.rs", "crates/domyjob-core/src/ingress.rs", "crates/domyjob/build.rs",
    "crates/domyjob/src/bounded.rs", "crates/domyjob/src/builds.rs", "crates/domyjob/src/output.rs",
    "crates/domyjob/src/platform.rs", "crates/domyjob/src/platform/clock.rs", "crates/domyjob/src/process.rs",
    RESOURCES, STATE_IO, "crates/domyjob/src/testing.rs", "crates/domyjob/src/workspace.rs", "xtask/src/lib.rs",
    "xtask/src/proof_tools.rs", "xtask/src/main.rs", RELEASE, RELEASE_QUEUE, RELEASE_ORCHESTRATION, MACOS_PACKAGE,
    RELEASE_READY, CI, DISTRIBUTION, "xtask/tests/cli.rs", REPLACEMENT, LOCK, MAIN_FILE
  }

  datatype Reason =
    | ReplyDeadline | WaitClock | Replacement | StagedCleanup | ProcessOutput | FileLock | JobLaunch | Rename

  datatype Kind =
    | RawCommand | Constructor | Sdk | AccountingToken | Operation(reason: Reason)
    | RawOwner | AccountingImports | AccountingPath | AccountingCrate | TerminalAlias | CommandImport
    | HiddenType | HiddenImport | Declared

  datatype Finding = Finding(line: nat, kind: Kind)

  /** Where a construct stands: below a `raw` module, below a module, below a function, and in the one
      function that may create commands. */
  datatype Context = Context(raw: bool, inModule: bool, inFunction: bool, commandOwner: bool)

  /** An identifier without its raw prefix. */
  function Name(text: string): string {
    if "r#" <= text then text[2..] else text
  }

  // ---------------------------------------------------------------- single rules

  predicate FileLocking(name: string) {
    name in {"lock", "lock_shared", "try_lock", "try_lock_shared", "unlock"}
  }

  /** Why an operation of this name is reserved here. */
  function Reserved(owner: string, raw: bool, name: string): Option<Reason> {
    var e2e := owner == E2E || E2E_DIRECTORY <= owner;
    if name in {"recv_timeout", "wait_timeout", "set_read_timeout", "set_write_timeout", "wait_within"} && e2e then
      Some(ReplyDeadline)
    else if name in {"now", "elapsed", "expired", "left_millis", "after_millis", "after_seconds"}
      && e2e && owner != E2E && owner != E2E_PEER then
      Some(WaitClock)
    else if name in {"persist", "persist_noclobber"} then Some(Replacement)
    else if name == "keep" && owner != E2E_WORLD then Some(StagedCleanup)
    else if name in {"into_temp_path", "disable_cleanup"} && (owner != REPLACEMENT || !raw) then Some(StagedCleanup)
    else if name == "of_process" && (owner != MAIN_FILE || !raw) then Some(ProcessOutput)
    else if raw && FileLocking(name) && owner != LOCK then Some(FileLock)
    else if name in {"spawn_io", "spawn_stdio"} && owner == APP then Some(JobLaunch)
    else if name == "rename" && raw && owner !in {REPLACEMENT, STATE_IO, DISTRIBUTION, RELEASE_READY} then Some(Rename)
    else None
  }

  /** What the policy says about one file: which exemptions its path has, and its reserved operations. */
  datatype Policy = Policy(
    ci: bool, accounting: bool, sdkLeaf: bool, terminalLeaf: bool, capability: bool, rawOwner: bool,
    reserved: (bool, string) -> Option<Reason>, lowercase: char -> bool)

  function PolicyOf(owner: string, lowercase: char -> bool): Policy {
    Policy(
      owner == CI, owner == INPUT_ACCOUNTING,
      owner in {KERNEL, DESCRIPTOR, SOURCE_FILE, TERMINAL_KERNEL, TERMINAL_FIXTURE, INPUT_ACCOUNTING, E2E_WINDOWS},
      owner in {TERMINAL_KERNEL, TERMINAL_FIXTURE},
      owner in CAPABILITY_OWNERS, owner in RAW_OWNERS,
      (raw, name) => Reserved(owner, raw, name), lowercase)
  }

  function OperationFindings(policy: Policy, raw: bool, name: string, line: nat): seq<Finding> {
    match policy.reserved(raw, name)
    case Some(reason) => [Finding(line, Operation(reason))]
    case None => []
  }

  function CommandFindings(policy: Policy, context: Context, line: nat): seq<Finding> {
    if policy.ci && !context.commandOwner then [Finding(line, RawCommand)] else []
  }

  function ConstructorFindings(policy: Policy, line: nat): seq<Finding> {
    if policy.ci then [Finding(line, Constructor)] else []
  }

  function SdkFindings(policy: Policy, name: string, line: nat): seq<Finding> {
    if name == "windows_sys" && !policy.sdkLeaf then [Finding(line, Sdk)] else []
  }

  function AccountingFindings(policy: Policy, name: string, line: nat): seq<Finding> {
    if policy.accounting && name == "windows_sys" then [Finding(line, AccountingToken)] else []
  }

  // ---------------------------------------------------------------- patterns over macro tokens

  datatype Token = Ident(text: string, line: nat) | Punct(c: char) | Literal | Group(inner: seq<Token>)

  predicate IsIdent(token: Token, name: string) {
    token.Ident? && Name(token.text) == name
  }

  predicate IsColon(token: Token) {
    token.Punct? && token.c == ':'
  }

  predicate IsAccess(token: Token) {
    token.Punct? && (token.c == '.' || token.c == ':')
  }

  predicate AllColons(tokens: seq<Token>, from: int, end: nat)
    requires end <= |tokens|
  {
    forall k :: 0 <= from <= k < end ==> IsColon(tokens[k])
  }

  /** The last token before `i` that is no colon is this identifier. */
  predicate Follows(tokens: seq<Token>, i: nat, name: string)
    requires i <= |tokens|
  {
    exists j :: 0 <= j < i && IsIdent(tokens[j], name) && AllColons(tokens, j + 1, i)
  }

  /** The findings at an identifier: whether it is reached by `.` or `:`, and follows `raw` or `Command`. */
  function IdentFindings(
    policy: Policy, context: Context, text: string, line: nat, access: bool, rawPath: bool, constructorPath: bool)
    : seq<Finding>
  {
    var name := Name(text);
    AccountingFindings(policy, name, line)
    + (if rawPath && name == "command" then CommandFindings(policy, context, line) else [])
    + (if constructorPath && name == "new" then ConstructorFindings(policy, line) else [])
    + SdkFindings(policy, name, line)
    + (if access then OperationFindings(policy, context.raw, name, line) else [])
  }

  predicate Accessed(tokens: seq<Token>, i: nat)
    requires i <= |tokens|
  {
    0 < i && IsAccess(tokens[i - 1])
  }

  /** The findings at one token, by what stands before it in its own group. */
  function FindingsAt(policy: Policy, context: Context, tokens: seq<Token>, i: nat): seq<Finding>
    requires i < |tokens|
    decreases tokens, 0
  {
    match tokens[i]
    case Ident(text, line) =>
      IdentFindings(
        policy, context, text, line, Accessed(tokens, i), Follows(tokens, i, "raw"), Follows(tokens, i, "Command"))
    case Group(inner) => FindingsBefore(policy, context, inner, |inner|)
    case _ => []
  }

  function FindingsBefore(policy: Policy, context: Context, tokens: seq<Token>, end: nat): seq<Finding>
    requires end <= |tokens|
    decreases tokens, 1, end
  {
    if end == 0 then []
    else FindingsBefore(policy, context, tokens, end - 1) + FindingsAt(policy, context, tokens, end - 1)
  }

  function TokenFindings(policy: Policy, context: Context, tokens: seq<Token>): seq<Finding> {
    FindingsBefore(policy, context, tokens, |tokens|)
  }

  /** How the flag of an automaton that reads one token after the other follows the pattern. */
  lemma FollowsNext(tokens: seq<Token>, i: nat, name: string)
    requires i < |tokens|
    ensures Follows(tokens, i + 1, name) <==>
      IsIdent(tokens[i], name) || (IsColon(tokens[i]) && Follows(tokens, i, name))
  {
    if IsColon(tokens[i]) && Follows(tokens, i, name) {
      var j :| 0 <= j < i && IsIdent(tokens[j], name) && AllColons(tokens, j + 1, i);
      assert AllColons(tokens, j + 1, i + 1);
    }
    if IsIdent(tokens[i], name) {
      assert AllColons(tokens, i + 1, i + 1);
    }
    if Follows(tokens, i + 1, name) && !IsIdent(tokens[i], name) {
      var j :| 0 <= j < i + 1 && IsIdent(tokens[j], name) && AllColons(tokens, j + 1, i + 1);
      assert AllColons(tokens, j + 1, i) && IsColon(tokens[i]);
    }
  }
}
