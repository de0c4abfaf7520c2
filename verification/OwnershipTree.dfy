/** Syntax trees as the ownership policy of `xtask/src/ownership.rs` sees them, and what it finds in them
  when every rule gets the context of its own ancestors.
  */
module OwnershipTree {

  import opened Wrappers
  import opened OwnershipTokens

  datatype Segment = Segment(text: string, line: nat)

  datatype UseTree =
    | UsePath(part: Segment, tree: UseTree)
    | UseName(part: Segment)
    | UseRename(part: Segment, rename: string)
    | UseGlob(line: nat)
    | UseGroup(items: seq<UseTree>)

  /** A syntax node with its children in the order of the walk. Declarations of capability types come with
      their own findings; `Other` is everything without a rule. */
  datatype Node =
    | Module(part: Segment, children: seq<Node>)
    | Function(part: Segment, inherited: bool, test: bool, children: seq<Node>)
    | Callable(children: seq<Node>)
    | MethodCall(part: Segment, children: seq<Node>)
    | PathExpression(segments: seq<Segment>, commandType: bool, children: seq<Node>)
    | Path(segments: seq<Segment>, children: seq<Node>)
    | UseItem(line: nat, tree: UseTree, children: seq<Node>)
    | Imports(tree: UseTree, children: seq<Node>)
    | ExternCrate(part: Segment, children: seq<Node>)
    | Macro(tokens: seq<Token>, children: seq<Node>)
    | Declaration(own: seq<Finding>, children: seq<Node>)
    | Other(children: seq<Node>)

  const ACCOUNTING_NAMESPACE := ["windows_sys", "Win32", "System", "JobObjects"]

  const ACCOUNTING_SYMBOLS := {
    "JOBOBJECT_BASIC_ACCOUNTING_INFORMATION", "JobObjectBasicAccountingInformation", "QueryInformationJobObject"
  }

  const POLICY_TEST := "ci_process_policy_overrides_inherited_automatic_provisioning"

  // ---------------------------------------------------------------- accounting imports

  /** The import spells the namespace and then only registered names. */
  predicate AccountingImport(tree: UseTree, namespace: seq<string>) {
    match tree
    case UsePath(part, rest) =>
      namespace != [] && Name(part.text) == namespace[0] && AccountingImport(rest, namespace[1..])
    case UseName(part) => namespace == [] && Name(part.text) in ACCOUNTING_SYMBOLS
    case UseGroup(items) =>
      namespace == [] && items != [] && forall i :: 0 <= i < |items| ==> AccountingImport(items[i], [])
    case UseRename(_, _) => false
    case UseGlob(_) => false
  }

  predicate NamesSdk(tree: UseTree) {
    match tree
    case UsePath(part, rest) => Name(part.text) == "windows_sys" || NamesSdk(rest)
    case UseName(part) => Name(part.text) == "windows_sys"
    case UseRename(part, _) => Name(part.text) == "windows_sys"
    case UseGroup(items) => exists i :: 0 <= i < |items| && NamesSdk(items[i])
    case UseGlob(_) => false
  }

  datatype Import = Item(path: seq<string>) | Alias(path: seq<string>) | Everything(path: seq<string>)

  /** What an import brings in, as full paths. */
  function Imported(tree: UseTree, prefix: seq<string>): set<Import> {
    match tree
    case UsePath(part, rest) => Imported(rest, prefix + [Name(part.text)])
    case UseName(part) => {Item(prefix + [Name(part.text)])}
    case UseRename(part, _) => {Alias(prefix + [Name(part.text)])}
    case UseGroup(items) => set i, x | 0 <= i < |items| && x in Imported(items[i], prefix) :: x
    case UseGlob(_) => {Everything(prefix)}
  }

  predicate IsRole(namespace: seq<string>, x: Import) {
    && x.Item? && |x.path| == |namespace| + 1
    && x.path[..|namespace|] == namespace && x.path[|namespace|] in ACCOUNTING_SYMBOLS
  }

  /** Nothing below is a path, and no group is empty. */
  predicate LeavesOnly(tree: UseTree) {
    match tree
    case UsePath(_, _) => false
    case UseGroup(items) => items != [] && forall i :: 0 <= i < |items| ==> LeavesOnly(items[i])
    case _ => true
  }

  /** All path parts come before the first group, and no group is empty. */
  predicate PathsFirst(tree: UseTree) {
    match tree
    case UsePath(_, rest) => PathsFirst(rest)
    case _ => LeavesOnly(tree)
  }

  ghost predicate OnlyRoles(tree: UseTree, prefix: seq<string>, namespace: seq<string>) {
    forall x :: x in Imported(tree, prefix) ==> IsRole(namespace, x)
  }

  /** What a tree without paths brings in lies directly below the prefix. */
  lemma {:induction false} LeavesAreDirect(tree: UseTree, prefix: seq<string>)
    requires LeavesOnly(tree)
    ensures Imported(tree, prefix) != {}
    ensures forall x :: x in Imported(tree, prefix) ==> x.Item? ==> |x.path| == |prefix| + 1
    decreases tree
  {
    if tree.UseGroup? {
      forall i | 0 <= i < |tree.items|
        ensures Imported(tree.items[i], prefix) != {}
        ensures forall x :: x in Imported(tree.items[i], prefix) ==> x.Item? ==> |x.path| == |prefix| + 1
      {
        LeavesAreDirect(tree.items[i], prefix);
      }
      assert Imported(tree.items[0], prefix) != {};
      var x :| x in Imported(tree.items[0], prefix);
      assert x in Imported(tree, prefix);
    }
  }

  lemma {:induction false} ImportsExtend(tree: UseTree, prefix: seq<string>)
    requires PathsFirst(tree)
    ensures exists x :: x in Imported(tree, prefix)
    ensures forall x :: x in Imported(tree, prefix) ==> prefix <= x.path && (x.Item? ==> |x.path| > |prefix|)
    decreases tree
  {
    match tree
    case UsePath(part, below) => ImportsExtend(below, prefix + [Name(part.text)]);
    case UseGroup(items) =>
      LeavesAreDirect(tree, prefix);
      forall i | 0 <= i < |items|
        ensures forall x :: x in Imported(items[i], prefix) ==> prefix <= x.path && (x.Item? ==> |x.path| > |prefix|)
      {
        assert LeavesOnly(items[i]);
        ImportsExtend(items[i], prefix);
      }
    case UseName(part) => assert Item(prefix + [Name(part.text)]) in Imported(tree, prefix);
    case UseRename(part, _) => assert Alias(prefix + [Name(part.text)]) in Imported(tree, prefix);
    case UseGlob(_) => assert Everything(prefix) in Imported(tree, prefix);
  }

  lemma {:induction false} LeavesAreRoles(tree: UseTree, prefix: seq<string>)
    ensures AccountingImport(tree, []) <==> LeavesOnly(tree) && OnlyRoles(tree, prefix, prefix)
    decreases tree
  {
    match tree
    case UseName(part) =>
      var x := Item(prefix + [Name(part.text)]);
      assert x in Imported(tree, prefix) && x.path[..|prefix|] == prefix;
    case UseRename(part, _) => assert Alias(prefix + [Name(part.text)]) in Imported(tree, prefix);
    case UseGlob(_) => assert Everything(prefix) in Imported(tree, prefix);
    case UsePath(_, _) =>
    case UseGroup(items) =>
      forall i | 0 <= i < |items|
        ensures AccountingImport(items[i], []) <==> LeavesOnly(items[i]) && OnlyRoles(items[i], prefix, prefix)
      {
        LeavesAreRoles(items[i], prefix);
      }
      if OnlyRoles(tree, prefix, prefix) {
        forall i | 0 <= i < |items| ensures OnlyRoles(items[i], prefix, prefix) {
          assert forall x :: x in Imported(items[i], prefix) ==> x in Imported(tree, prefix);
        }
      }
  }

  /** A path part is accepted exactly as the next name of the namespace. */
  lemma PartIsNext(part: Segment, below: UseTree, prefix: seq<string>, rest: seq<string>)
    requires PathsFirst(below) && OnlyRoles(below, prefix + [Name(part.text)], prefix + rest)
    ensures rest != [] && Name(part.text) == rest[0]
  {
    var inner := prefix + [Name(part.text)];
    ImportsExtend(below, inner);
    var x :| x in Imported(below, inner);
    assert x.path[..|inner|] == inner && IsRole(prefix + rest, x);
    assert rest != [] ==> x.path[|prefix|] == (prefix + rest)[|prefix|];
    assert x.path[|prefix|] == inner[|prefix|];
  }

  /** An import is accepted exactly if all its path parts come before any group, no group is empty, and it
      brings in nothing but registered names of the whole namespace. */
  lemma {:induction false} AccountingImportsAreRoles(tree: UseTree, prefix: seq<string>, rest: seq<string>)
    ensures AccountingImport(tree, rest) <==> PathsFirst(tree) && OnlyRoles(tree, prefix, prefix + rest)
    decreases tree
  {
    match tree
    case UsePath(part, below) =>
      if rest != [] && Name(part.text) == rest[0] {
        AccountingImportsAreRoles(below, prefix + [rest[0]], rest[1..]);
        assert prefix + [rest[0]] + rest[1..] == prefix + rest;
      } else if PathsFirst(tree) && OnlyRoles(tree, prefix, prefix + rest) {
        PartIsNext(part, below, prefix, rest);
      }
    case _ =>
      if rest == [] {
        assert prefix + rest == prefix;
        LeavesAreRoles(tree, prefix);
      } else if LeavesOnly(tree) {
        LeavesAreDirect(tree, prefix);
        var x :| x in Imported(tree, prefix);
        assert !IsRole(prefix + rest, x);
      }
  }

  /** An import that brings in one registered name of the namespace is refused when it opens its group
      before the namespace is complete. */
  lemma EarlyGroupIsRefused(line: nat)
    ensures exists tree ::
      && Imported(tree, []) == {Item(ACCOUNTING_NAMESPACE + ["QueryInformationJobObject"])}
      && IsRole(ACCOUNTING_NAMESPACE, Item(ACCOUNTING_NAMESPACE + ["QueryInformationJobObject"]))
      && !AccountingImport(tree, ACCOUNTING_NAMESPACE)
  {
    var leaf, jobs, system := "QueryInformationJobObject", "JobObjects", "System";
    var win32, sdk := "Win32", "windows_sys";
    PlainName(leaf);
    PlainName(jobs);
    PlainName(system);
    PlainName(win32);
    PlainName(sdk);
    var path := UsePath(Segment(win32, line), UsePath(Segment(system, line),
      UsePath(Segment(jobs, line), UseName(Segment(leaf, line)))));
    var tree := UsePath(Segment(sdk, line), UseGroup([path]));
    var role := Item(ACCOUNTING_NAMESPACE + [leaf]);
    GroupOfPath(sdk, win32, system, jobs, leaf, line);
    assert [sdk, win32, system, jobs] == ACCOUNTING_NAMESPACE;
    assert [sdk, win32, system, jobs, leaf] == role.path;
    assert role.path[..4] == ACCOUNTING_NAMESPACE;
    assert ACCOUNTING_NAMESPACE[1..] != [];
    assert !AccountingImport(tree.tree, ACCOUNTING_NAMESPACE[1..]);
  }

  lemma PlainName(text: string)
    requires text != "" && text[0] != 'r'
    ensures Name(text) == text
  {
    assert "r#"[0] == 'r';
  }

  lemma GroupOfPath(a: string, b: string, c: string, d: string, e: string, line: nat)
    requires Name(a) == a && Name(b) == b && Name(c) == c && Name(d) == d && Name(e) == e
    ensures var path := UsePath(Segment(b, line), UsePath(Segment(c, line),
        UsePath(Segment(d, line), UseName(Segment(e, line)))));
      Imported(UsePath(Segment(a, line), UseGroup([path])), []) == {Item([a, b, c, d, e])}
  {
    var three := UsePath(Segment(d, line), UseName(Segment(e, line)));
    var path := UsePath(Segment(b, line), UsePath(Segment(c, line), three));
    var group := UseGroup([path]);
    assert [] + [a] == [a] && [a] + [b] == [a, b] && [a, b] + [c] == [a, b, c];
    assert [a, b, c] + [d] + [e] == [a, b, c, d, e];
    assert Imported(three, [a, b, c]) == {Item([a, b, c, d, e])};
    assert Imported(path, [a]) == {Item([a, b, c, d, e])};
    assert group.items[0] == path;
    assert Imported(group, [a]) == {Item([a, b, c, d, e])};
  }

  predicate AccountingRole(segments: seq<Segment>) {
    && |segments| == 5
    && (forall i :: 0 <= i < 4 ==> Name(segments[i].text) == ACCOUNTING_NAMESPACE[i])
    && Name(segments[4].text) in ACCOUNTING_SYMBOLS
  }

  // ---------------------------------------------------------------- the rules of one node

  predicate IsSdkRoot(tree: UseTree) {
    (tree.UsePath? || tree.UseName? || tree.UseRename?) && Name(tree.part.text) == "windows_sys"
  }

  predicate HidesType(tree: UseTree) {
    tree.UseGlob? || (tree.UseRename? && Name(tree.rename) != "_")
  }

  predicate HidesImport(policy: Policy, tree: UseTree) {
    || HidesType(tree)
    || (tree.UseName? && var name := Name(tree.part.text);
      name != "io" && name != "self" && name != "" && policy.lowercase(name[0]))
  }

  function UseLine(tree: UseTree): nat {
    match tree
    case UseGlob(line) => line
    case UseGroup(_) => 0
    case _ => tree.part.line
  }

  function FoundIf(found: bool, line: nat, kind: Kind): seq<Finding> {
    if found then [Finding(line, kind)] else []
  }

  /** The findings at the root of an import tree. */
  function OwnImport(policy: Policy, raw: bool, tree: UseTree): seq<Finding> {
    FoundIf(policy.terminalLeaf && tree.UseRename? && IsSdkRoot(tree), UseLine(tree), TerminalAlias)
    + FoundIf(policy.accounting && IsSdkRoot(tree) && !AccountingImport(tree, ACCOUNTING_NAMESPACE), 0, AccountingPath)
    + FoundIf(policy.ci && tree.UseName? && Name(tree.part.text) == "command", UseLine(tree), CommandImport)
    + FoundIf(policy.capability && HidesType(tree), UseLine(tree), HiddenType)
    + FoundIf(raw && HidesImport(policy, tree), UseLine(tree), HiddenImport)
    + (if tree.UsePath? || tree.UseName? || tree.UseRename?
       then SdkFindings(policy, Name(tree.part.text), tree.part.line) else [])
  }

  function ImportFindings(policy: Policy, raw: bool, tree: UseTree): seq<Finding>
    decreases tree
  {
    OwnImport(policy, raw, tree)
    + match tree
      case UsePath(_, rest) => ImportFindings(policy, raw, rest)
      case UseGroup(items) => ItemFindings(policy, raw, items, |items|)
      case _ => []
  }

  function ItemFindings(policy: Policy, raw: bool, items: seq<UseTree>, end: nat): seq<Finding>
    requires end <= |items|
    decreases items, end
  {
    if end == 0 then []
    else ItemFindings(policy, raw, items, end - 1) + ImportFindings(policy, raw, items[end - 1])
  }

  function SegmentFindings(policy: Policy, segments: seq<Segment>): seq<Finding> {
    if segments == [] then [] else
    var last := segments[|segments| - 1];
    SegmentFindings(policy, segments[..|segments| - 1]) + SdkFindings(policy, Name(last.text), last.line)
  }

  function PathFindings(policy: Policy, context: Context, segments: seq<Segment>): seq<Finding> {
    if segments == [] then [] else
    var n := |segments| - 1;
    var last := segments[n];
    var sdk := exists i :: 0 <= i <= n && Name(segments[i].text) == "windows_sys";
    var accounting := FoundIf(policy.accounting && sdk && !AccountingRole(segments), segments[0].line, AccountingPath);
    var command := n > 0 && Name(segments[n - 1].text) == "raw" && Name(last.text) == "command";
    var constructed := n > 0 && Name(segments[n - 1].text) == "Command" && Name(last.text) == "new";
    var created :=
      if command then CommandFindings(policy, context, last.line)
      else if constructed then ConstructorFindings(policy, last.line)
      else [];
    accounting + created + SegmentFindings(policy, segments)
  }

  function ExpressionFindings(policy: Policy, context: Context, segments: seq<Segment>, commandType: bool)
    : seq<Finding>
  {
    if segments == [] then [] else
    var last := segments[|segments| - 1];
    var operation := if |segments| > 1 || last.text == "wait_within"
      then OperationFindings(policy, context.raw, Name(last.text), last.line) else [];
    var construction := if commandType && Name(last.text) == "new"
      then ConstructorFindings(policy, last.line) else [];
    operation + construction
  }

  /** The findings of a node itself. */
  function Own(policy: Policy, context: Context, node: Node): seq<Finding> {
    match node
    case Module(part, _) => FoundIf(Name(part.text) == "raw" && !policy.rawOwner, part.line, RawOwner)
    case MethodCall(part, _) => OperationFindings(policy, context.raw, Name(part.text), part.line)
    case PathExpression(segments, commandType, _) => ExpressionFindings(policy, context, segments, commandType)
    case Path(segments, _) => PathFindings(policy, context, segments)
    case UseItem(line, tree, _) =>
      var accepted := AccountingImport(tree, ACCOUNTING_NAMESPACE);
      FoundIf(policy.accounting && NamesSdk(tree) && !accepted, line, AccountingImports)
    case Imports(tree, _) => ImportFindings(policy, context.raw, tree)
    case ExternCrate(part, _) =>
      FoundIf(policy.accounting && Name(part.text) == "windows_sys", part.line, AccountingCrate)
    case Macro(tokens, _) => TokenFindings(policy, context, tokens)
    case Declaration(own, _) => own
    case _ => []
  }

  /** Whether a function may create commands: the private `command` outside of modules and functions, and
      the policy's own test. */
  predicate OwnsCommand(policy: Policy, context: Context, node: Node)
    requires node.Function?
  {
    && policy.ci
    && var name := Name(node.part.text);
      || (!context.inModule && !context.inFunction && name == "command" && node.inherited)
      || (name == POLICY_TEST && node.test)
  }

  // ---------------------------------------------------------------- the context of a node

  /** The context outside of everything. */
  const OUTSIDE := Context(false, false, false, false)

  datatype Rules = Rules(own: (Context, Node) -> seq<Finding>, ownsCommand: (Context, Node) -> bool)

  function RulesOf(policy: Policy): Rules {
    Rules(
      (context, node) => Own(policy, context, node),
      (context, node: Node) => node.Function? && OwnsCommand(policy, context, node))
  }

  /** These rules are the rules of this policy. */
  ghost predicate Enforces(policy: Policy, rules: Rules) {
    forall context, node {:trigger Own(policy, context, node)} :: rules.own(context, node) == Own(policy, context, node)
  }

  /** The context of a node's children. */
  function Enter(rules: Rules, context: Context, node: Node): Context {
    match node
    case Module(part, _) => context.(inModule := true, raw := context.raw || Name(part.text) == "raw")
    case Function(_, _, _, _) => context.(inFunction := true, commandOwner := rules.ownsCommand(context, node))
    case Callable(_) => context.(inFunction := true, commandOwner := false)
    case _ => context
  }

  function NodeFindings(rules: Rules, context: Context, node: Node): seq<Finding>
    decreases node, 1
  {
    rules.own(context, node) + AllFindings(rules, Enter(rules, context, node), node.children, |node.children|)
  }

  function AllFindings(rules: Rules, context: Context, nodes: seq<Node>, end: nat): seq<Finding>
    requires end <= |nodes|
    decreases nodes, 0, end
  {
    if end == 0 then []
    else AllFindings(rules, context, nodes, end - 1) + NodeFindings(rules, context, nodes[end - 1])
  }

  /** No more than `room` nodes lie below each other. */
  predicate Shallow(nodes: seq<Node>, room: nat)
    decreases nodes
  {
    forall i :: 0 <= i < |nodes| ==> room > 0 && Shallow(nodes[i].children, room - 1)
  }
}
