/** The syntax visitor of the ownership policy of `xtask/src/ownership.rs`. It saves and restores its
  context in fields; a recursion that passes the context down finds the same.
  */
module Ownership {

  import opened Wrappers
  import opened OwnershipTokens
  import opened OwnershipTree

  const USIZE_MAX := 0xffff_ffff_ffff_ffff

  function SaturatingNext(n: nat): nat {
    if n < USIZE_MAX then n + 1 else USIZE_MAX
  }

  function SaturatingPrevious(n: nat): nat {
    if n == 0 then 0 else n - 1
  }

  lemma Joined(f: seq<Finding>, a: seq<Finding>, b: seq<Finding>, c: seq<Finding>, d: seq<Finding>, e: seq<Finding>)
    ensures f + a + b + c + d + e == f + (a + b + c + d + e)
  {
  }

  lemma OwnModule(policy: Policy, rules: Rules, context: Context, node: Node)
    requires Enforces(policy, rules) && node.Module?
    ensures rules.own(context, node)
      == if Name(node.part.text) == "raw" && !policy.rawOwner then [Finding(node.part.line, RawOwner)] else []
  {
    assert rules.own(context, node) == Own(policy, context, node);
  }

  lemma OwnMacro(policy: Policy, rules: Rules, context: Context, node: Node)
    requires Enforces(policy, rules) && node.Macro?
    ensures rules.own(context, node) == TokenFindings(policy, context, node.tokens)
  {
    assert rules.own(context, node) == Own(policy, context, node);
  }

  lemma OwnCallable(policy: Policy, rules: Rules, context: Context, node: Node)
    requires Enforces(policy, rules) && (node.Function? || node.Callable?)
    ensures rules.own(context, node) == []
  {
    assert rules.own(context, node) == Own(policy, context, node);
  }

  /** `before` grows by `at`, token by token. */
  ghost predicate Joins(tokens: seq<Token>, before: nat -> seq<Finding>, at: nat -> seq<Finding>) {
    before(0) == [] && forall i: nat :: i < |tokens| ==> JoinsAt(before, at, i)
  }

  /** `at` stands for `FindingsAt`; proofs use it without unfolding `FindingsAt`. */
  ghost predicate IsFindingsAt(policy: Policy, context: Context, tokens: seq<Token>, at: nat -> seq<Finding>) {
    forall i: nat {:trigger FindingsAt(policy, context, tokens, i)} ::
      i < |tokens| ==> at(i) == FindingsAt(policy, context, tokens, i)
  }

  lemma BeforeNext(policy: Policy, context: Context, tokens: seq<Token>, i: nat)
    requires i < |tokens|
    ensures FindingsBefore(policy, context, tokens, i + 1)
      == FindingsBefore(policy, context, tokens, i) + FindingsAt(policy, context, tokens, i)
  {
  }

  function BeforeOf(policy: Policy, context: Context, tokens: seq<Token>): nat -> seq<Finding> {
    (i: nat) => if i <= |tokens| then FindingsBefore(policy, context, tokens, i) else []
  }

  function AtOf(policy: Policy, context: Context, tokens: seq<Token>): nat -> seq<Finding> {
    (i: nat) => if i < |tokens| then FindingsAt(policy, context, tokens, i) else []
  }

  ghost predicate JoinsAt(before: nat -> seq<Finding>, at: nat -> seq<Finding>, i: nat) {
    before(i + 1) == before(i) + at(i)
  }

  lemma FindingsJoinAt(policy: Policy, context: Context, tokens: seq<Token>, i: nat)
    requires i < |tokens|
    ensures JoinsAt(BeforeOf(policy, context, tokens), AtOf(policy, context, tokens), i)
  {
    BeforeNext(policy, context, tokens, i);
  }

  lemma NothingBefore(policy: Policy, context: Context, tokens: seq<Token>)
    ensures BeforeOf(policy, context, tokens)(0) == []
  {
  }

  lemma FindingsJoin(policy: Policy, context: Context, tokens: seq<Token>)
    ensures Joins(tokens, BeforeOf(policy, context, tokens), AtOf(policy, context, tokens))
  {
    NothingBefore(policy, context, tokens);
    forall i: nat | i < |tokens| ensures JoinsAt(BeforeOf(policy, context, tokens), AtOf(policy, context, tokens), i) {
      FindingsJoinAt(policy, context, tokens, i);
    }
  }

  lemma FindingFunctions(policy: Policy, context: Context, tokens: seq<Token>)
    returns (before: nat -> seq<Finding>, at: nat -> seq<Finding>)
    ensures Joins(tokens, before, at) && IsFindingsAt(policy, context, tokens, at)
    ensures before(|tokens|) == TokenFindings(policy, context, tokens)
  {
    before, at := BeforeOf(policy, context, tokens), AtOf(policy, context, tokens);
    FindingsJoin(policy, context, tokens);
  }

  class Visitor {
    const policy: Policy
    const rules: Rules
    var raw: bool
    var moduleDepth: nat
    var functionDepth: nat
    var ciCommandOwner: bool
    var findings: seq<Finding>

    constructor (owner: string, lowercase: char -> bool)
      ensures policy == PolicyOf(owner, lowercase) && rules == RulesOf(policy)
      ensures findings == [] && moduleDepth == functionDepth == 0
      ensures Here() == OUTSIDE
    {
      policy, rules := PolicyOf(owner, lowercase), RulesOf(PolicyOf(owner, lowercase));
      raw, moduleDepth, functionDepth, ciCommandOwner, findings := false, 0, 0, false, [];
    }

    function Here(): Context
      reads this
    {
      Context(raw, moduleDepth != 0, functionDepth != 0, ciCommandOwner)
    }

    /** Reads one identifier, with the flags that the tokens before it left. */
    method ReadIdent(text: string, line: nat, previous: bool, rawPath: bool, constructorPath: bool)
      modifies this`findings
      ensures findings == old(findings)
        + IdentFindings(policy, Here(), text, line, previous, rawPath, constructorPath)
    {
      var name := Name(text);
      var accounting := AccountingFindings(policy, name, line);
      var command := if rawPath && name == "command" then CommandFindings(policy, Here(), line) else [];
      var constructed := if constructorPath && name == "new" then ConstructorFindings(policy, line) else [];
      var sdk := SdkFindings(policy, name, line);
      var operation := if previous then OperationFindings(policy, raw, name, line) else [];
      Joined(findings, accounting, command, constructed, sdk, operation);
      findings := findings + accounting;
      findings := findings + command;
      findings := findings + constructed;
      findings := findings + sdk;
      findings := findings + operation;
    }

    /** Reads the token at `i` and moves the three flags past it. */
    method ReadToken(tokens: seq<Token>, i: nat, previous: bool, rawPath: bool, constructorPath: bool)
      returns (previous': bool, rawPath': bool, constructorPath': bool)
      requires i < |tokens| && previous == Accessed(tokens, i)
      requires rawPath == Follows(tokens, i, "raw") && constructorPath == Follows(tokens, i, "Command")
      modifies this`findings
      ensures previous' == Accessed(tokens, i + 1)
      ensures rawPath' == Follows(tokens, i + 1, "raw") && constructorPath' == Follows(tokens, i + 1, "Command")
      ensures findings == old(findings) + FindingsAt(policy, Here(), tokens, i)
      decreases tokens, 0
    {
      FollowsNext(tokens, i, "raw");
      FollowsNext(tokens, i, "Command");
      match tokens[i] {
        case Ident(text, line) =>
          ReadIdent(text, line, previous, rawPath, constructorPath);
          previous', rawPath', constructorPath' := false, Name(text) == "raw", Name(text) == "Command";
        case Punct(c) =>
          previous' := c == '.' || c == ':';
          rawPath', constructorPath' := rawPath && c == ':', constructorPath && c == ':';
        case Group(inner) =>
          Tokens(inner);
          previous', rawPath', constructorPath' := false, false, false;
        case Literal =>
          previous', rawPath', constructorPath' := false, false, false;
      }
    }

    /** The automaton over the tokens of a macro finds what the patterns describe, at every depth. */
    method Tokens(tokens: seq<Token>)
      modifies this`findings
      ensures findings == old(findings) + TokenFindings(policy, Here(), tokens)
      decreases tokens, 2
    {
      ghost var before, at := FindingFunctions(policy, Here(), tokens);
      ReadTokens(tokens, before, at);
    }

    method ReadTokens(tokens: seq<Token>, ghost before: nat -> seq<Finding>, ghost at: nat -> seq<Finding>)
      requires Joins(tokens, before, at) && IsFindingsAt(policy, Here(), tokens, at)
      modifies this`findings
      ensures findings == old(findings) + before(|tokens|)
      decreases tokens, 1
    {
      var previous, rawPath, constructorPath := false, false, false;
      for i := 0 to |tokens|
        invariant previous == Accessed(tokens, i)
        invariant rawPath == Follows(tokens, i, "raw") && constructorPath == Follows(tokens, i, "Command")
        invariant findings == old(findings) + before(i)
      {
        ghost var found := findings;
        previous, rawPath, constructorPath := ReadToken(tokens, i, previous, rawPath, constructorPath);
        assert findings == found + at(i);
        assert JoinsAt(before, at, i);
      }
    }

    function Fields(): (bool, nat, nat, bool)
      reads this
    {
      (raw, moduleDepth, functionDepth, ciCommandOwner)
    }

    /** The depth counters do not saturate within this many further levels. */
    predicate Roomy(room: nat)
      reads this
    {
      moduleDepth + room <= USIZE_MAX && functionDepth + room <= USIZE_MAX
    }

    /** Opens a module: one named `raw` makes the context raw, and is a finding unless the file owns it. */
    method EnterModule(node: Node)
      requires node.Module? && moduleDepth < USIZE_MAX && Enforces(policy, rules)
      modifies this`raw, this`moduleDepth, this`findings
      ensures findings == old(findings) + rules.own(old(Here()), node)
      ensures moduleDepth == old(moduleDepth) + 1 && Here() == Enter(rules, old(Here()), node)
    {
      OwnModule(policy, rules, Here(), node);
      moduleDepth := SaturatingNext(moduleDepth);
      if Name(node.part.text) == "raw" {
        if !policy.rawOwner {
          findings := findings + [Finding(node.part.line, RawOwner)];
        }
        raw := true;
      }
    }

    method VisitModule(node: Node, ghost room: nat)
      requires node.Module? && room > 0 && Shallow(node.children, room - 1) && Roomy(room)
      requires Enforces(policy, rules)
      modifies this
      ensures Fields() == old(Fields())
      ensures findings == old(findings) + NodeFindings(rules, old(Here()), node)
      decreases node, 1
    {
      var saved := raw;
      EnterModule(node);
      VisitAll(node.children, room - 1);
      raw := saved;
      moduleDepth := SaturatingPrevious(moduleDepth);
    }

    method VisitFunction(node: Node, ghost room: nat)
      requires node.Function? && room > 0 && Shallow(node.children, room - 1) && Roomy(room)
      requires Enforces(policy, rules)
      modifies this
      ensures Fields() == old(Fields())
      ensures findings == old(findings) + NodeFindings(rules, old(Here()), node)
      decreases node, 1
    {
      OwnCallable(policy, rules, Here(), node);
      var previous := ciCommandOwner;
      ciCommandOwner := rules.ownsCommand(Here(), node);
      functionDepth := SaturatingNext(functionDepth);
      VisitAll(node.children, room - 1);
      functionDepth := SaturatingPrevious(functionDepth);
      ciCommandOwner := previous;
    }

    /** A function of an `impl` or a trait: nothing below it may create commands. */
    method NestedCallable(node: Node, ghost room: nat)
      requires node.Callable? && room > 0 && Shallow(node.children, room - 1) && Roomy(room)
      requires Enforces(policy, rules)
      modifies this
      ensures Fields() == old(Fields())
      ensures findings == old(findings) + NodeFindings(rules, old(Here()), node)
      decreases node, 1
    {
      OwnCallable(policy, rules, Here(), node);
      var previous := ciCommandOwner;
      ciCommandOwner := false;
      functionDepth := SaturatingNext(functionDepth);
      VisitAll(node.children, room - 1);
      functionDepth := SaturatingPrevious(functionDepth);
      ciCommandOwner := previous;
    }

    /** Any other node has findings of its own and leaves the context to its children. */
    method VisitPlain(node: Node, ghost room: nat)
      requires !node.Module? && !node.Function? && !node.Callable?
      requires room > 0 && Shallow(node.children, room - 1) && Roomy(room)
      requires Enforces(policy, rules)
      modifies this
      ensures Fields() == old(Fields())
      ensures findings == old(findings) + NodeFindings(rules, old(Here()), node)
      decreases node, 1
    {
      if node.Macro? {
        OwnMacro(policy, rules, Here(), node);
        Tokens(node.tokens);
      } else {
        findings := findings + rules.own(Here(), node);
      }
      VisitAll(node.children, room - 1);
    }

    method Visit(node: Node, ghost room: nat)
      requires room > 0 && Shallow(node.children, room - 1) && Roomy(room)
      requires Enforces(policy, rules)
      modifies this
      ensures Fields() == old(Fields())
      ensures findings == old(findings) + NodeFindings(rules, old(Here()), node)
      decreases node, 2
    {
      match node
      case Module(_, _) => VisitModule(node, room);
      case Function(_, _, _, _) => VisitFunction(node, room);
      case Callable(_) => NestedCallable(node, room);
      case _ => VisitPlain(node, room);
    }

    /** Visits nodes in order. What it finds is what a recursion finds that hands every node the context of
        its ancestors, and the saved fields are as before. */
    method VisitAll(nodes: seq<Node>, ghost room: nat)
      requires Shallow(nodes, room) && Roomy(room)
      requires Enforces(policy, rules)
      modifies this
      ensures Fields() == old(Fields())
      ensures findings == old(findings) + AllFindings(rules, old(Here()), nodes, |nodes|)
      decreases nodes, 0
    {
      for i := 0 to |nodes|
        invariant Fields() == old(Fields())
        invariant findings == old(findings) + AllFindings(rules, old(Here()), nodes, i)
      {
        Visit(nodes[i], room);
      }
    }
  }

  /** Checks one file. The nesting of a file fits the machine's counters. */
  method Check(owner: string, lowercase: char -> bool, file: seq<Node>) returns (findings: seq<Finding>)
    requires Shallow(file, USIZE_MAX)
    ensures findings == AllFindings(RulesOf(PolicyOf(owner, lowercase)), OUTSIDE, file, |file|)
  {
    var policy := new Visitor(owner, lowercase);
    policy.VisitAll(file, USIZE_MAX);
    return policy.findings;
  }
}
