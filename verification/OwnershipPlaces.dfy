/** Where the ownership policy of `xtask/src/ownership.rs` finds something: every finding belongs to one
  place in the tree, and depends only on the node there and on what encloses it.
  */
module OwnershipPlaces {

  import opened OwnershipTokens
  import opened OwnershipTree

  /** A way down a tree: a node, one of its children, and so on. */
  predicate IsPlace(nodes: seq<Node>, way: seq<Node>)
    decreases way
  {
    way != [] && way[0] in nodes && (|way| > 1 ==> IsPlace(way[0].children, way[1..]))
  }

  /** The context below these ancestors, the outermost first. */
  function ContextOf(rules: Rules, start: Context, ancestors: seq<Node>): Context {
    if ancestors == [] then start
    else Enter(rules, ContextOf(rules, start, ancestors[..|ancestors| - 1]), ancestors[|ancestors| - 1])
  }

  /** The last node of the way has this finding where it stands. */
  predicate FoundAt(rules: Rules, start: Context, way: seq<Node>, f: Finding) {
    way != [] && f in rules.own(ContextOf(rules, start, way[..|way| - 1]), way[|way| - 1])
  }

  lemma {:induction false} ContextCons(rules: Rules, start: Context, outer: Node, ancestors: seq<Node>)
    ensures ContextOf(rules, start, [outer] + ancestors) == ContextOf(rules, Enter(rules, start, outer), ancestors)
    decreases |ancestors|
  {
    var all := [outer] + ancestors;
    if ancestors == [] {
      assert all[..0] == [];
    } else {
      assert all[..|all| - 1] == [outer] + ancestors[..|ancestors| - 1];
      ContextCons(rules, start, outer, ancestors[..|ancestors| - 1]);
    }
  }

  lemma FoundBelow(rules: Rules, start: Context, outer: Node, way: seq<Node>, f: Finding)
    requires way != []
    ensures FoundAt(rules, start, [outer] + way, f) <==> FoundAt(rules, Enter(rules, start, outer), way, f)
  {
    var all := [outer] + way;
    assert all[..|all| - 1] == [outer] + way[..|way| - 1];
    ContextCons(rules, start, outer, way[..|way| - 1]);
  }

  lemma {:induction false} FoundHasPlace(rules: Rules, start: Context, nodes: seq<Node>, end: nat, f: Finding)
    returns (way: seq<Node>)
    requires end <= |nodes| && f in AllFindings(rules, start, nodes, end)
    ensures IsPlace(nodes, way) && FoundAt(rules, start, way, f)
    decreases nodes, end
  {
    var node := nodes[end - 1];
    if f in AllFindings(rules, start, nodes, end - 1) {
      way := FoundHasPlace(rules, start, nodes, end - 1, f);
    } else if f in rules.own(start, node) {
      way := [node];
      assert way[..0] == [];
    } else {
      var below := Enter(rules, start, node);
      var rest := FoundHasPlace(rules, below, node.children, |node.children|, f);
      way := [node] + rest;
      FoundBelow(rules, start, node, rest, f);
      assert way[1..] == rest;
    }
  }

  lemma {:induction false} AllOfNode(rules: Rules, start: Context, nodes: seq<Node>, end: nat, i: nat, f: Finding)
    requires i < end <= |nodes| && f in NodeFindings(rules, start, nodes[i])
    ensures f in AllFindings(rules, start, nodes, end)
    decreases end
  {
    if i < end - 1 {
      AllOfNode(rules, start, nodes, end - 1, i, f);
    }
  }

  lemma {:induction false} PlaceIsFound(rules: Rules, start: Context, nodes: seq<Node>, way: seq<Node>, f: Finding)
    requires IsPlace(nodes, way) && FoundAt(rules, start, way, f)
    ensures f in AllFindings(rules, start, nodes, |nodes|)
    decreases |way|
  {
    var node := way[0];
    if |way| == 1 {
      assert way[..0] == [];
      assert f in NodeFindings(rules, start, node);
    } else {
      assert way == [node] + way[1..];
      FoundBelow(rules, start, node, way[1..], f);
      PlaceIsFound(rules, Enter(rules, start, node), node.children, way[1..], f);
    }
    var i :| 0 <= i < |nodes| && nodes[i] == node;
    AllOfNode(rules, start, nodes, |nodes|, i, f);
  }

  /** A file has a finding exactly where some node has it in the context of its own ancestors. */
  lemma FoundExactlyAtPlaces(rules: Rules, nodes: seq<Node>, f: Finding)
    ensures f in AllFindings(rules, OUTSIDE, nodes, |nodes|)
      <==> exists way :: IsPlace(nodes, way) && FoundAt(rules, OUTSIDE, way, f)
  {
    if f in AllFindings(rules, OUTSIDE, nodes, |nodes|) {
      var way := FoundHasPlace(rules, OUTSIDE, nodes, |nodes|, f);
    }
    if way :| IsPlace(nodes, way) && FoundAt(rules, OUTSIDE, way, f) {
      PlaceIsFound(rules, OUTSIDE, nodes, way, f);
    }
  }

  // ---------------------------------------------------------------- what encloses a node

  predicate IsRawModule(node: Node) {
    node.Module? && Name(node.part.text) == "raw"
  }

  predicate IsCallable(node: Node) {
    node.Function? || node.Callable?
  }

  predicate Innermost(ancestors: seq<Node>, i: nat) {
    i < |ancestors| && IsCallable(ancestors[i]) && forall j :: i < j < |ancestors| ==> !IsCallable(ancestors[j])
  }

  /** The flags of a context say what encloses the node. */
  predicate Describes(context: Context, ancestors: seq<Node>) {
    && (context.raw <==> exists i :: 0 <= i < |ancestors| && IsRawModule(ancestors[i]))
    && (context.inModule <==> exists i :: 0 <= i < |ancestors| && ancestors[i].Module?)
    && (context.inFunction <==> exists i :: 0 <= i < |ancestors| && IsCallable(ancestors[i]))
  }

  lemma DescribesNext(context: Context, ancestors: seq<Node>, node: Node)
    requires Describes(context, ancestors)
    ensures Describes(
      context.(raw := context.raw || IsRawModule(node), inModule := context.inModule || node.Module?,
        inFunction := context.inFunction || IsCallable(node)),
      ancestors + [node])
  {
    var all := ancestors + [node];
    assert all[|ancestors|] == node && forall i :: 0 <= i < |ancestors| ==> all[i] == ancestors[i];
  }

  lemma EnterDescribes(rules: Rules, context: Context, ancestors: seq<Node>, node: Node)
    requires Describes(context, ancestors)
    ensures Describes(Enter(rules, context, node), ancestors + [node])
  {
    DescribesNext(context, ancestors, node);
    FlagsDescribe(
      context.(raw := context.raw || IsRawModule(node), inModule := context.inModule || node.Module?,
        inFunction := context.inFunction || IsCallable(node)),
      Enter(rules, context, node), ancestors + [node]);
  }

  /** What a context describes does not depend on who may create commands. */
  lemma FlagsDescribe(a: Context, b: Context, ancestors: seq<Node>)
    requires Describes(a, ancestors) && a.raw == b.raw && a.inModule == b.inModule && a.inFunction == b.inFunction
    ensures Describes(b, ancestors)
  {
  }

  lemma {:induction false} ContextDescribes(rules: Rules, ancestors: seq<Node>)
    ensures Describes(ContextOf(rules, OUTSIDE, ancestors), ancestors)
  {
    if ancestors != [] {
      var front, last := ancestors[..|ancestors| - 1], ancestors[|ancestors| - 1];
      ContextDescribes(rules, front);
      assert ancestors == front + [last];
      EnterDescribes(rules, ContextOf(rules, OUTSIDE, front), front, last);
    }
  }

  /** The function at `i` is the one that may create commands: the private `command` that nothing else
      encloses but plain nodes, or the policy's own test. */
  predicate IsCommandOwner(ancestors: seq<Node>, i: nat)
    requires i < |ancestors|
  {
    && ancestors[i].Function?
    && var name := Name(ancestors[i].part.text);
      || (name == POLICY_TEST && ancestors[i].test)
      || (name == "command" && ancestors[i].inherited
          && forall j :: 0 <= j < i ==> !ancestors[j].Module? && !IsCallable(ancestors[j]))
  }

  ghost predicate OwnedByCommand(ancestors: seq<Node>) {
    exists i: nat :: Innermost(ancestors, i) && IsCommandOwner(ancestors, i)
  }

  lemma OwnerHere(policy: Policy, context: Context, ancestors: seq<Node>, node: Node)
    requires policy.ci && Describes(context, ancestors) && node.Function?
    ensures OwnsCommand(policy, context, node) <==> IsCommandOwner(ancestors + [node], |ancestors|)
  {
    var all := ancestors + [node];
    assert all[|ancestors|] == node && forall i :: 0 <= i < |ancestors| ==> all[i] == ancestors[i];
  }

  lemma OwnerKept(ancestors: seq<Node>, node: Node)
    requires !IsCallable(node)
    ensures OwnedByCommand(ancestors + [node]) <==> OwnedByCommand(ancestors)
  {
    var all := ancestors + [node];
    assert forall i :: 0 <= i < |ancestors| ==> all[i] == ancestors[i];
    if OwnedByCommand(all) {
      var i: nat :| Innermost(all, i) && IsCommandOwner(all, i);
      assert Innermost(ancestors, i) && IsCommandOwner(ancestors, i);
    }
    if OwnedByCommand(ancestors) {
      var i: nat :| Innermost(ancestors, i) && IsCommandOwner(ancestors, i);
      assert Innermost(all, i) && IsCommandOwner(all, i);
    }
  }

  lemma OwnerReplaced(ancestors: seq<Node>, node: Node)
    requires IsCallable(node)
    ensures OwnedByCommand(ancestors + [node]) <==> IsCommandOwner(ancestors + [node], |ancestors|)
  {
    var all := ancestors + [node];
    assert Innermost(all, |ancestors|);
    if OwnedByCommand(all) {
      var i: nat :| Innermost(all, i) && IsCommandOwner(all, i);
      assert i == |ancestors|;
    }
  }

  /** In the file of the command factory, a node may create commands exactly if the innermost function
      around it is the factory itself or its test. */
  lemma {:induction false} CommandsBelongToTheFactory(policy: Policy, ancestors: seq<Node>)
    requires policy.ci
    ensures ContextOf(RulesOf(policy), OUTSIDE, ancestors).commandOwner <==> OwnedByCommand(ancestors)
  {
    if ancestors != [] {
      var front, last := ancestors[..|ancestors| - 1], ancestors[|ancestors| - 1];
      assert ancestors == front + [last];
      var context := ContextOf(RulesOf(policy), OUTSIDE, front);
      CommandsBelongToTheFactory(policy, front);
      ContextDescribes(RulesOf(policy), front);
      if IsCallable(last) {
        OwnerReplaced(front, last);
        if last.Function? {
          OwnerHere(policy, context, front, last);
        }
      } else {
        OwnerKept(front, last);
      }
    }
  }
}
