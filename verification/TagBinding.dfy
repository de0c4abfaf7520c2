/** How a version tag is bound to the source of a run, `tag_binding` of `xtask/src/release_orchestration.rs`:
  annotated tags are peeled, at most four objects deep.
  */
module TagBinding {

  import opened Wrappers

  const OBJECTS := 4

  datatype GitObject = Commit(sha: string) | Annotated(sha: string) | Unknown

  datatype Refusal = OtherCommit | BadHash | Missing | NoCommit | TooDeep

  /** The objects behind annotated tags, as the service answers for each hash. */
  type Tags = map<string, GitObject>

  predicate IsHexDigit(c: char) {
    '0' <= c <= '9' || 'a' <= c <= 'f' || 'A' <= c <= 'F'
  }

  predicate IsHash(sha: string) {
    |sha| == 40 && forall i :: 0 <= i < |sha| ==> IsHexDigit(sha[i])
  }

  /** The objects on the way from a tag, each the one behind the annotated tag before it. */
  predicate IsChain(tags: Tags, chain: seq<GitObject>) {
    && chain != []
    && forall i :: 0 <= i < |chain| - 1 ==>
      && chain[i].Annotated? && IsHash(chain[i].sha)
      && chain[i].sha in tags && chain[i + 1] == tags[chain[i].sha]
  }

  ghost predicate Binds(tags: Tags, first: GitObject, commit: string, chain: seq<GitObject>) {
    IsChain(tags, chain) && |chain| <= OBJECTS && chain[0] == first && chain[|chain| - 1] == Commit(commit)
  }

  lemma {:induction false} ChainsAgree(tags: Tags, a: seq<GitObject>, b: seq<GitObject>, i: nat)
    requires IsChain(tags, a) && IsChain(tags, b) && a[0] == b[0] && i < |a| && i < |b|
    ensures a[i] == b[i]
  {
    if i > 0 {
      ChainsAgree(tags, a, b, i - 1);
    }
  }

  /** A chain that stops elsewhere, or reaches the bound, leaves no other way to the commit. */
  lemma NotBound(tags: Tags, commit: string, chain: seq<GitObject>)
    requires IsChain(tags, chain) && |chain| <= OBJECTS
    requires
      var last := chain[|chain| - 1];
      last != Commit(commit) && (last.Annotated? ==> !IsHash(last.sha) || last.sha !in tags || |chain| == OBJECTS)
    ensures forall other :: !Binds(tags, chain[0], commit, other)
  {
    var n := |chain| - 1;
    forall other | Binds(tags, chain[0], commit, other) ensures false {
      if n < |other| {
        ChainsAgree(tags, chain, other, n);
      } else {
        ChainsAgree(tags, chain, other, |other| - 1);
      }
      assert false;
    }
  }

  /** The tag is bound exactly if peeling reaches this commit within the bound. */
  method Peel(tags: Tags, first: GitObject, commit: string) returns (r: Option<Refusal>)
    ensures r.None? <==> exists chain :: Binds(tags, first, commit, chain)
  {
    var current := first;
    ghost var chain := [first];
    for i := 0 to OBJECTS
      invariant IsChain(tags, chain) && chain[0] == first
      invariant if i < OBJECTS then |chain| == i + 1 && chain[i] == current
        else forall other :: !Binds(tags, first, commit, other)
    {
      match current {
        case Commit(sha) =>
          if sha != commit {
            NotBound(tags, commit, chain);
            return Some(OtherCommit);
          }
          assert Binds(tags, first, commit, chain);
          return None;
        case Annotated(hash) =>
          if !IsHash(hash) {
            NotBound(tags, commit, chain);
            return Some(BadHash);
          }
          if hash !in tags {
            NotBound(tags, commit, chain);
            return Some(Missing);
          }
          if i == OBJECTS - 1 {
            NotBound(tags, commit, chain);
          }
          current := tags[hash];
          if i < OBJECTS - 1 {
            chain := chain + [current];
          }
        case Unknown =>
          NotBound(tags, commit, chain);
          return Some(NoCommit);
      }
    }
    return Some(TooDeep);
  }
}
