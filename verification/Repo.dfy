/** The repository handle (pkg/repo): staging, commit, merge and revert. */
module Repo {
  import opened Objects
  import opened MemStore
  import opened TreeOps
  import opened Canonical
  import opened Ancestry
  import opened Names
  import opened Refs
  import opened Staging
  import TreeReads
  import History
  import TreeMerge
  import Zone

  // ---------- what a well-kept repository holds ----------

  /** The tree of a commit, with "no tree" for a missing one. */
  function TreeOf(objs: Objs, h: Hash): Hash {
    if h.Zero? then Zero
    else if h !in objs then Zero
    else match objs[h]
      case Commit(tree, _, meta) => if meta.legible then tree else Zero
      case _ => Zero
  }

  function CommitTree(h: Hash): Hash {
    if h.H? && h.obj.Commit? then h.obj.tree else Zero
  }

  ghost predicate GoodTree(objs: Objs, t: Hash) {
    CanonRoot(t) && RootIn(objs, t)
  }

  /** Every commit reachable from `h` is stored, with a canonical and fully
      stored tree. */
  ghost predicate WellStored(objs: Objs, h: Hash) {
    HistoryIn(objs, h) && forall x :: x in Ancs(h) ==> GoodTree(objs, CommitTree(x))
  }

  ghost predicate TipsWellStored(objs: Objs, refs: map<string, Hash>) {
    forall name :: name in refs && HasPrefix(name, BRANCH_PREFIX) ==> WellStored(objs, refs[name])
  }

  ghost predicate RepoInv(objs: Objs, refs: map<string, Hash>) {
    ContentAddressed(objs) && TipsWellStored(objs, refs)
  }

  lemma WellStoredKept(a: Objs, b: Objs, h: Hash)
    requires Grows(a, b) && WellStored(a, h)
    ensures WellStored(b, h)
  {
    forall x | x in Ancs(h) ensures GoodTree(b, CommitTree(x)) && Holds(b, x) {
      assert Holds(a, x);
      assert GoodTree(a, CommitTree(x));
      RootKept(a, b, CommitTree(x));
    }
  }

  lemma GrowthKeepsInv(a: Objs, b: Objs, refs: map<string, Hash>)
    requires Grows(a, b) && RepoInv(a, refs)
    ensures RepoInv(b, refs)
  {
    forall name | name in refs && HasPrefix(name, BRANCH_PREFIX) ensures WellStored(b, refs[name]) {
      WellStoredKept(a, b, refs[name]);
    }
  }

  /** A new commit over well-stored parents and a good tree is well stored. */
  lemma NewCommitWellStored(objs: Objs, c: Hash)
    requires Holds(objs, c) && IsCommit(c.obj) && GoodTree(objs, c.obj.tree)
    requires forall i :: 0 <= i < |c.obj.parents| ==> WellStored(objs, c.obj.parents[i])
    ensures WellStored(objs, c)
  {
    forall x | x in Ancs(c) ensures Holds(objs, x) && IsCommit(x.obj) && GoodTree(objs, CommitTree(x)) {
      if x != c {
        var i :| 0 <= i < |Parents(c)| && x in Ancs(Parents(c)[i]);
        assert WellStored(objs, c.obj.parents[i]);
      }
    }
  }

  lemma TipMoved(objs: Objs, refs: map<string, Hash>, name: string, c: Hash)
    requires RepoInv(objs, refs) && WellStored(objs, c)
    ensures RepoInv(objs, refs[name := c])
  {
  }

  /** The tip a branch ref names, zero when there is none. */
  lemma TipWellStored(objs: Objs, refs: map<string, Hash>, name: string)
    requires RepoInv(objs, refs) && HasPrefix(name, BRANCH_PREFIX)
    ensures GetRefOf(refs, name).H? ==> WellStored(objs, GetRefOf(refs, name))
    ensures GetRefOf(refs, name).H? ==> GetRefOf(refs, name) in Ancs(GetRefOf(refs, name))
  {
  }

  lemma HeadIsBranch(objs: Objs, refs: map<string, Hash>)
    requires RepoInv(objs, refs) && ReadHEAD(objs, refs).Ok?
    ensures var h := ReadHEAD(objs, refs).value.commit; h.H? ==> WellStored(objs, h) && GoodTree(objs, CommitTree(h))
  {
    var h := ReadHEAD(objs, refs).value.commit;
    var target := objs[refs[HEAD]].target;
    TipWellStored(objs, refs, target);
  }

  /** If HEAD's commit decodes, its tree is canonical and stored. */
  ghost predicate HeadTreeGood(objs: Objs, refs: map<string, Hash>) {
    var hd := ReadHEAD(objs, refs);
    hd.Ok? && LoadCommit(objs, hd.value.commit).Ok? ==> GoodTree(objs, CommitTree(hd.value.commit))
  }

  lemma InvMeansHeadTreeGood(objs: Objs, refs: map<string, Hash>)
    requires RepoInv(objs, refs)
    ensures HeadTreeGood(objs, refs)
  {
    if ReadHEAD(objs, refs).Ok? { HeadIsBranch(objs, refs); }
  }

  // ---------- the SOA bump ----------

  /** The staging area after the automatic serial bump, if it can be done. */
  function BumpedStaging(objs: Objs, staging: Staged, parentTree: Hash): Result<Staged> {
    var soa := At(parentTree, [], "SOA");
    if staging == map[] || SOA_KEY in staging || soa.Zero? then Ok(staging)
    else if soa !in objs then Err(NotFound)
    else if !objs[soa].Blob? then Err(InvalidObject)
    else match Zone.BumpSOASerial(objs[soa].rrs)
      case Err(e) => Err(e)
      case Ok(rrs) => Ok(staging[SOA_KEY := Stage(H(Blob(rrs)))])
  }

  function AfterBump(objs: Objs, staging: Staged, parentTree: Hash): Staged {
    var b := BumpedStaging(objs, staging, parentTree);
    if b.Ok? then b.value else staging
  }

  /** There is no tip yet, or it is a commit that decodes. */
  predicate TipLoads(objs: Objs, tip: Hash) {
    tip.Zero? || LoadCommit(objs, tip).Ok?
  }

  /** What a failed Commit leaves staged: the bumped SOA stays. */
  function LeftStaged(objs: Objs, refs: map<string, Hash>, staging: Staged): Staged {
    var hd := ReadHEAD(objs, refs);
    if hd.Err? || !TipLoads(objs, hd.value.commit) then staging
    else AfterBump(objs, staging, CommitTree(hd.value.commit))
  }

  // ---------- what the operations do ----------

  /** A commit directly on top of `parent`. */
  predicate IsChildOf(c: Hash, parent: Hash) {
    c.H? && c.obj.Commit? && c.obj.parents == if parent.Zero? then [] else [parent]
  }

  /** The only ref change of Commit and of Revert: HEAD's branch moves from the
      tip that was read to a child of it. */
  ghost predicate MovesHead(objs: Objs, refs: map<string, Hash>, refs': map<string, Hash>, c: Hash) {
    && ReadHEAD(objs, refs).Ok?
    && var head := ReadHEAD(objs, refs).value;
       && IsChildOf(c, head.commit)
       && CasMatches(refs, BranchRef(head.zone, head.branch), head.commit)
       && refs' == refs[BranchRef(head.zone, head.branch) := c]
  }

  /** The new commit's map is the parent's, overridden by the staged edits and
      the bumped serial. */
  ghost predicate CommitMap(objs: Objs, staging: Staged, parentTree: Hash, tree: Hash) {
    var b := BumpedStaging(objs, staging, parentTree);
    && b.Ok?
    && CanonRoot(tree)
    && (NormalKeys(staging) ==> forall path: seq<string>, rr: string ::
          At(tree, path, rr) == StagedAt(b.value, path, rr, At(parentTree, path, rr)))
  }

  /** When Commit goes through. */
  ghost predicate CommitReady(objs: Objs, refs: map<string, Hash>, staging: Staged) {
    && staging != map[]
    && ReadHEAD(objs, refs).Ok?
    && var head := ReadHEAD(objs, refs).value;
       && TipLoads(objs, head.commit)
       && BumpedStaging(objs, staging, CommitTree(head.commit)).Ok?
       && StagedNamesOk(staging)
       && CasMatches(refs, BranchRef(head.zone, head.branch), head.commit)
  }

  datatype MergeResult =
    | UpToDate
    | FastForward(commit: Hash)
    | Merged(commit: Hash)
    | Conflicted(conflicts: seq<TreeMerge.Conflict>)

  /** The base a three-way merge starts from; zero for unrelated histories. */
  ghost predicate IsMergeBase(ours: Hash, theirs: Hash, base: Hash) {
    if base.H? then NearestCommon(ours, theirs, base) else Ancs(ours) !! Ancs(theirs)
  }

  ghost predicate Diverged(ours: Hash, theirs: Hash) {
    ours.H? && theirs !in Ancs(ours) && ours !in Ancs(theirs)
  }

  /** What each outcome says about the two tips, the ref and the new commit. */
  ghost predicate MergeOutcome(res: MergeResult, ours: Hash, theirs: Hash, base: Hash, meta: Meta,
      refs: map<string, Hash>, refs': map<string, Hash>, ref: string) {
    match res
    case UpToDate => ours.H? && theirs in Ancs(ours) && refs' == refs
    case FastForward(c) =>
      && c == theirs && CasMatches(refs, ref, ours) && refs' == refs[ref := c]
      && (ours.Zero? || (ours in Ancs(theirs) && theirs !in Ancs(ours)))
    case Conflicted(cs) =>
      && Diverged(ours, theirs) && IsMergeBase(ours, theirs, base) && refs' == refs
      && cs != [] && cs == TreeMerge.Conflicts(CommitTree(base), CommitTree(ours), CommitTree(theirs))
    case Merged(c) =>
      && Diverged(ours, theirs) && IsMergeBase(ours, theirs, base)
      && CasMatches(refs, ref, ours) && refs' == refs[ref := c]
      && TreeMerge.Conflicts(CommitTree(base), CommitTree(ours), CommitTree(theirs)) == []
      && c == H(Commit(TreeMerge.MergeH(CommitTree(base), CommitTree(ours), CommitTree(theirs)), [ours, theirs], meta))
  }

  /** The outcome is decided by ancestry and conflicts alone. */
  lemma MergeOutcomeExact(res: MergeResult, ours: Hash, theirs: Hash, base: Hash, meta: Meta,
      refs: map<string, Hash>, refs': map<string, Hash>, ref: string)
    requires MergeOutcome(res, ours, theirs, base, meta, refs, refs', ref)
    ensures res.UpToDate? <==> ours.H? && theirs in Ancs(ours)
    ensures res.FastForward? <==> ours.Zero? || (ours in Ancs(theirs) && ours != theirs)
    ensures res.Conflicted? || res.Merged? <==> Diverged(ours, theirs)
    ensures res.Conflicted? ==> TreeMerge.Conflicts(CommitTree(base), CommitTree(ours), CommitTree(theirs)) != []
    ensures res.UpToDate? || res.Conflicted? ==> refs' == refs
  {
    assert ours in Ancs(ours);
    if ours.H? && theirs in Ancs(ours) && ours in Ancs(theirs) { AncsAntisymmetric(ours, theirs); }
  }

  /** The histories that Commit, Revert and Merge build contain only true
      merges: whatever any of them moves a branch to keeps the property. */
  lemma ChildKeepsTrueMerges(parent: Hash, c: Hash)
    requires IsChildOf(c, parent) && (parent.H? ==> TrueMerges(parent))
    ensures TrueMerges(c)
  {
    TrueMergesKept(c);
  }

  lemma MergeKeepsTrueMerges(res: MergeResult, ours: Hash, theirs: Hash, base: Hash, meta: Meta,
      refs: map<string, Hash>, refs': map<string, Hash>, ref: string)
    requires MergeOutcome(res, ours, theirs, base, meta, refs, refs', ref)
    requires TrueMerges(theirs) && (ours.H? ==> TrueMerges(ours))
    ensures refs' != refs ==> ref in refs' && TrueMerges(refs'[ref])
  {
    if res.Merged? {
      DivergedIsTrueMerge(res.commit, ours, theirs);
      TrueMergesKept(res.commit);
    }
  }

  /** A merge commit's map is the pointwise three-way merge of its parents'. */
  lemma MergedMap(ours: Hash, theirs: Hash, base: Hash, c: Hash, meta: Meta, path: seq<string>, rr: string)
    requires CanonRoot(CommitTree(base)) && CanonRoot(CommitTree(ours)) && CanonRoot(CommitTree(theirs))
    requires
      var tree := TreeMerge.MergeH(CommitTree(base), CommitTree(ours), CommitTree(theirs));
      c == H(Commit(tree, [ours, theirs], meta))
    ensures At(CommitTree(c), path, rr) ==
            TreeMerge.Winner(At(CommitTree(base), path, rr),
                             At(CommitTree(ours), path, rr), At(CommitTree(theirs), path, rr))
    ensures ours in Ancs(c) && theirs in Ancs(c)
  {
    TreeMerge.MergeHAt(CommitTree(base), CommitTree(ours), CommitTree(theirs), path, rr);
    ParentIsAncestor(c, 0);
    ParentIsAncestor(c, 1);
  }

  /** HEAD's tree with the target's changes taken back. */
  function Reverted(headTree: Hash, before: Hash, after: Hash): Hash {
    Apply(headTree, History.EditsOf(History.DiffList(before, after), true))
  }

  /** A revert sets exactly the keys the target changed back to the value they
      had before it, whatever HEAD holds there now. */
  lemma RevertedMap(headTree: Hash, before: Hash, after: Hash, path: seq<string>, rr: string)
    requires CanonRoot(headTree) && CanonRoot(before) && CanonRoot(after)
    ensures At(Reverted(headTree, before, after), path, rr) ==
            if At(before, path, rr) == At(after, path, rr) then At(headTree, path, rr) else At(before, path, rr)
    ensures CanonRoot(Reverted(headTree, before, after))
  {
    History.ReplayAt(headTree, before, after, History.DiffList(before, after), true, path, rr);
  }

  /** Reverting HEAD itself restores its first parent's map, and the very same
      root hash unless that map is empty. */
  lemma RevertHeadRestores(before: Hash, after: Hash)
    requires CanonRoot(before) && CanonRoot(after)
    ensures SameMap(Reverted(after, before, after), before)
    ensures !EmptyMap(before) ==> Reverted(after, before, after) == before
  {
    var t := Reverted(after, before, after);
    forall path: seq<string>, rr: string ensures At(t, path, rr) == At(before, path, rr) {
      RevertedMap(after, before, after, path, rr);
    }
    RevertedMap(after, before, after, [], "");
    HashIsCanonical(before, t);
  }

  /** A later edit of a reverted key is lost: the comment on Revert promises an
      error for that case, the code has none. */
  lemma RevertOverwrites(headTree: Hash, before: Hash, after: Hash, path: seq<string>, rr: string)
    requires CanonRoot(headTree) && CanonRoot(before) && CanonRoot(after)
    requires At(before, path, rr) != At(after, path, rr)
    ensures At(Reverted(headTree, before, after), path, rr) == At(headTree, path, rr) <==>
              At(headTree, path, rr) == At(before, path, rr)
  {
    RevertedMap(headTree, before, after, path, rr);
  }

  /** HEAD already holds the old value of every key the target changed. */
  ghost predicate AlreadyReverted(headTree: Hash, before: Hash, after: Hash) {
    forall path: seq<string>, rr: string ::
      At(before, path, rr) != At(after, path, rr) ==> At(headTree, path, rr) == At(before, path, rr)
  }

  /** HEAD no longer holds what the target wrote to some key. */
  ghost predicate Mismatched(headTree: Hash, before: Hash, after: Hash) {
    exists path: seq<string>, rr: string ::
      At(before, path, rr) != At(after, path, rr) && At(headTree, path, rr) != At(after, path, rr)
  }

  /** Applying at least one edit writes a root node, even an empty one. */
  lemma {:induction false} ApplyWritesRoot(root: Hash, edits: seq<Edit>)
    requires edits != []
    ensures Apply(root, edits).H? && Apply(root, edits).obj.Tree?
    decreases |edits|
  {
    if |edits| > 1 {
      ApplyWritesRoot(Update(root, edits[0].path, edits[0].rr, edits[0].leaf), edits[1..]);
    } else {
      assert edits[1..] == [];
    }
  }

  lemma NoChangesIffSameMap(before: Hash, after: Hash)
    requires CanonRoot(before) && CanonRoot(after)
    ensures History.DiffList(before, after) == [] <==> SameMap(before, after)
  {
    var cs := History.DiffList(before, after);
    History.DiffMembers(before, after);
    if cs != [] { assert cs[0] in cs; }
    forall path: seq<string>, rr: string | At(before, path, rr) != At(after, path, rr) ensures cs != [] {
      assert History.MkChange(path, rr, At(before, path, rr), At(after, path, rr)) in cs;
    }
  }

  /** The "nothing to do" test of Revert, in terms of the maps. */
  lemma NothingToDoIff(headTree: Hash, before: Hash, after: Hash)
    requires CanonRoot(headTree) && CanonRoot(before) && CanonRoot(after) && !SameMap(before, after)
    ensures Reverted(headTree, before, after) == headTree <==>
              headTree.H? && AlreadyReverted(headTree, before, after)
  {
    var t := Reverted(headTree, before, after);
    forall path: seq<string>, rr: string
      ensures At(t, path, rr) ==
              if At(before, path, rr) == At(after, path, rr) then At(headTree, path, rr) else At(before, path, rr)
    {
      RevertedMap(headTree, before, after, path, rr);
    }
    RevertedMap(headTree, before, after, [], "");
    NoChangesIffSameMap(before, after);
    ApplyWritesRoot(headTree, History.EditsOf(History.DiffList(before, after), true));
    if headTree.H? && AlreadyReverted(headTree, before, after) {
      assert SameMap(headTree, t);
      SameMapSameEntries(headTree, t);
    }
  }

  /** Where the promise of the comment is kept: a HEAD that no longer holds the
      target's value is refused exactly when it holds the old values already. */
  lemma MismatchRefusedIff(headTree: Hash, before: Hash, after: Hash)
    requires CanonRoot(headTree) && CanonRoot(before) && CanonRoot(after)
    requires Mismatched(headTree, before, after)
    ensures Reverted(headTree, before, after) != headTree <==>
              || headTree.Zero?
              || exists path: seq<string>, rr: string ::
                   At(before, path, rr) != At(after, path, rr) && At(headTree, path, rr) != At(before, path, rr)
  {
    NothingToDoIff(headTree, before, after);
  }

  /** A zone with one record set at the apex. */
  function OneSet(rr: string, blob: Hash): Hash {
    H(Tree([Entry(Leaf, rr, blob)]))
  }

  lemma OneSetMap(rr: string, blob: Hash)
    requires blob.H? && ValidName(rr)
    ensures CanonRoot(OneSet(rr, blob))
    ensures forall path: seq<string>, t: string ::
              At(OneSet(rr, blob), path, t) == if path == [] && t == rr then blob else Zero
  {
    var es := [Entry(Leaf, rr, blob)];
    forall path: seq<string>, t: string ensures AtE(es, path, t) == if path == [] && t == rr then blob else Zero {
      FindHead(es, FirstKind(path), FirstName(path, t));
      AtEDown(es, path, t);
      DownZero(path, t);
      assert es[1..] == [];
    }
  }

  /** The target wrote "2" over "1", HEAD has since moved on to "3"; the revert
      goes through and puts "1" back. */
  lemma RevertIgnoresMismatch()
    ensures
      var before := OneSet("A", H(Blob([Data("1")])));
      var after := OneSet("A", H(Blob([Data("2")])));
      var head := OneSet("A", H(Blob([Data("3")])));
      && CanonRoot(before) && CanonRoot(after) && CanonRoot(head)
      && Mismatched(head, before, after)
      && Reverted(head, before, after) == before && before != head
  {
    var b1, b2, b3 := H(Blob([Data("1")])), H(Blob([Data("2")])), H(Blob([Data("3")]));
    assert [Data("1")][0] != [Data("2")][0] && [Data("1")][0] != [Data("3")][0] && [Data("2")][0] != [Data("3")][0];
    OneSetMap("A", b1);
    OneSetMap("A", b2);
    OneSetMap("A", b3);
    RevertsOneSet("A", b1, b2, b3);
  }

  lemma RevertsOneSet(rr: string, b1: Hash, b2: Hash, b3: Hash)
    requires b1.H? && b2.H? && b3.H? && ValidName(rr) && b1 != b2 && b2 != b3 && b1 != b3
    ensures Mismatched(OneSet(rr, b3), OneSet(rr, b1), OneSet(rr, b2))
    ensures Reverted(OneSet(rr, b3), OneSet(rr, b1), OneSet(rr, b2)) == OneSet(rr, b1)
  {
    var before, after, head := OneSet(rr, b1), OneSet(rr, b2), OneSet(rr, b3);
    OneSetMap(rr, b1);
    OneSetMap(rr, b2);
    OneSetMap(rr, b3);
    var t := Reverted(head, before, after);
    forall path: seq<string>, q: string ensures At(before, path, q) == At(t, path, q) {
      RevertedMap(head, before, after, path, q);
    }
    RevertedMap(head, before, after, [], "");
    assert At(before, [], rr) == b1 && At(after, [], rr) == b2 && At(head, [], rr) == b3;
    HashIsCanonical(before, t);
  }

  function FirstParentTree(c: Hash): Hash {
    if Parents(c) == [] then Zero else CommitTree(Parents(c)[0])
  }

  /** Reverting a merge at HEAD brings back the map of its first parent. */
  lemma RevertedMerge(c: Hash, tree: Hash, ours: Hash, theirs: Hash, meta: Meta)
    requires c == H(Commit(tree, [ours, theirs], meta)) && ours.H? && ours.obj.Commit?
    requires CanonRoot(tree) && CanonRoot(ours.obj.tree)
    ensures SameMap(Reverted(tree, FirstParentTree(c), CommitTree(c)), ours.obj.tree)
  {
    RevertHeadRestores(ours.obj.tree, tree);
  }

  // ---------- proof steps of the operations ----------

  lemma BumpedNames(objs: Objs, staging: Staged, parentTree: Hash)
    requires BumpedStaging(objs, staging, parentTree).Ok?
    ensures StagedNamesOk(BumpedStaging(objs, staging, parentTree).value) <==> StagedNamesOk(staging)
    ensures NormalKeys(staging) ==> NormalKeys(BumpedStaging(objs, staging, parentTree).value)
  {
    var b := BumpedStaging(objs, staging, parentTree).value;
    assert Normal("") && PathOf("") == [] && NamesOk([], "SOA") by { assert Lower("") == ""; }
    if b != staging {
      forall k ensures k in b <==> k in staging || k == SOA_KEY {}
      if StagedNamesOk(b) {
        forall k | k in staging && staging[k] != Tombstone && LeafOf(staging[k]).H?
          ensures NamesOk(PathOf(k.fqdn), k.rr)
        {
          assert b[k] == staging[k];
        }
      }
    }
  }

  lemma StagedTree(objs: Objs, staging: Staged, bumped: Staged, keys: seq<StagingKey>, parentTree: Hash, tree: Hash)
    requires BumpedStaging(objs, staging, parentTree) == Ok(bumped)
    requires CanonRoot(parentTree) && Lists(bumped, keys) && AllStaged(bumped, keys)
    requires EditsOk(EditsFor(bumped, keys)) && tree == Apply(parentTree, EditsFor(bumped, keys))
    ensures CommitMap(objs, staging, parentTree, tree)
  {
    BumpedNames(objs, staging, parentTree);
    ApplyAt(parentTree, EditsFor(bumped, keys), [], "");
    if NormalKeys(staging) {
      forall path: seq<string>, rr: string
        ensures At(tree, path, rr) == StagedAt(bumped, path, rr, At(parentTree, path, rr))
      {
        ApplyAt(parentTree, EditsFor(bumped, keys), path, rr);
        StagingIsOverride(bumped, keys, path, rr, At(parentTree, path, rr));
      }
    }
  }

  lemma CommitStored(objs0: Objs, objs1: Objs, objs2: Objs, refs: map<string, Hash>, ref: string, parent: Hash, c: Hash)
    requires Grows(objs0, objs1) && RepoInv(objs1, refs) && IsChildOf(c, parent) && objs2 == objs1[c := c.obj]
    requires GoodTree(objs1, c.obj.tree) && c.obj.meta.legible
    requires parent.H? ==> WellStored(objs0, parent)
    ensures Grows(objs0, objs2) && RepoInv(objs2, refs)
    ensures RepoInv(objs2, refs[ref := c])
  {
    assert Grows(objs1, objs2);
    GrowthKeepsInv(objs1, objs2, refs);
    RootKept(objs1, objs2, c.obj.tree);
    if parent.H? { WellStoredKept(objs0, objs2, parent); }
    NewCommitWellStored(objs2, c);
    TipMoved(objs2, refs, ref, c);
  }

  /** A new child of HEAD's tip: the store grows, and a well-kept repository
      stays so, when the branch moves to it provided that it decodes. */
  lemma ChildStored(objs0: Objs, objs1: Objs, objs2: Objs, refs: map<string, Hash>, head: Head, c: Hash)
    requires c.H? && Grows(objs0, objs1) && ContentAddressed(objs1) && objs2 == objs1[c := c.obj]
    requires ReadHEAD(objs0, refs) == Ok(head) && IsChildOf(c, head.commit) && GoodTree(objs1, c.obj.tree)
    ensures Grows(objs0, objs2) && ContentAddressed(objs2)
    ensures RepoInv(objs0, refs) ==> RepoInv(objs2, refs)
    ensures RepoInv(objs0, refs) && c.obj.meta.legible ==>
              RepoInv(objs2, refs[BranchRef(head.zone, head.branch) := c])
  {
    assert Grows(objs1, objs2);
    GrowsOn(objs0, objs1, objs2);
    if RepoInv(objs0, refs) {
      GrowthKeepsInv(objs0, objs1, refs);
      GrowthKeepsInv(objs0, objs2, refs);
      HeadIsBranch(objs0, refs);
      if c.obj.meta.legible {
        CommitStored(objs0, objs1, objs2, refs, BranchRef(head.zone, head.branch), head.commit, c);
      }
    }
  }

  lemma GrowsOn(a: Objs, b: Objs, c: Objs)
    requires Grows(a, b) && Grows(b, c)
    ensures Grows(a, c)
  {
    forall h | h in c ensures (h in a && c[h] == a[h]) || Holds(c, h) {
      assert Holds(b, h) ==> Holds(c, h);
    }
  }

  lemma InvGrows(a: Objs, b: Objs, refs: map<string, Hash>)
    requires Grows(a, b)
    ensures RepoInv(a, refs) ==> RepoInv(b, refs)
    ensures ContentAddressed(a) ==> ContentAddressed(b)
  {
    if RepoInv(a, refs) { GrowthKeepsInv(a, b, refs); }
  }

  lemma MergeStored(objs0: Objs, objs1: Objs, objs2: Objs, refs: map<string, Hash>, ref: string, ours: Hash,
      theirs: Hash, c: Hash)
    requires Grows(objs0, objs1) && RepoInv(objs1, refs) && c.H? && objs2 == objs1[c := c.obj]
    requires IsCommit(c.obj) && c.obj.parents == [ours, theirs] && GoodTree(objs1, c.obj.tree)
    requires WellStored(objs0, ours) && WellStored(objs0, theirs)
    ensures Grows(objs0, objs2) && RepoInv(objs2, refs)
    ensures RepoInv(objs2, refs[ref := c])
  {
    assert Grows(objs1, objs2);
    GrowthKeepsInv(objs1, objs2, refs);
    RootKept(objs1, objs2, c.obj.tree);
    WellStoredKept(objs0, objs2, ours);
    WellStoredKept(objs0, objs2, theirs);
    NewCommitWellStored(objs2, c);
    TipMoved(objs2, refs, ref, c);
  }

  /** The three trees of a merge are what the commits name, and loadable. */
  lemma TreesReady(objs: Objs, ours: Hash, theirs: Hash, base: Hash)
    requires ContentAddressed(objs) && WellStored(objs, ours) && WellStored(objs, theirs)
    requires base.H? ==> NearestCommon(ours, theirs, base)
    ensures TreeOf(objs, ours) == CommitTree(ours) && GoodTree(objs, CommitTree(ours))
    ensures TreeOf(objs, theirs) == CommitTree(theirs) && GoodTree(objs, CommitTree(theirs))
    ensures TreeOf(objs, base) == CommitTree(base) && GoodTree(objs, CommitTree(base))
  {
    assert ours in Ancs(ours) && theirs in Ancs(theirs);
  }

  /** Any commit of a well-stored history can be the target of a revert. */
  lemma StoredTargetReady(objs: Objs, target: Hash)
    requires ContentAddressed(objs) && WellStored(objs, target) && LoadCommit(objs, target).Ok?
    ensures TargetTreesCanon(target) && TargetTreesIn(objs, target)
    ensures Parents(target) != [] ==> LoadCommit(objs, Parents(target)[0]).Ok?
  {
    assert target in Ancs(target);
    if Parents(target) != [] { ParentIsAncestor(target, 0); }
  }

  /** The other branch may be given by its name or by its ref. */
  lemma MergeTakesRefOrName(branch: string)
    ensures TrimPrefix("refs/heads/" + branch, BRANCH_PREFIX) == branch
    ensures !HasPrefix(branch, "refs/heads/") ==> TrimPrefix(branch, BRANCH_PREFIX) == branch
  {
  }

  /** When a merge reaches an outcome. */
  ghost predicate MergePossible(objs: Objs, refs: map<string, Hash>, theirsBranch: string) {
    && ReadHEAD(objs, refs).Ok?
    && var head := ReadHEAD(objs, refs).value;
       var name := TrimPrefix(theirsBranch, BRANCH_PREFIX);
       && name != head.branch
       && BranchRef(head.zone, name) in refs
       && CasMatches(refs, BranchRef(head.zone, head.branch), head.commit)
  }

  /** When a revert goes through: the target changed something, HEAD's branch
      has a tip, and HEAD does not hold all the old values already. */
  ghost predicate RevertReady(objs: Objs, refs: map<string, Hash>, target: Hash) {
    && LoadCommit(objs, target).Ok?
    && (Parents(target) != [] ==> LoadCommit(objs, Parents(target)[0]).Ok?)
    && ReadHEAD(objs, refs).Ok?
    && var head := ReadHEAD(objs, refs).value;
       var headTree, before, after := CommitTree(head.commit), FirstParentTree(target), CommitTree(target);
       && head.commit.H? && LoadCommit(objs, head.commit).Ok?
       && !SameMap(before, after)
       && (headTree.Zero? || !AlreadyReverted(headTree, before, after))
       && CasMatches(refs, BranchRef(head.zone, head.branch), head.commit)
  }

  /** The trees a revert compares keep the tree invariant. */
  ghost predicate TargetTreesCanon(target: Hash) {
    CanonRoot(CommitTree(target)) && CanonRoot(FirstParentTree(target))
  }

  ghost predicate TargetTreesIn(objs: Objs, target: Hash) {
    RootIn(objs, CommitTree(target)) && RootIn(objs, FirstParentTree(target))
  }

  /** A commit that does not decode blocks its branch: once it is the tip, no
      Commit and no Revert on the branch goes through, whatever is staged. */
  lemma IllegibleTipBlocks(objs: Objs, refs: map<string, Hash>, c: Hash, staging: Staged, target: Hash)
    requires ContentAddressed(objs) && c.H? && c.obj.Commit? && !c.obj.meta.legible
    requires ReadHEAD(objs, refs).Ok? && ReadHEAD(objs, refs).value.commit == c
    ensures !TipLoads(objs, c)
    ensures !CommitReady(objs, refs, staging) && !RevertReady(objs, refs, target)
  {
  }

  // ---------- serials along a chain of commits ----------

  /** A single SOA record with this serial. */
  predicate IsSOASet(soa: Hash, serial: nat) {
    soa.H? && soa.obj.Blob? && |soa.obj.rrs| == 1 && soa.obj.rrs[0].SOA? && soa.obj.rrs[0].serial == serial
  }

  predicate HasSerial(tree: Hash, serial: nat) {
    IsSOASet(At(tree, [], "SOA"), serial)
  }

  /** A commit whose staging leaves the apex SOA alone advances its serial by
      one. A staging area that still holds a bumped SOA, as a lost
      compare-and-swap leaves it, is outside the condition. */
  lemma CommitAdvancesSerial(objs: Objs, staging: Staged, parentTree: Hash, tree: Hash, serial: nat)
    requires CommitMap(objs, staging, parentTree, tree)
    requires ContentAddressed(objs) && NormalKeys(staging)
    requires staging != map[] && SOA_KEY !in staging && HasSerial(parentTree, serial)
    ensures HasSerial(tree, Zone.NextSerial(serial))
  {
    var b := BumpedStaging(objs, staging, parentTree).value;
    assert NameOf([]) == "" && PathOf("") == [] by { assert Lower("") == ""; }
    assert At(tree, [], "SOA") == StagedAt(b, [], "SOA", At(parentTree, [], "SOA"));
  }

  /** Such a commit stores the parent's SOA record with the next serial and
      everything else in it as it was. */
  lemma CommitBumpsSOA(objs: Objs, staging: Staged, parentTree: Hash, tree: Hash, serial: nat, rest: string)
    requires CommitMap(objs, staging, parentTree, tree) && ContentAddressed(objs) && NormalKeys(staging)
    requires staging != map[] && StagingKey("", "SOA") !in staging
    requires At(parentTree, [], "SOA") == H(Blob([SOA(serial, rest)]))
    ensures At(tree, [], "SOA") == H(Blob([SOA((serial + 1) % 0x1_0000_0000, rest)]))
  {
    BumpStagesSOA(objs, staging, parentTree, serial, rest);
    var b := BumpedStaging(objs, staging, parentTree).value;
    assert NameOf([]) == "" && PathOf("") == [] by { assert Lower("") == ""; }
    assert At(tree, [], "SOA") == StagedAt(b, [], "SOA", At(parentTree, [], "SOA"));
  }

  /** What the bump stages, and that it stages nothing else. */
  lemma BumpStagesSOA(objs: Objs, staging: Staged, parentTree: Hash, serial: nat, rest: string)
    requires ContentAddressed(objs) && BumpedStaging(objs, staging, parentTree).Ok?
    requires staging != map[] && StagingKey("", "SOA") !in staging
    requires At(parentTree, [], "SOA") == H(Blob([SOA(serial, rest)]))
    ensures AfterBump(objs, staging, parentTree)
            == staging[StagingKey("", "SOA") := Stage(H(Blob([SOA((serial + 1) % 0x1_0000_0000, rest)])))]
  {
    var rrs := [SOA(serial, rest)];
    assert rrs[0] == SOA(serial, rest);
  }

  /** The bump fails exactly when there is an apex SOA set to advance that is
      not stored or is no single SOA record. */
  lemma BumpFailsIff(objs: Objs, staging: Staged, parentTree: Hash)
    requires ContentAddressed(objs)
    ensures BumpedStaging(objs, staging, parentTree).Err? <==>
              && staging != map[] && StagingKey("", "SOA") !in staging
              && At(parentTree, [], "SOA").H?
              && !(At(parentTree, [], "SOA") in objs && SingleSOA(At(parentTree, [], "SOA")))
  {
    var soa := At(parentTree, [], "SOA");
    if soa.H? && soa.obj.Blob? {
      var rrs := soa.obj.rrs;
      if |rrs| == 1 && rrs[0].SOA? { assert rrs == [SOA(rrs[0].serial, rrs[0].rest)]; }
    }
  }

  ghost predicate SingleSOA(h: Hash) {
    exists serial: nat, rest: string :: h == H(Blob([SOA(serial, rest)]))
  }

  /** Every other key takes what is staged for it, a deletion included, and
      keeps the parent's value when nothing is. */
  lemma CommitTakesStaged(objs: Objs, staging: Staged, parentTree: Hash, tree: Hash, path: seq<string>, rr: string)
    requires CommitMap(objs, staging, parentTree, tree) && NormalKeys(staging)
    requires path != [] || rr != "SOA"
    requires PathOf(NameOf(path)) == path
    ensures
      var k := StagingKey(NameOf(path), rr);
      && (forall h :: k in staging && staging[k] == Stage(h) ==> At(tree, path, rr) == h)
      && (k in staging && staging[k] == Tombstone ==> At(tree, path, rr) == Zero)
      && (k !in staging ==> At(tree, path, rr) == At(parentTree, path, rr))
  {
    var b := BumpedStaging(objs, staging, parentTree).value;
    assert PathOf("") == [] by { assert Lower("") == ""; }
    assert At(tree, path, rr) == StagedAt(b, path, rr, At(parentTree, path, rr));
  }

  /** With the apex SOA staged, by hand or by a lost compare-and-swap, the
      commit takes the staged record whatever serial the parent has. */
  lemma StagedSerialWins(objs: Objs, staging: Staged, parentTree: Hash, tree: Hash)
    requires CommitMap(objs, staging, parentTree, tree)
    requires NormalKeys(staging) && SOA_KEY in staging
    ensures At(tree, [], "SOA") == LeafOf(staging[SOA_KEY])
  {
    assert NameOf([]) == "" && PathOf("") == [] by { assert Lower("") == ""; }
    assert At(tree, [], "SOA") == StagedAt(staging, [], "SOA", At(parentTree, [], "SOA"));
  }

  /** Exactly when a commit advances the serial by one: the apex SOA is not
      staged, or the staged set is an SOA with just that serial. */
  lemma SerialAdvancesIff(objs: Objs, staging: Staged, parentTree: Hash, tree: Hash, serial: nat)
    requires CommitMap(objs, staging, parentTree, tree) && ContentAddressed(objs) && NormalKeys(staging)
    requires staging != map[] && HasSerial(parentTree, serial)
    ensures HasSerial(tree, Zone.NextSerial(serial)) <==>
              || SOA_KEY !in staging
              || IsSOASet(LeafOf(staging[SOA_KEY]), Zone.NextSerial(serial))
  {
    if SOA_KEY in staging {
      StagedSerialWins(objs, staging, parentTree, tree);
    } else {
      CommitAdvancesSerial(objs, staging, parentTree, tree, serial);
    }
  }

  /** A lost race: two writers start from the same parent, the winner's commit
      takes the next serial, and the loser commits its leftover staging on top.
      The zone changes once more but the serial stays where the winner put it. */
  lemma LostRaceKeepsSerial(objs: Objs, objs': Objs, staging: Staged, parent: Hash, winner: Hash, tree: Hash,
      serial: nat)
    requires ContentAddressed(objs) && NormalKeys(staging) && staging != map[] && SOA_KEY !in staging
    requires HasSerial(parent, serial) && HasSerial(winner, Zone.NextSerial(serial))
    requires BumpedStaging(objs, staging, parent).Ok?
    requires CommitMap(objs', AfterBump(objs, staging, parent), winner, tree)
    ensures HasSerial(tree, Zone.NextSerial(serial))
    ensures !HasSerial(tree, Zone.NextSerial(Zone.NextSerial(serial)))
  {
    BumpedNames(objs, staging, parent);
    BumpStagesNext(objs, staging, parent, serial);
    StagedSerialWins(objs', AfterBump(objs, staging, parent), winner, tree);
    Zone.NextSerialMoves(Zone.NextSerial(serial));
  }

  lemma BumpStagesNext(objs: Objs, staging: Staged, parent: Hash, serial: nat)
    requires ContentAddressed(objs) && staging != map[] && SOA_KEY !in staging
    requires HasSerial(parent, serial) && BumpedStaging(objs, staging, parent).Ok?
    ensures
      var left := AfterBump(objs, staging, parent);
      SOA_KEY in left && IsSOASet(LeafOf(left[SOA_KEY]), Zone.NextSerial(serial))
  {
  }

  ghost predicate BumpingCommit(parentTree: Hash, tree: Hash) {
    exists objs: Objs, staging: Staged ::
      && CommitMap(objs, staging, parentTree, tree) && ContentAddressed(objs) && NormalKeys(staging)
      && staging != map[] && SOA_KEY !in staging
  }

  /** Each tree comes from the one before it by such a commit. */
  ghost predicate BumpingChain(trees: seq<Hash>) {
    var n := |trees| - 1;
    n <= 0 || (BumpingChain(trees[..n]) && BumpingCommit(trees[n - 1], trees[n]))
  }

  lemma BumpAdvances(parentTree: Hash, tree: Hash, serial: nat)
    requires BumpingCommit(parentTree, tree) && HasSerial(parentTree, serial)
    ensures HasSerial(tree, Zone.NextSerial(serial))
  {
    var objs: Objs, staging: Staged :|
      && CommitMap(objs, staging, parentTree, tree) && ContentAddressed(objs) && NormalKeys(staging)
      && staging != map[] && SOA_KEY !in staging;
    CommitAdvancesSerial(objs, staging, parentTree, tree, serial);
  }

  lemma {:induction false} SerialAfter(trees: seq<Hash>, serial: nat)
    requires |trees| > 0 && HasSerial(trees[0], serial)
    requires BumpingChain(trees)
    ensures HasSerial(trees[|trees| - 1], Zone.BumpTimes(serial, |trees| - 1))
    decreases |trees|
  {
    var n := |trees| - 1;
    if n > 0 {
      SerialAfter(trees[..n], serial);
      BumpAdvances(trees[n - 1], trees[n], Zone.BumpTimes(serial, n - 1));
    }
  }

  /** A single SOA record that says this apart from its serial. */
  predicate RestIs(soa: Hash, rest: string) {
    soa.H? && soa.obj.Blob? && |soa.obj.rrs| == 1 && soa.obj.rrs[0].SOA? && soa.obj.rrs[0].rest == rest
  }

  lemma BumpKeepsRest(parentTree: Hash, tree: Hash, rest: string)
    requires BumpingCommit(parentTree, tree) && RestIs(At(parentTree, [], "SOA"), rest)
    ensures RestIs(At(tree, [], "SOA"), rest)
  {
    var objs: Objs, staging: Staged :|
      && CommitMap(objs, staging, parentTree, tree) && ContentAddressed(objs) && NormalKeys(staging)
      && staging != map[] && SOA_KEY !in staging;
    var rrs := At(parentTree, [], "SOA").obj.rrs;
    assert rrs == [SOA(rrs[0].serial, rest)];
    CommitBumpsSOA(objs, staging, parentTree, tree, rrs[0].serial, rest);
  }

  /** However many such commits there are, the SOA record says the same but for
      its serial. */
  lemma {:induction false} RestAlongChain(trees: seq<Hash>, rest: string)
    requires |trees| > 0 && RestIs(At(trees[0], [], "SOA"), rest)
    requires BumpingChain(trees)
    ensures RestIs(At(trees[|trees| - 1], [], "SOA"), rest)
    decreases |trees|
  {
    var n := |trees| - 1;
    if n > 0 {
      RestAlongChain(trees[..n], rest);
      BumpKeepsRest(trees[n - 1], trees[n], rest);
    }
  }

  /** After n such commits the serial compares greater than at the start, in
      the sense of section 3.2 of RFC 1982, exactly while 0 < n < 2^31. */
  lemma SerialsAlongChain(trees: seq<Hash>, first: nat, last: nat)
    requires BumpingChain(trees) && 0 < |trees| <= Zone.MODULUS && first < Zone.MODULUS
    requires HasSerial(trees[0], first) && HasSerial(trees[|trees| - 1], last)
    ensures Zone.SerialGreater(last, first) <==> 0 < |trees| - 1 < Zone.MODULUS / 2
  {
    LastSerial(trees, first, last);
    Zone.ComparesAfter(first, |trees| - 1, last);
  }

  lemma LastSerial(trees: seq<Hash>, first: nat, last: nat)
    requires BumpingChain(trees) && 0 < |trees|
    requires HasSerial(trees[0], first) && HasSerial(trees[|trees| - 1], last)
    ensures last == Zone.BumpTimes(first, |trees| - 1)
  {
    SerialAfter(trees, first);
    OneSerial(trees[|trees| - 1], last, Zone.BumpTimes(first, |trees| - 1));
  }

  lemma OneSerial(tree: Hash, a: nat, b: nat)
    requires HasSerial(tree, a) && HasSerial(tree, b)
    ensures a == b
  {
  }

  // ---------- when the staged names are normal ----------

  lemma StripKeepsLower(owner: string, zone: string)
    requires Lower(owner) == owner
    ensures Lower(StripZoneSuffix(owner, zone)) == StripZoneSuffix(owner, zone)
  {
  }

  /** Set keeps the staged names normal unless the owner's relative part ends in
      a dot or is a lone "@". */
  lemma SetKeepsNormalIff(m: Staged, owner: string, zone: string, rrtype: string, v: StagingValue)
    requires NormalKeys(m)
    ensures
      var name := StripZoneSuffix(FullOwner(owner), zone);
      NormalKeys(m[StagingKey(name, rrtype) := v]) <==> name != "@" && !HasSuffix(name, ".")
  {
    var name := StripZoneSuffix(FullOwner(owner), zone);
    FullOwnerLower(owner);
    StripKeepsLower(FullOwner(owner), zone);
    NormalIff(name);
    KeyAdded(m, StagingKey(name, rrtype), v);
  }

  /** Delete does unless the name is written with two dots at the end. */
  lemma DeleteKeepsNormalIff(m: Staged, fqdn: string, rrtype: string)
    requires NormalKeys(m)
    ensures NormalKeys(m[StagingKey(NormFQDN(fqdn), Upper(rrtype)) := Tombstone]) <==> !HasSuffix(fqdn, "..")
  {
    NormalisedIff(fqdn);
    KeyAdded(m, StagingKey(NormFQDN(fqdn), Upper(rrtype)), Tombstone);
  }

  /** Names that differ in case alone are staged under one key, by Set and by
      Delete. */
  lemma CaseNamesOneKey(a: string, b: string, zone: string)
    requires CaseVariants(a, b)
    ensures StripZoneSuffix(FullOwner(a), zone) == StripZoneSuffix(FullOwner(b), zone) && NormFQDN(a) == NormFQDN(b)
  {
    FoldsCase(a, b);
  }

  lemma KeyAdded(m: Staged, k: StagingKey, v: StagingValue)
    requires NormalKeys(m)
    ensures NormalKeys(m[k := v]) <==> Normal(k.fqdn)
  {
    assert k in m[k := v];
  }

  lemma FullOwnerLower(owner: string)
    ensures Lower(FullOwner(owner)) == FullOwner(owner)
  {
    assert Lower(".") == ".";
    LowerConcat(Lower(owner), ".");
  }

  /** The tree a commit on this tip starts from. */
  method TipTree(s: Store, tip: Hash) returns (r: Result<Hash>)
    requires ContentAddressed(s.objects)
    requires LoadCommit(s.objects, tip).Ok? ==> GoodTree(s.objects, CommitTree(tip))
    ensures r.Ok? <==> TipLoads(s.objects, tip)
    ensures r.Ok? ==> r.value == CommitTree(tip) && GoodTree(s.objects, r.value)
  {
    if tip.Zero? { return Ok(Zero); }
    var c := LoadCommit(s.objects, tip);
    if c.Err? { return Err(c.error); }
    return Ok(c.value.tree);
  }

  // ---------- the handle ----------

  class Repo {
    const store: Store
    var staging: Staged
    var activeZone: string

    constructor (s: Store, zone: string)
      ensures store == s && staging == map[] && activeZone == zone
    {
      store, staging, activeZone := s, map[], zone;
    }

    /** Stages a record set under its owner name relative to the zone; `owner`
        is the name in the first record. */
    method Set(owner: string, rrtype: string, rrs: seq<RR>) returns (r: Result<()>)
      modifies this`staging, store`objects
      ensures r.Ok? <==> rrs != [] && activeZone != "" && OneOwner(owner, rrs)
      ensures store.objects == if r.Ok? then old(store.objects)[H(Blob(rrs)) := Blob(rrs)] else old(store.objects)
      ensures
        var k := StagingKey(StripZoneSuffix(FullOwner(owner), activeZone), rrtype);
        staging == if r.Ok? then old(staging)[k := Stage(H(Blob(rrs)))] else old(staging)
    {
      if rrs == [] { return Err(Refused); }
      if activeZone == "" { return Err(Refused); }
      if !OneOwner(owner, rrs) { return Err(InvalidObject); }
      var h := H(Blob(rrs));
      store.PutObject(h, h.obj);
      var name := Lower(owner);
      if !HasSuffix(name, ".") { name := name + "."; }
      var fqdn := StripZoneSuffix(name, activeZone);
      staging := staging[StagingKey(fqdn, rrtype) := Stage(h)];
      return Ok(());
    }

    method Delete(fqdn: string, rrtype: string)
      modifies this`staging
      ensures staging == old(staging)[StagingKey(NormFQDN(fqdn), Upper(rrtype)) := Tombstone]
    {
      staging := staging[StagingKey(NormFQDN(fqdn), Upper(rrtype)) := Tombstone];
    }

    /** Stages the parent's apex SOA with the next serial, unless the apex SOA
        is itself staged or the parent has none. */
    method MaybeBumpSOA(parentTree: Hash) returns (r: Result<()>)
      requires ContentAddressed(store.objects) && GoodTree(store.objects, parentTree)
      modifies this`staging, store`objects
      ensures r.Ok? <==> BumpedStaging(old(store.objects), old(staging), parentTree).Ok?
      ensures staging == AfterBump(old(store.objects), old(staging), parentTree)
      ensures Grows(old(store.objects), store.objects)
    {
      if parentTree.Zero? { AtENothing([], "SOA"); return Ok(()); }
      var hasNonSOA, left := false, staging.Keys;
      while left != {}
        invariant left <= staging.Keys
        invariant forall k :: k in staging && k !in left ==> k != SOA_KEY
        invariant hasNonSOA <==> left != staging.Keys
        decreases left
      {
        var k :| k in left;
        if k.rr == "SOA" && k.fqdn == "" {
          assert k == SOA_KEY;
          return Ok(());
        }
        hasNonSOA, left := true, left - {k};
      }
      if !hasNonSOA { assert staging == map[]; return Ok(()); }
      RootSpine(store.objects, parentTree, []);
      var w := TreeReads.WalkTree(store, parentTree, [], "SOA");
      if w.Err? { return Ok(()); }
      var obj := store.GetObject(w.value);
      if obj.Err? { return Err(obj.error); }
      if !obj.value.Blob? { return Err(InvalidObject); }
      var bumped := Zone.BumpSOASerial(obj.value.rrs);
      if bumped.Err? { return Err(bumped.error); }
      var h := H(Blob(bumped.value));
      store.PutObject(h, h.obj);
      staging := staging[SOA_KEY := Stage(h)];
      return Ok(());
    }

    /** The tree half of Commit: bumps the serial, then applies the sorted
        staged edits to the parent's tree. */
    method BuildTree(parentTree: Hash) returns (r: Result<Hash>)
      requires ContentAddressed(store.objects) && GoodTree(store.objects, parentTree)
      modifies this`staging, store`objects
      ensures Grows(old(store.objects), store.objects)
      ensures r.Ok? <==> BumpedStaging(old(store.objects), old(staging), parentTree).Ok? && StagedNamesOk(old(staging))
      ensures r.Ok? ==> CommitMap(old(store.objects), old(staging), parentTree, r.value)
      ensures r.Ok? ==> GoodTree(store.objects, r.value)
      ensures staging == AfterBump(old(store.objects), old(staging), parentTree)
    {
      var bump := MaybeBumpSOA(parentTree);
      if bump.Err? { return Err(bump.error); }
      RootKept(old(store.objects), store.objects, parentTree);
      var keys := SortedKeys(staging);
      ListsStaged(staging, keys);
      StagedEditsOk(staging, keys);
      BumpedNames(old(store.objects), old(staging), parentTree);
      r := ApplyEdits(store, parentTree, EditsFor(staging, keys));
      if r.Ok? { StagedTree(old(store.objects), old(staging), staging, keys, parentTree, r.value); }
    }

    /** Applies the staged edits as one commit on HEAD's branch. */
    method Commit(meta: Meta) returns (r: Result<Hash>)
      requires ContentAddressed(store.objects) && HeadTreeGood(store.objects, store.refs)
      modifies this`staging, store
      ensures ContentAddressed(store.objects) && Grows(old(store.objects), store.objects)
      ensures RepoInv(old(store.objects), old(store.refs)) && (r.Err? || meta.legible) ==>
                RepoInv(store.objects, store.refs)
      ensures r.Ok? <==> CommitReady(old(store.objects), old(store.refs), old(staging))
      ensures r.Ok? ==>
                && MovesHead(old(store.objects), old(store.refs), store.refs, r.value)
                && var head := ReadHEAD(old(store.objects), old(store.refs)).value;
                && CommitMap(old(store.objects), old(staging), CommitTree(head.commit), r.value.obj.tree)
                && r.value.obj.meta == meta && staging == map[]
      ensures r.Err? ==>
                && store.refs == old(store.refs)
                && staging == LeftStaged(old(store.objects), old(store.refs), old(staging))
    {
      if staging == map[] { return Err(Refused); }
      var hd := ReadHEAD(store.objects, store.refs);
      if hd.Err? { return Err(hd.error); }
      var head := hd.value;
      var parent := head.commit;
      var parentTree := TipTree(store, parent);
      if parentTree.Err? { return Err(parentTree.error); }
      var built := BuildTree(parentTree.value);
      InvGrows(old(store.objects), store.objects, store.refs);
      if built.Err? { return Err(built.error); }
      r := AddCommit(head, built.value, meta, old(store.objects));
      if r.Ok? { staging := map[]; }
    }

    /** Stores a commit on top of the tip that was read and moves the branch, if
        the tip is still the same. */
    method AddCommit(head: Head, tree: Hash, meta: Meta, ghost objs0: Objs) returns (r: Result<Hash>)
      requires Grows(objs0, store.objects) && ContentAddressed(store.objects) && GoodTree(store.objects, tree)
      requires ReadHEAD(objs0, store.refs) == Ok(head)
      modifies store
      ensures ContentAddressed(store.objects) && Grows(objs0, store.objects)
      ensures RepoInv(objs0, old(store.refs)) && (r.Err? || meta.legible) ==> RepoInv(store.objects, store.refs)
      ensures r.Ok? <==> CasMatches(old(store.refs), BranchRef(head.zone, head.branch), head.commit)
      ensures r.Ok? ==>
                && r.value == H(Object.Commit(tree, if head.commit.H? then [head.commit] else [], meta))
                && MovesHead(objs0, old(store.refs), store.refs, r.value)
      ensures r.Err? ==> store.refs == old(store.refs)
    {
      var c := H(Object.Commit(tree, if head.commit.H? then [head.commit] else [], meta));
      ghost var objs1 := store.objects;
      store.PutObject(c, c.obj);
      ChildStored(objs0, objs1, store.objects, store.refs, head, c);
      var moved := store.CASRef(BranchRef(head.zone, head.branch), head.commit, c);
      if moved.Err? { return Err(moved.error); }
      return Ok(c);
    }

    /** Integrates another branch into HEAD's branch. */
    method Merge(theirsBranch: string, meta: Meta) returns (r: Result<MergeResult>, ghost base: Hash)
      requires RepoInv(store.objects, store.refs)
      modifies store
      ensures ContentAddressed(store.objects) && Grows(old(store.objects), store.objects)
      ensures r.Err? || !r.value.Merged? || meta.legible ==> RepoInv(store.objects, store.refs)
      ensures r.Ok? ==>
                && ReadHEAD(old(store.objects), old(store.refs)).Ok?
                && var head := ReadHEAD(old(store.objects), old(store.refs)).value;
                var theirs := GetRefOf(old(store.refs), BranchRef(head.zone, TrimPrefix(theirsBranch, BRANCH_PREFIX)));
                && staging == map[]
                && MergeOutcome(r.value, head.commit, theirs, base, meta, old(store.refs), store.refs,
                                BranchRef(head.zone, head.branch))
      ensures r.Err? ==> store.refs == old(store.refs)
      ensures staging == map[] && MergePossible(old(store.objects), old(store.refs), theirsBranch) ==> r.Ok?
    {
      base := Zero;
      if staging != map[] { return Err(Refused), base; }
      var hd := ReadHEAD(store.objects, store.refs);
      if hd.Err? { return Err(hd.error), base; }
      var head := hd.value;
      var ours := head.commit;
      var theirsName := TrimPrefix(theirsBranch, BRANCH_PREFIX);
      if theirsName == head.branch { return Err(Refused), base; }
      var theirsRef := BranchRef(head.zone, theirsName);
      if theirsRef !in store.refs { return Err(NotFound), base; }
      var theirs := store.refs[theirsRef];
      HeadIsBranch(store.objects, store.refs);
      TipWellStored(store.objects, store.refs, theirsRef);
      var ref := BranchRef(head.zone, head.branch);

      if ours.H? {
        var anc := IsAncestor(store, theirs, ours);
        if anc.Err? { return Err(NotFound), base; }
        if anc.value { return Ok(UpToDate), base; }
      }
      if ours.Zero? {
        TipMoved(store.objects, store.refs, ref, theirs);
        var created := store.CASRef(ref, Zero, theirs);
        if created.Err? { return Err(created.error), base; }
        return Ok(FastForward(theirs)), base;
      }
      var ff := IsAncestor(store, ours, theirs);
      if ff.Err? { return Err(NotFound), base; }
      if ff.value {
        TipMoved(store.objects, store.refs, ref, theirs);
        var moved := store.CASRef(ref, ours, theirs);
        if moved.Err? { return Err(moved.error), base; }
        return Ok(FastForward(theirs)), base;
      }
      r, base := MergeDiverged(ours, theirs, ref, meta);
    }

    /** The true three-way case. */
    method MergeDiverged(ours: Hash, theirs: Hash, ref: string, meta: Meta)
        returns (r: Result<MergeResult>, ghost base: Hash)
      requires RepoInv(store.objects, store.refs)
      requires WellStored(store.objects, ours) && WellStored(store.objects, theirs)
      requires Diverged(ours, theirs) && theirs.H?
      modifies store
      ensures ContentAddressed(store.objects) && Grows(old(store.objects), store.objects)
      ensures r.Err? || !r.value.Merged? || meta.legible ==> RepoInv(store.objects, store.refs)
      ensures r.Ok? ==> MergeOutcome(r.value, ours, theirs, base, meta, old(store.refs), store.refs, ref)
      ensures r.Err? ==> store.refs == old(store.refs)
      ensures CasMatches(old(store.refs), ref, ours) ==> r.Ok?
    {
      base := Zero;
      var b := MergeBase(store, ours, theirs);
      if b.Err? { return Err(NotFound), base; }
      base := b.value;
      TreesReady(store.objects, ours, theirs, b.value);
      var m := TreeMerge.MergeTrees(store, TreeOf(store.objects, b.value),
                                    TreeOf(store.objects, ours), TreeOf(store.objects, theirs));
      GrowthKeepsInv(old(store.objects), store.objects, store.refs);
      if m.Err? { return Err(NotFound), base; }
      var (tree, conflicts) := m.value;
      if |conflicts| > 0 { return Ok(Conflicted(conflicts)), base; }
      TreeMerge.MergeExact(CommitTree(base), CommitTree(ours), CommitTree(theirs));
      var c := H(Object.Commit(tree, [ours, theirs], meta));
      ghost var objs1 := store.objects;
      store.PutObject(c, c.obj);
      GrowthKeepsInv(objs1, store.objects, store.refs);
      if meta.legible { MergeStored(old(store.objects), objs1, store.objects, store.refs, ref, ours, theirs, c); }
      var moved := store.CASRef(ref, ours, c);
      if moved.Err? { return Err(moved.error), base; }
      return Ok(Merged(c)), base;
    }

    /** Commits the inverse of `target`'s changes on HEAD's branch. */
    method Revert(target: Hash, meta: Meta) returns (r: Result<Hash>)
      requires ContentAddressed(store.objects) && HeadTreeGood(store.objects, store.refs)
      requires LoadCommit(store.objects, target).Ok? ==> TargetTreesCanon(target)
      modifies store
      ensures ContentAddressed(store.objects) && Grows(old(store.objects), store.objects)
      ensures RepoInv(old(store.objects), old(store.refs)) && (r.Err? || meta.legible) ==>
                RepoInv(store.objects, store.refs)
      ensures r.Ok? ==> staging == map[] && RevertReady(old(store.objects), old(store.refs), target)
      ensures TargetTreesIn(old(store.objects), target) ==>
                (staging == map[] && RevertReady(old(store.objects), old(store.refs), target) ==> r.Ok?)
      ensures r.Ok? ==>
                && MovesHead(old(store.objects), old(store.refs), store.refs, r.value)
                && var head := ReadHEAD(old(store.objects), old(store.refs)).value;
                   var tree := Reverted(CommitTree(head.commit), FirstParentTree(target), CommitTree(target));
                   r.value == H(Object.Commit(tree, [head.commit], meta))
      ensures r.Err? ==> store.refs == old(store.refs)
    {
      if staging != map[] { return Err(Refused); }
      var tc := LoadCommit(store.objects, target);
      if tc.Err? { return Err(tc.error); }
      var parentTree := Zero;
      if |tc.value.parents| > 0 {
        var pc := LoadCommit(store.objects, tc.value.parents[0]);
        if pc.Err? { return Err(pc.error); }
        parentTree := pc.value.tree;
      }
      assert parentTree == FirstParentTree(target);
      var hd := ReadHEAD(store.objects, store.refs);
      if hd.Err? { return Err(hd.error); }
      var head := hd.value;
      if head.commit.Zero? { return Err(Refused); }
      var hc := LoadCommit(store.objects, head.commit);
      if hc.Err? { return Err(hc.error); }
      var changes := History.Diff(store, parentTree, tc.value.tree);
      if changes.Err? { return Err(changes.error); }
      NoChangesIffSameMap(parentTree, tc.value.tree);
      if |changes.value| == 0 { return Err(Refused); }
      NothingToDoIff(hc.value.tree, parentTree, tc.value.tree);
      History.ReplayEdits(parentTree, tc.value.tree, changes.value, true);
      var applied := ApplyEdits(store, hc.value.tree, History.EditsOf(changes.value, true));
      InvGrows(old(store.objects), store.objects, store.refs);
      if applied.Err? { return Err(NotFound); }
      if applied.value == hc.value.tree { return Err(Refused); }
      RevertedMap(hc.value.tree, parentTree, tc.value.tree, [], "");
      r := AddCommit(head, applied.value, meta, old(store.objects));
    }
  }

  /** The owner test made before a set is encoded: no record carries another name. Among the modelled records only
      signatures carry one of their own; the others are named by the caller. */
  predicate OneOwner(owner: string, rrs: seq<RR>) {
    forall i :: 0 <= i < |rrs| ==> NamedBy(owner, rrs[i])
  }

  /** Two names count as one when they differ in case and in a final dot only. */
  lemma OneOwnerIff(owner: string, rrs: seq<RR>)
    ensures OneOwner(owner, rrs) <==> forall x :: x in rrs && x.RRSIG? ==> CaseVariants(Dotted(x.owner), Dotted(owner))
  {
    forall x | x in rrs && x.RRSIG? ensures NamedBy(owner, x) <==> CaseVariants(Dotted(x.owner), Dotted(owner)) {
      FullOwnerIsDotted(x.owner);
      FullOwnerIsDotted(owner);
      FoldsCase(Dotted(x.owner), Dotted(owner));
    }
    if OneOwner(owner, rrs) {
      forall x | x in rrs ensures NamedBy(owner, x) {
        var i :| 0 <= i < |rrs| && rrs[i] == x;
      }
    }
  }

  function Dotted(s: string): string {
    if s != "" && s[|s| - 1] == '.' then s else s + "."
  }

  lemma FullOwnerIsDotted(owner: string)
    ensures FullOwner(owner) == Lower(Dotted(owner))
  {
    EndsWith(Lower(owner), '.');
    assert Lower(".") == ".";
    LowerConcat(owner, ".");
  }

  predicate NamedBy(owner: string, x: RR) {
    x.RRSIG? ==> FullOwner(x.owner) == FullOwner(owner)
  }

  function FullOwner(owner: string): string {
    if HasSuffix(Lower(owner), ".") then Lower(owner) else Lower(owner) + "."
  }
}
