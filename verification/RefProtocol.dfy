/** Several handles on one store: every operation reads a tip, computes its
    next commit, and moves the ref by compare-and-swap. */
module RefProtocol {
  import opened Objects
  import opened MemStore
  import opened Ancestry
  import Refs
  import Repo

  type Writer = nat

  datatype Phase =
    | Idle
    | Holding(ref: string, tip: Hash)
    | Ready(ref: string, expected: Hash, next: Hash)

  /** One successful ref move. */
  datatype Move = Move(ref: string, from: Hash, to: Hash)

  datatype State = State(refs: map<string, Hash>, phases: map<Writer, Phase>, log: seq<Move>)

  function PhaseOf(st: State, w: Writer): Phase {
    if w in st.phases then st.phases[w] else Idle
  }

  // ---------- what the operations propose ----------

  /** The next tips Commit, Merge and Revert compute from the tip they read:
      a child of it, a merge of it with another tip, or, fast-forward, a
      proper descendant; on an orphan branch any existing commit. */
  predicate Proposes(tip: Hash, next: Hash) {
    && next.H?
    && (|| Repo.IsChildOf(next, tip)
        || (next.obj.Commit? && |next.obj.parents| == 2 && next.obj.parents[0] == tip)
        || tip.Zero?
        || (tip in Ancs(next) && next != tip))
  }

  /** A proposal is a strict advance. */
  lemma ProposalAdvances(tip: Hash, next: Hash)
    requires Proposes(tip, next)
    ensures next != tip && (tip.Zero? || tip in Ancs(next))
  {
    if tip.H? && next.obj.Commit? && |next.obj.parents| > 0 && next.obj.parents[0] == tip {
      ParentIsAncestor(next, 0);
      ParentStepSmaller(next, 0);
    }
  }

  // ---------- steps ----------

  predicate Init(st: State) {
    st.phases == map[] && st.log == []
  }

  predicate ReadTip(st: State, st': State, w: Writer, ref: string) {
    st' == st.(phases := st.phases[w := Holding(ref, GetRefOf(st.refs, ref))])
  }

  predicate Propose(st: State, st': State, w: Writer, next: Hash) {
    && PhaseOf(st, w).Holding?
    && Proposes(PhaseOf(st, w).tip, next)
    && st' == st.(phases := st.phases[w := Ready(PhaseOf(st, w).ref, PhaseOf(st, w).tip, next)])
  }

  /** The compare-and-swap; a loser changes nothing. */
  predicate Swap(st: State, st': State, w: Writer) {
    && PhaseOf(st, w).Ready?
    && var Ready(ref, expected, next) := PhaseOf(st, w);
       if CasMatches(st.refs, ref, expected)
       then st' == State(st.refs[ref := next], st.phases[w := Idle], st.log + [Move(ref, expected, next)])
       else st' == st.(phases := st.phases[w := Idle])
  }

  predicate GiveUp(st: State, st': State, w: Writer) {
    st' == st.(phases := st.phases[w := Idle])
  }

  ghost predicate StepOf(st: State, st': State, w: Writer) {
    || (exists ref: string :: ReadTip(st, st', w, ref))
    || (exists next: Hash :: Propose(st, st', w, next))
    || Swap(st, st', w)
    || GiveUp(st, st', w)
  }

  /** Any writer takes any of its steps. */
  ghost predicate Next(st: State, st': State) {
    exists w: Writer :: StepOf(st, st', w)
  }

  ghost predicate StepAt(sts: seq<State>, i: nat)
    requires i + 1 < |sts|
  {
    Next(sts[i], sts[i + 1])
  }

  ghost predicate Run(sts: seq<State>) {
    && |sts| > 0 && Init(sts[0])
    && forall i :: 0 <= i < |sts| - 1 ==> StepAt(sts, i)
  }

  /** Reading a tip, proposing and swapping, one after another. */
  ghost predicate ReadsProposesSwaps(st: State, st': State, w: Writer, ref: string, next: Hash) {
    exists s1, s2 :: ReadTip(st, s1, w, ref) && Propose(s1, s2, w, next) && Swap(s2, st', w)
  }

  /** Undisturbed, the three steps move exactly the one ref. */
  lemma UndisturbedMove(st: State, w: Writer, ref: string, next: Hash)
    returns (st': State)
    requires Proposes(GetRefOf(st.refs, ref), next)
    ensures ReadsProposesSwaps(st, st', w, ref, next)
    ensures st'.refs == st.refs[ref := next]
  {
    var tip := GetRefOf(st.refs, ref);
    var s1 := st.(phases := st.phases[w := Holding(ref, tip)]);
    var s2 := s1.(phases := s1.phases[w := Ready(ref, tip, next)]);
    st' := State(st.refs[ref := next], s2.phases[w := Idle], st.log + [Move(ref, tip, next)]);
    assert ReadTip(st, s1, w, ref) && Propose(s1, s2, w, next) && Swap(s2, st', w);
  }

  /** The ref change that Commit and Revert promise is these three steps. */
  lemma ChildIsProposed(st: State, w: Writer, objs: Objs, refs': map<string, Hash>, c: Hash)
    returns (st': State, ref: string)
    requires Repo.MovesHead(objs, st.refs, refs', c)
    ensures ReadsProposesSwaps(st, st', w, ref, c) && st'.refs == refs'
  {
    var head := Refs.ReadHEAD(objs, st.refs).value;
    ref := Refs.BranchRef(head.zone, head.branch);
    st' := UndisturbedMove(st, w, ref, c);
  }

  /** So is the ref change of a merge that moves the branch at all. */
  lemma MergeIsProposed(st: State, w: Writer, res: Repo.MergeResult, ours: Hash, theirs: Hash, base: Hash,
      meta: Meta, refs': map<string, Hash>, ref: string)
    returns (st': State)
    requires Repo.MergeOutcome(res, ours, theirs, base, meta, st.refs, refs', ref) && theirs.H?
    ensures if res.FastForward? || res.Merged? then ReadsProposesSwaps(st, st', w, ref, res.commit) else st' == st
    ensures st'.refs == refs'
  {
    st' := st;
    if res.FastForward? || res.Merged? {
      if ours.H? { assert ours in Ancs(ours); }
      st' := UndisturbedMove(st, w, ref, res.commit);
    }
  }

  // ---------- invariant ----------

  ghost predicate ReadyOk(st: State) {
    forall w :: w in st.phases && st.phases[w].Ready? ==> Proposes(st.phases[w].expected, st.phases[w].next)
  }

  /** What the log says about the current tips: each move is a strict advance
      whose result is still part of the branch, and no tip was left twice. */
  ghost predicate LogOk(st: State) {
    && (forall k :: 0 <= k < |st.log| ==>
          && Proposes(st.log[k].from, st.log[k].to)
          && st.log[k].ref in st.refs && st.log[k].to in Ancs(st.refs[st.log[k].ref]))
    && (forall j, k :: 0 <= j < k < |st.log| && st.log[j].ref == st.log[k].ref ==> st.log[j].from != st.log[k].from)
  }

  ghost predicate Inv(st: State) {
    ReadyOk(st) && LogOk(st)
  }

  /** A tip that was left is never the current tip again. */
  lemma LeftForGood(from: Hash, to: Hash, cur: Hash)
    requires Proposes(from, to) && to in Ancs(cur)
    ensures from != cur
  {
    ProposalAdvances(from, to);
    if from == cur { AncsAntisymmetric(from, to); }
  }

  lemma SwapKeepsLog(st: State, ref: string, next: Hash)
    requires LogOk(st) && CasMatches(st.refs, ref, GetRefOf(st.refs, ref)) && Proposes(GetRefOf(st.refs, ref), next)
    ensures LogOk(State(st.refs[ref := next], st.phases, st.log + [Move(ref, GetRefOf(st.refs, ref), next)]))
  {
    var cur := GetRefOf(st.refs, ref);
    ProposalAdvances(cur, next);
    assert next in Ancs(next);
    forall k | 0 <= k < |st.log| && st.log[k].ref == ref
      ensures st.log[k].to in Ancs(next) && st.log[k].from != cur
    {
      LeftForGood(st.log[k].from, st.log[k].to, cur);
      if cur.H? { AncsTransitive(st.log[k].to, cur, next); }
    }
  }

  lemma StepKeepsInv(st: State, st': State)
    requires Inv(st) && Next(st, st')
    ensures Inv(st')
    ensures forall ref :: ref in st.refs ==> ref in st'.refs
    ensures forall ref :: ref in st.refs && st.refs[ref].H? ==> st.refs[ref] in Ancs(st'.refs[ref])
  {
    assert forall ref :: ref in st.refs ==> st.refs[ref] in Ancs(st.refs[ref]);
    var w :| StepOf(st, st', w);
    if Swap(st, st', w) {
      var Ready(ref, expected, next) := PhaseOf(st, w);
      if CasMatches(st.refs, ref, expected) {
        SwapKeepsLog(st, ref, next);
        ProposalAdvances(expected, next);
      }
    }
  }

  lemma {:induction false} RunKeepsInv(sts: seq<State>, i: nat)
    requires Run(sts) && i < |sts|
    ensures Inv(sts[i])
    decreases i
  {
    if i > 0 {
      RunKeepsInv(sts, i - 1);
      assert StepAt(sts, i - 1);
      StepKeepsInv(sts[i - 1], sts[i]);
    }
  }

  // ---------- theorems over whole runs ----------

  /** Every past tip of a branch stays an ancestor of its current tip. */
  lemma {:induction false} TipsOnlyAdvance(sts: seq<State>, i: nat, j: nat, ref: string)
    requires Run(sts) && i <= j < |sts|
    requires ref in sts[i].refs && sts[i].refs[ref].H?
    ensures ref in sts[j].refs && sts[i].refs[ref] in Ancs(sts[j].refs[ref])
    decreases j
  {
    if i == j {
      assert sts[i].refs[ref] in Ancs(sts[i].refs[ref]);
    } else {
      TipsOnlyAdvance(sts, i, j - 1, ref);
      RunKeepsInv(sts, j - 1);
      var a, b := sts[j - 1], sts[j];
      assert StepAt(sts, j - 1);
      StepKeepsInv(a, b);
      if a.refs[ref].H? { AncsTransitive(sts[i].refs[ref], a.refs[ref], b.refs[ref]); }
    }
  }

  /** No lost update: whatever a writer once moved a branch to is part of the
      branch at the end of the run. */
  lemma NoLostUpdates(sts: seq<State>, i: nat, k: nat)
    requires Run(sts) && i < |sts| && k < |sts[i].log|
    ensures var m := sts[i].log[k]; m.ref in sts[i].refs && m.to in Ancs(sts[i].refs[m.ref])
  {
    RunKeepsInv(sts, i);
  }

  /** Of all writers that read the same tip of a branch, at most one ever
      moves the branch from it. */
  lemma OneWinnerPerTip(sts: seq<State>, i: nat, j: nat, k: nat)
    requires Run(sts) && i < |sts| && j < |sts[i].log| && k < |sts[i].log|
    requires sts[i].log[j].ref == sts[i].log[k].ref && sts[i].log[j].from == sts[i].log[k].from
    ensures j == k
  {
    RunKeepsInv(sts, i);
  }
}
