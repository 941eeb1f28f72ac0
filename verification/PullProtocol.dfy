/** Replication as a step system: the primary writes whenever it likes, the
    secondary lists, walks, fetches object by object and moves its ref, and
    may stop anywhere (pkg/replicate/client.go). */
module PullProtocol {
  import opened Objects
  import opened MemStore
  import opened Reach
  import opened Replicate
  import Transfer

  /** What the client is in the middle of. */
  datatype Job = Idle | Fetching(ref: string, target: Hash, local: Hash, todo: set<Hash>)

  datatype State = State(
    pObjs: Objs, pRefs: map<string, Hash>, past: map<string, set<Hash>>,
    sObjs: Objs, sRefs: map<string, Hash>,
    listed: map<string, Hash>, job: Job)

  function PastOf(st: State, ref: string): set<Hash> {
    if ref in st.past then st.past[ref] else {}
  }

  ghost predicate Init(st: State) {
    && st.pObjs == map[] && st.pRefs == map[] && st.past == map[]
    && st.sObjs == map[] && st.sRefs == map[] && st.listed == map[] && st.job == Idle
  }

  // ---------- steps of the primary ----------

  predicate PrimaryPut(st: State, st': State, h: Hash) {
    h.H? && st' == st.(pObjs := st.pObjs[h := h.obj])
  }

  /** A branch moves, forward or by reset, to a tip whose objects are stored. */
  ghost predicate PrimaryMove(st: State, st': State, ref: string, h: Hash) {
    && h.H? && Has(st.pObjs, h)
    && st' == st.(pRefs := st.pRefs[ref := h], past := st.past[ref := PastOf(st, ref) + {h}])
  }

  predicate PrimaryDelete(st: State, st': State, ref: string) {
    st' == st.(pRefs := st.pRefs - {ref})
  }

  // ---------- steps of the secondary ----------

  predicate List(st: State, st': State) {
    st.job.Idle? && st' == st.(listed := st.pRefs)
  }

  /** The walk's answer for a listed branch that differs locally. */
  ghost predicate Begin(st: State, st': State, ref: string, missing: set<Hash>) {
    && st.job.Idle? && ref in st.listed
    && var local := GetRefOf(st.sRefs, ref);
       && local != st.listed[ref]
       && Closure(st.listed[ref]) <= missing + Closure(local)
       && st' == st.(job := Fetching(ref, st.listed[ref], local, missing))
  }

  /** Whatever HandleWalk answers to the client's request, also when its
      known-walk stopped early, begins a job. */
  lemma WalkBegins(st: State, ref: string, missing: set<Hash>) returns (st': State)
    requires st.job.Idle? && ref in st.listed && GetRefOf(st.sRefs, ref) != st.listed[ref]
    requires
      var local := GetRefOf(st.sRefs, ref);
      ClosureAll([st.listed[ref]]) <= missing + ClosureAll(if local.H? then [local] else [])
    ensures Begin(st, st', ref, missing)
  {
    var local := GetRefOf(st.sRefs, ref);
    ClosureAllOne(st.listed[ref]);
    ClosureAllOne(local);
    st' := st.(job := Fetching(ref, st.listed[ref], local, missing));
  }

  /** One missing object: skipped if present, else taken from the primary. */
  predicate Fetch(st: State, st': State, h: Hash) {
    && st.job.Fetching? && h in st.job.todo
    && (h in st.sObjs || h in st.pObjs)
    && st' == st.(sObjs := if h in st.sObjs then st.sObjs else st.sObjs[h := st.pObjs[h]],
                  job := st.job.(todo := st.job.todo - {h}))
  }

  /** The client or the network gives up; fetched objects stay. */
  predicate Abort(st: State, st': State) {
    st' == st.(job := Idle)
  }

  predicate Finish(st: State, st': State) {
    && st.job.Fetching? && st.job.todo == {}
    && st' == st.(sRefs := if CasMatches(st.sRefs, st.job.ref, st.job.local)
                           then st.sRefs[st.job.ref := st.job.target] else st.sRefs,
                  job := Idle)
  }

  datatype Step =
    | Putting(h: Hash)
    | Moving(ref: string, h: Hash)
    | Deleting(ref: string)
    | Listing
    | Beginning(ref: string, missing: set<Hash>)
    | GettingOne(h: Hash)
    | Aborting
    | Finishing

  ghost predicate NextBy(st: State, st': State, step: Step) {
    match step
    case Putting(h) => PrimaryPut(st, st', h)
    case Moving(ref, h) => PrimaryMove(st, st', ref, h)
    case Deleting(ref) => PrimaryDelete(st, st', ref)
    case Listing => List(st, st')
    case Beginning(ref, missing) => Begin(st, st', ref, missing)
    case GettingOne(h) => Fetch(st, st', h)
    case Aborting => Abort(st, st')
    case Finishing => Finish(st, st')
  }

  ghost predicate Next(st: State, st': State) {
    exists step :: NextBy(st, st', step)
  }

  ghost predicate StepAt(sts: seq<State>, i: nat)
    requires i + 1 < |sts|
  {
    Next(sts[i], sts[i + 1])
  }

  ghost predicate Run(sts: seq<State>) {
    && |sts| > 0 && Init(sts[0])
    && forall i :: 0 <= i < |sts| - 1 ==> StepAt(sts, i)
  }

  // ---------- invariant ----------

  ghost predicate TipsHeld(st: State) {
    forall ref :: ref in st.sRefs ==> Has(st.sObjs, st.sRefs[ref])
  }

  ghost predicate TipsFromPrimary(st: State) {
    && (forall ref :: ref in st.sRefs ==> st.sRefs[ref] in PastOf(st, ref))
    && (forall ref :: ref in st.listed ==> st.listed[ref] in PastOf(st, ref))
    && (forall ref :: ref in st.pRefs ==> st.pRefs[ref] in PastOf(st, ref))
  }

  ghost predicate JobOk(st: State) {
    st.job.Fetching? ==>
      && Closure(st.job.target) <= st.job.todo + st.sObjs.Keys
      && st.job.target in PastOf(st, st.job.ref)
  }

  ghost predicate Inv(st: State) {
    && ContentAddressed(st.pObjs) && ContentAddressed(st.sObjs)
    && TipsHeld(st) && TipsFromPrimary(st) && JobOk(st)
  }

  lemma StepKeepsHeld(st: State, st': State, step: Step)
    requires Inv(st) && NextBy(st, st', step)
    ensures ContentAddressed(st'.pObjs) && ContentAddressed(st'.sObjs)
    ensures TipsHeld(st') && st.sObjs.Keys <= st'.sObjs.Keys
  {
    match step {
      case Finishing =>
        assert Closure(st.job.target) <= st.sObjs.Keys;
      case _ =>
    }
  }

  lemma StepKeepsTips(st: State, st': State, step: Step)
    requires Inv(st) && NextBy(st, st', step)
    ensures TipsFromPrimary(st')
  {
    assert forall ref :: PastOf(st, ref) <= PastOf(st', ref);
  }

  lemma StepKeepsJob(st: State, st': State, step: Step)
    requires Inv(st) && NextBy(st, st', step)
    ensures JobOk(st')
  {
    match step {
      case Beginning(ref, missing) =>
        var local := GetRefOf(st.sRefs, ref);
        if ref in st.sRefs { assert Has(st.sObjs, local); }
      case GettingOne(h) =>
      case Moving(ref, h) =>
      case _ =>
    }
  }

  lemma StepKeepsInv(st: State, st': State)
    requires Inv(st) && Next(st, st')
    ensures Inv(st')
    ensures st.sObjs.Keys <= st'.sObjs.Keys
  {
    var step :| NextBy(st, st', step);
    StepKeepsHeld(st, st', step);
    StepKeepsTips(st, st', step);
    StepKeepsJob(st, st', step);
  }

  lemma StepExtendsPast(st: State, st': State, step: Step, ref: string, h: Hash)
    requires NextBy(st, st', step) && h in PastOf(st', ref) && h !in PastOf(st, ref)
    ensures ref in st'.pRefs && st'.pRefs[ref] == h
  {
  }

  lemma {:induction false} RunKeepsInv(sts: seq<State>, i: nat)
    requires Run(sts) && i < |sts|
    ensures Inv(sts[i])
    decreases i
  {
    if i == 0 {
    } else {
      RunKeepsInv(sts, i - 1);
      assert StepAt(sts, i - 1);
      StepKeepsInv(sts[i - 1], sts[i]);
    }
  }

  /** In every state of every run, whatever was interrupted, the secondary
      holds everything its branches reach, so that every commit below a tip can
      be read with its zone, and each tip was once that branch's tip on the
      primary. */
  lemma SecondaryAlwaysWhole(sts: seq<State>, i: nat, ref: string)
    requires Run(sts) && i < |sts| && ref in sts[i].sRefs
    ensures forall x :: x in Closure(sts[i].sRefs[ref]) ==> Holds(sts[i].sObjs, x)
    ensures Readable(sts[i].sObjs, sts[i].sRefs[ref])
    ensures sts[i].sRefs[ref] in PastOf(sts[i], ref)
  {
    RunKeepsInv(sts, i);
    assert Has(sts[i].sObjs, sts[i].sRefs[ref]);
    HasMeansReadable(sts[i].sObjs, sts[i].sRefs[ref]);
  }

  /** So in every state of every run each branch whose history is well formed
      can be served onward, in full and as a delta. */
  lemma SecondaryServes(sts: seq<State>, i: nat, ref: string)
    requires Run(sts) && i < |sts| && ref in sts[i].sRefs && Transfer.WellFormedHistory(sts[i].sRefs[ref])
    ensures Transfer.ZoneStored(sts[i].sObjs, sts[i].sRefs[ref])
  {
    SecondaryAlwaysWhole(sts, i, ref);
    RunKeepsInv(sts, i);
    Transfer.PulledZoneServes(sts[i].sObjs, sts[i].sRefs[ref]);
  }

  /** `past` records nothing but tips the primary really had. */
  lemma {:induction false} PastIsHistory(sts: seq<State>, i: nat, ref: string, h: Hash)
    requires Run(sts) && i < |sts| && h in PastOf(sts[i], ref)
    ensures exists j :: 0 <= j <= i && ref in sts[j].pRefs && sts[j].pRefs[ref] == h
    decreases i
  {
    if i > 0 {
      var a, b := sts[i - 1], sts[i];
      assert StepAt(sts, i - 1);
      if h in PastOf(a, ref) {
        PastIsHistory(sts, i - 1, ref, h);
      } else {
        var step :| NextBy(a, b, step);
        StepExtendsPast(a, b, step, ref, h);
      }
    }
  }
}
