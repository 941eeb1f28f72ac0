/** The primary's missing-object walk (pkg/replicate/server.go) and the
    secondary's pull (pkg/replicate/client.go). */
module Replicate {
  import opened Objects
  import opened TreeNode
  import opened MemStore
  import opened Names
  import opened Refs
  import opened Reach
  import opened TreeOps
  import opened Ancestry

  /** The walk can descend below `h`. */
  predicate Walkable(objs: Objs, h: Hash) {
    Holds(objs, h) && (h.obj.Tree? ==> Accepted(h.obj.entries)) && (h.obj.Commit? ==> h.obj.meta.legible)
  }

  ghost predicate Complete(objs: Objs, h: Hash) {
    forall x :: x in Closure(h) ==> Walkable(objs, x)
  }

  ghost predicate AllWalkable(objs: Objs) {
    forall x :: x in objs ==> Walkable(objs, x)
  }

  // ---------- the two depth-first walks ----------

  /** A shared visited map, counting the objects fetched through it. */
  class Marks {
    var marks: set<Hash>
    var loads: nat

    constructor ()
      ensures marks == {} && loads == 0
    {
      marks, loads := {}, 0;
    }
  }

  /** Each of the given nodes has all its children in `marks` or in `known`. */
  ghost predicate Settled(nodes: set<Hash>, marks: set<Hash>, known: set<Hash>) {
    forall x, i :: x in nodes && 0 <= i < |Children(x)| ==>
      Children(x)[i].Zero? || Children(x)[i] in marks || Children(x)[i] in known
  }

  /** Whatever has been marked since `start` loads. */
  ghost predicate Loaded(objs: Objs, start: set<Hash>, marks: set<Hash>) {
    forall x :: x in marks ==> x in start || Walkable(objs, x)
  }

  /** Fetches and decodes an object, listing its children. */
  method LoadChildren(objs: Objs, h: Hash) returns (r: Result<seq<Hash>>)
    requires ContentAddressed(objs) && h.H?
    ensures r.Ok? <==> Walkable(objs, h)
    ensures r.Ok? ==> r.value == Children(h)
    ensures h !in objs ==> r == Err(NotFound)
  {
    if h !in objs { return Err(NotFound); }
    var obj := objs[h];
    match obj {
      case Tree(entries) =>
        if !Accepted(entries) { return Err(InvalidObject); }
      case Commit(_, _, meta) =>
        if !meta.legible { return Err(InvalidObject); }
      case _ =>
    }
    return Ok(Children(h));
  }

  ghost predicate ChildrenDone(h: Hash, n: nat, marks: set<Hash>, known: set<Hash>)
    requires n <= |Children(h)|
  {
    forall j :: 0 <= j < n ==> Children(h)[j].Zero? || Children(h)[j] in marks || Children(h)[j] in known
  }

  /** Mark, fetch, descend; nodes in `known` or already marked are skipped.
      With nothing known this is walkReachable, otherwise walkMissing. */
  method Walk(objs: Objs, h: Hash, known: set<Hash>, v: Marks) returns (r: Result<()>)
    requires ContentAddressed(objs)
    modifies v
    ensures old(v.marks) <= v.marks <= old(v.marks) + (Closure(h) - known)
    ensures v.loads - old(v.loads) == |v.marks| - |old(v.marks)|
    ensures r.Ok? ==> h.Zero? || h in v.marks || h in known
    ensures r.Ok? ==> Settled(v.marks - old(v.marks), v.marks, known)
    ensures r.Ok? ==> Loaded(objs, old(v.marks), v.marks)
    ensures Complete(objs, h) ==> r.Ok?
    ensures AllWalkable(objs) && r.Err? ==> r.error == NotFound
    decreases h, 1
  {
    if h.Zero? || h in known || h in v.marks { return Ok(()); }
    ghost var before := v.marks;
    v.marks, v.loads := v.marks + {h}, v.loads + 1;
    var cs := LoadChildren(objs, h);
    if cs.Err? { assert h in Closure(h) && !Walkable(objs, h); return Err(cs.error); }
    r := WalkChildren(objs, h, known, v);
    if r.Ok? {
      assert v.marks - before == {h} + (v.marks - (before + {h}));
      SettledGrows({h}, v.marks - (before + {h}), v.marks, v.marks, known);
    }
  }

  /** Walks every child of a marked node. */
  method WalkChildren(objs: Objs, h: Hash, known: set<Hash>, v: Marks) returns (r: Result<()>)
    requires ContentAddressed(objs) && h.H? && h in v.marks && h !in known
    modifies v
    ensures old(v.marks) <= v.marks <= old(v.marks) + (Closure(h) - known)
    ensures v.loads - old(v.loads) == |v.marks| - |old(v.marks)|
    ensures r.Ok? ==> ChildrenDone(h, |Children(h)|, v.marks, known)
    ensures r.Ok? ==> Settled(v.marks - old(v.marks), v.marks, known)
    ensures r.Ok? ==> Loaded(objs, old(v.marks), v.marks)
    ensures Complete(objs, h) ==> r.Ok?
    ensures AllWalkable(objs) && r.Err? ==> r.error == NotFound
    decreases h, 0
  {
    var cs := Children(h);
    for i := 0 to |cs|
      invariant old(v.marks) <= v.marks <= old(v.marks) + (Closure(h) - known)
      invariant v.loads - old(v.loads) == |v.marks| - |old(v.marks)|
      invariant WalkedUpTo(h, i, old(v.marks), v.marks, known) && Loaded(objs, old(v.marks), v.marks)
    {
      ghost var before := v.marks;
      ClosureOfChild(objs, h, i);
      r := Walk(objs, cs[i], known, v);
      if r.Err? { return; }
      OneMoreChild(h, i, old(v.marks), before, v.marks, known);
    }
    return Ok(());
  }

  /** The first n children are dealt with, and so is all that was marked since. */
  ghost predicate WalkedUpTo(h: Hash, n: nat, start: set<Hash>, marks: set<Hash>, known: set<Hash>)
    requires n <= |Children(h)|
  {
    Settled(marks - start, marks, known) && ChildrenDone(h, n, marks, known)
  }

  lemma OneMoreChild(h: Hash, i: nat, start: set<Hash>, before: set<Hash>, marks: set<Hash>, known: set<Hash>)
    requires i < |Children(h)| && start <= before <= marks && WalkedUpTo(h, i, start, before, known)
    requires Settled(marks - before, marks, known)
    requires Children(h)[i].Zero? || Children(h)[i] in marks || Children(h)[i] in known
    ensures WalkedUpTo(h, i + 1, start, marks, known)
  {
    SettledGrows(before - start, marks - before, before, marks, known);
    assert marks - start == (before - start) + (marks - before);
  }

  lemma ClosureOfChild(objs: Objs, h: Hash, i: nat)
    requires h.H? && i < |Children(h)|
    ensures Closure(Children(h)[i]) <= Closure(h)
    ensures Complete(objs, h) ==> Complete(objs, Children(h)[i])
  {
    forall x | x in Closure(Children(h)[i]) ensures x in Closure(h) { ChildInClosure(h, i, x); }
  }

  lemma SettledGrows(a: set<Hash>, b: set<Hash>, marks: set<Hash>, marks': set<Hash>, known: set<Hash>)
    requires Settled(a, marks, known) && marks <= marks' && Settled(b, marks', known)
    ensures Settled(a + b, marks', known)
  {
  }

  /** Skipping at known nodes loses nothing but what they reach themselves. */
  lemma {:induction false} SettledCovers(h: Hash, marks: set<Hash>, known: set<Hash>, x: Hash)
    requires h.Zero? || h in marks || h in known
    requires Settled(marks, marks, known)
    requires x in Closure(h)
    ensures x in marks || exists k :: k in known && x in Closure(k)
    decreases h
  {
    if h in marks && x != h {
      var i :| 0 <= i < |Children(h)| && x in Closure(Children(h)[i]);
      SettledCovers(Children(h)[i], marks, known, x);
    }
  }

  // ---------- the walk request ----------

  /** The first `n` starting points are accounted for. */
  ghost predicate StartsDone(hs: seq<Hash>, n: nat, marks: set<Hash>, known: set<Hash>)
    requires n <= |hs|
  {
    forall j :: 0 <= j < n ==> hs[j].Zero? || hs[j] in marks || hs[j] in known
  }

  lemma NextStart(hs: seq<Hash>, i: nat, before: set<Hash>, marks: set<Hash>, known: set<Hash>)
    requires i < |hs| && StartsDone(hs, i, before, known) && Settled(before, before, known)
    requires before <= marks && Settled(marks - before, marks, known)
    requires hs[i].Zero? || hs[i] in marks || hs[i] in known
    ensures StartsDone(hs, i + 1, marks, known) && Settled(marks, marks, known)
  {
    SettledGrows(before, marks - before, before, marks, known);
    assert marks == before + (marks - before);
  }

  lemma AllCovered(hs: seq<Hash>, marks: set<Hash>, known: set<Hash>, x: Hash)
    requires StartsDone(hs, |hs|, marks, known) && Settled(marks, marks, known)
    requires x in ClosureAll(hs)
    ensures x in marks || exists k :: k in known && x in Closure(k)
  {
    var i :| 0 <= i < |hs| && x in Closure(hs[i]);
    SettledCovers(hs[i], marks, known, x);
  }

  lemma ClosureInAll(hs: seq<Hash>, i: nat)
    requires i < |hs|
    ensures Closure(hs[i]) <= ClosureAll(hs)
  {
  }

  lemma KnownReach(known: seq<Hash>, k: Hash, x: Hash)
    requires k in ClosureAll(known) && x in Closure(k)
    ensures x in ClosureAll(known)
  {
    var j :| 0 <= j < |known| && k in Closure(known[j]);
    ClosureTransitive(x, k, known[j]);
  }

  ghost predicate AllComplete(objs: Objs, hs: seq<Hash>) {
    forall i :: 0 <= i < |hs| ==> Complete(objs, hs[i])
  }

  /** Expands the known hashes; a missing object only stops its own walk. */
  method ExpandKnown(objs: Objs, known: seq<Hash>) returns (r: Result<set<Hash>>)
    requires ContentAddressed(objs)
    ensures r.Ok? ==> r.value <= ClosureAll(known)
    ensures r.Ok? && AllComplete(objs, known) ==> r.value == ClosureAll(known)
    ensures AllWalkable(objs) ==> r.Ok?
  {
    var v := new Marks();
    ghost var whole := AllComplete(objs, known);
    for i := 0 to |known|
      invariant v.marks <= ClosureAll(known)
      invariant whole ==> Settled(v.marks, v.marks, {}) && StartsDone(known, i, v.marks, {})
    {
      ghost var before := v.marks;
      ClosureInAll(known, i);
      var w := Walk(objs, known[i], {}, v);
      if w.Err? && w.error != NotFound { return Err(w.error); }
      if whole {
        assert Complete(objs, known[i]);
        NextStart(known, i, before, v.marks, {});
      }
    }
    if whole { NothingElse(known, v.marks); }
    return Ok(v.marks);
  }

  lemma NothingElse(hs: seq<Hash>, marks: set<Hash>)
    requires StartsDone(hs, |hs|, marks, {}) && Settled(marks, marks, {}) && marks <= ClosureAll(hs)
    ensures marks == ClosureAll(hs)
  {
    forall x | x in ClosureAll(hs) ensures x in marks { AllCovered(hs, marks, {}, x); }
  }

  /** The object is stored and reads: a commit decodes, a node is in order. */
  predicate Decodes(objs: Objs, h: Hash) {
    && h in objs && h == H(objs[h])
    && (objs[h].Commit? ==> IsCommit(objs[h]))
    && (objs[h].Tree? ==> LoadTree(objs, h).Ok?)
  }

  /** Answers a walk request: what the roots reach and the known set does not. */
  method HandleWalk(objs: Objs, roots: seq<Hash>, known: seq<Hash>) returns (r: Result<set<Hash>>)
    requires ContentAddressed(objs)
    ensures r.Ok? ==> r.value <= ClosureAll(roots) <= r.value + ClosureAll(known)
    ensures r.Ok? && AllComplete(objs, known) ==> r.value == ClosureAll(roots) - ClosureAll(known)
    ensures r.Ok? ==> forall x :: x in r.value ==> Decodes(objs, x)
    ensures AllWalkable(objs) && AllComplete(objs, roots) ==> r.Ok?
  {
    var e := ExpandKnown(objs, known);
    if e.Err? { return e; }
    var k := e.value;
    var v := new Marks();
    for i := 0 to |roots|
      invariant v.marks <= ClosureAll(roots) - k && Loaded(objs, {}, v.marks)
      invariant Settled(v.marks, v.marks, k) && StartsDone(roots, i, v.marks, k)
    {
      ghost var before := v.marks;
      ClosureInAll(roots, i);
      var w := Walk(objs, roots[i], k, v);
      if w.Err? { return Err(w.error); }
      NextStart(roots, i, before, v.marks, k);
    }
    forall x | x in ClosureAll(roots) ensures x in v.marks || x in ClosureAll(known) {
      AllCovered(roots, v.marks, k, x);
      if x !in v.marks {
        var y :| y in k && x in Closure(y);
        KnownReach(known, y, x);
      }
    }
    return Ok(v.marks);
  }

  // ---------- pulling one branch ----------

  lemma ClosureAllOne(h: Hash)
    ensures ClosureAll([h]) == Closure(h) && ClosureAll([]) == {}
  {
    forall x ensures x in ClosureAll([h]) <==> x in Closure(h) {
      if x in Closure(h) { assert x in Closure([h][0]); }
    }
  }

  /** The local objects with these hashes fetched: an object already present is
      kept, any other is stored as served. */
  function Fetched(local: Objs, served: Objs, hs: set<Hash>): Objs
    requires hs <= local.Keys + served.Keys
  {
    local + map h | h in hs - local.Keys :: served[h]
  }

  /** Every body that is really fetched is the one its hash names. */
  ghost predicate HonestFetch(local: Objs, served: Objs, hs: set<Hash>) {
    forall h :: h in hs && h !in local ==> Holds(served, h)
  }

  /** No hash is checked on insert: the local store stays content-addressed
      exactly when the primary was honest about every fetched object. */
  lemma FetchHonestIff(local: Objs, served: Objs, hs: set<Hash>)
    requires hs <= local.Keys + served.Keys && ContentAddressed(local)
    ensures ContentAddressed(Fetched(local, served, hs)) <==> HonestFetch(local, served, hs)
  {
    var after := Fetched(local, served, hs);
    if ContentAddressed(after) {
      forall h | h in hs && h !in local ensures Holds(served, h) { assert h in after && after[h] == served[h]; }
    }
  }

  /** A body that is not the one its hash names is stored all the same. */
  lemma WrongBodyAccepted()
    ensures
      var h := H(Raw("promised"));
      var served: Objs := map[h := Raw("delivered")];
      && Fetched(map[], served, {h})[h] == Raw("delivered")
      && !ContentAddressed(Fetched(map[], served, {h}))
  {
    var h := H(Raw("promised"));
    var served: Objs := map[h := Raw("delivered")];
    assert h in {h} && "promised"[0] != "delivered"[0];
    FetchHonestIff(map[], served, {h});
  }

  lemma FetchOneMore(local: Objs, served: Objs, hs: set<Hash>, h: Hash)
    requires hs <= local.Keys + served.Keys
    ensures h in Fetched(local, served, hs) ==>
              h in local.Keys + served.Keys && Fetched(local, served, hs + {h}) == Fetched(local, served, hs)
    ensures h !in Fetched(local, served, hs) && h in served ==>
              Fetched(local, served, hs + {h}) == Fetched(local, served, hs)[h := served[h]]
  {
  }

  /** The fetch loop; any single fetch may fail. Whatever the primary serves is
      stored under the hash that was asked for. */
  method FetchAll(local: Store, primary: Objs, unreachable: set<Hash>, missing: set<Hash>)
      returns (r: Result<()>, ghost got: set<Hash>)
    modifies local`objects
    ensures got <= missing && got <= old(local.objects).Keys + primary.Keys
    ensures local.objects == Fetched(old(local.objects), primary, got)
    ensures forall h :: h in old(local.objects) ==> h in local.objects && local.objects[h] == old(local.objects)[h]
    ensures forall h :: h in local.objects && h !in old(local.objects) ==>
              h in missing && h in primary && local.objects[h] == primary[h]
    ensures r.Ok? ==> got == missing
    ensures missing <= primary.Keys && unreachable == {} ==> r.Ok?
  {
    var left := missing;
    got := {};
    while left != {}
      invariant left <= missing && got == missing - left
      invariant got <= old(local.objects).Keys + primary.Keys
      invariant local.objects == Fetched(old(local.objects), primary, got)
      decreases left
    {
      var h :| h in left;
      FetchOneMore(old(local.objects), primary, got, h);
      if h !in local.objects {
        if h in unreachable || h !in primary { return Err(NotFound), got; }
        local.PutObject(h, primary[h]);
      }
      got, left := got + {h}, left - {h};
    }
    return Ok(()), got;
  }

  /** The primary can answer for everything below `target`. */
  ghost predicate CanServe(primary: Objs, target: Hash) {
    target.H? && AllWalkable(primary) && Complete(primary, target)
  }

  /** Walk, fetch everything missing, then move the ref. */
  method PullBranch(local: Store, primary: Objs, unreachable: set<Hash>, ref: string, target: Hash,
      localHash: Hash) returns (r: Result<()>)
    requires ContentAddressed(primary) && ContentAddressed(local.objects) && Has(local.objects, localHash)
    modifies local
    ensures ContentAddressed(local.objects) && old(local.objects.Keys) <= local.objects.Keys
    ensures r.Ok? ==> Has(local.objects, target) && local.refs == old(local.refs)[ref := target]
    ensures r.Ok? ==> Readable(local.objects, target)
    ensures r.Err? ==> local.refs == old(local.refs)
    ensures unreachable == {} && CanServe(primary, target) && CasMatches(old(local.refs), ref, localHash) ==> r.Ok?
  {
    var known := if localHash.H? then [localHash] else [];
    var walk := HandleWalk(primary, [target], known);
    ClosureAllOne(target);
    ClosureAllOne(localHash);
    if walk.Err? { return Err(walk.error); }
    ghost var objs0, got := local.objects, {};
    var fetched;
    fetched, got := FetchAll(local, primary, unreachable, walk.value);
    FetchHonestIff(objs0, primary, got);
    if fetched.Err? { return fetched; }
    assert Closure(target) <= walk.value + Closure(localHash);
    r := local.CASRef(ref, localHash, target);
    if r.Ok? { HasMeansReadable(local.objects, target); }
  }

  /** Everything reachable from a branch tip is stored; zone markers and HEAD are
      refs of other kinds. */
  ghost predicate AllTipsHeld(s: Store)
    reads s
  {
    && ContentAddressed(s.objects)
    && forall ref :: ref in s.refs && HasPrefix(ref, BRANCH_PREFIX) ==> Has(s.objects, s.refs[ref])
  }

  /** The history below every branch tip can be read, zones included. */
  ghost predicate TipsReadable(objs: Objs, refs: map<string, Hash>) {
    forall ref :: ref in refs && HasPrefix(ref, BRANCH_PREFIX) ==> Readable(objs, refs[ref])
  }

  lemma HeldTipsReadable(s: Store)
    requires AllTipsHeld(s)
    ensures TipsReadable(s.objects, s.refs)
  {
    forall ref | ref in s.refs && HasPrefix(ref, BRANCH_PREFIX) ensures Readable(s.objects, s.refs[ref]) {
      HasMeansReadable(s.objects, s.refs[ref]);
    }
  }

  /** One branch as the primary lists it. */
  datatype Branch = Branch(zone: string, name: string, hash: Hash)

  function RefOf(b: Branch): string {
    BranchRef(b.zone, b.name)
  }

  ghost predicate Listed(remote: seq<Branch>, ref: string, h: Hash) {
    exists i :: 0 <= i < |remote| && BranchRef(remote[i].zone, remote[i].name) == ref && remote[i].hash == h
  }

  /** Branches are kept, or set to what the primary listed for them; other refs
      are kept. */
  ghost predicate Synced(was: map<string, Hash>, now: map<string, Hash>, remote: seq<Branch>) {
    && (forall ref :: ref in was ==> ref in now)
    && (forall ref :: ref in now ==> (ref in was && now[ref] == was[ref]) || Listed(remote, ref, now[ref]))
  }

  ghost predicate InSync(refs: map<string, Hash>, remote: seq<Branch>, n: nat)
    requires n <= |remote|
  {
    forall i :: 0 <= i < n ==> GetRefOf(refs, BranchRef(remote[i].zone, remote[i].name)) == remote[i].hash
  }

  /** The branch step of a sync cycle. */
  method PullOne(local: Store, primary: Objs, unreachable: set<Hash>, b: Branch)
    requires ContentAddressed(primary) && AllTipsHeld(local)
    modifies local
    ensures AllTipsHeld(local) && TipsReadable(local.objects, local.refs)
    ensures local.refs == old(local.refs) || local.refs == old(local.refs)[RefOf(b) := b.hash]
    ensures unreachable == {} && CanServe(primary, b.hash) && NoZeroTip(old(local.refs), RefOf(b)) ==>
              GetRefOf(local.refs, RefOf(b)) == b.hash
  {
    BranchRefIsBranch(b.zone, b.name);
    var localHash := GetRefOf(local.refs, RefOf(b));
    if localHash != b.hash {
      var p := PullBranch(local, primary, unreachable, RefOf(b), b.hash, localHash);
    }
    HeldTipsReadable(local);
  }

  predicate NoZeroTip(refs: map<string, Hash>, ref: string) {
    ref in refs ==> refs[ref].H?
  }

  /** Everything the primary listed, once per branch, can be served. */
  ghost predicate Syncable(primary: Objs, refs: map<string, Hash>, remote: seq<Branch>) {
    && (forall i :: 0 <= i < |remote| ==> CanServe(primary, remote[i].hash) && NoZeroTip(refs, RefOf(remote[i])))
    && (forall i, j :: 0 <= i < j < |remote| ==> RefOf(remote[i]) != RefOf(remote[j]))
  }

  /** Those branches not yet pulled have no zero tip, those pulled are in sync. */
  ghost predicate SyncedUpTo(refs: map<string, Hash>, remote: seq<Branch>, n: nat)
    requires n <= |remote|
  {
    InSync(refs, remote, n) && forall j :: n <= j < |remote| ==> NoZeroTip(refs, RefOf(remote[j]))
  }

  lemma OneMoreInSync(was: map<string, Hash>, now: map<string, Hash>, remote: seq<Branch>, n: nat)
    requires n < |remote| && SyncedUpTo(was, remote, n)
    requires forall i, j :: 0 <= i < j < |remote| ==> RefOf(remote[i]) != RefOf(remote[j])
    requires now == was || now == was[RefOf(remote[n]) := remote[n].hash]
    requires GetRefOf(now, RefOf(remote[n])) == remote[n].hash
    ensures SyncedUpTo(now, remote, n + 1)
  {
    forall i | 0 <= i < n + 1 ensures GetRefOf(now, RefOf(remote[i])) == remote[i].hash {
      if i < n { assert RefOf(remote[i]) != RefOf(remote[n]); }
    }
    forall j | n + 1 <= j < |remote| ensures NoZeroTip(now, RefOf(remote[j])) {
      assert RefOf(remote[n]) != RefOf(remote[j]);
    }
  }

  /** Registers every zone the primary knows. */
  method RegisterAll(local: Store, zones: seq<string>) returns (r: Result<()>)
    requires AllTipsHeld(local)
    modifies local`refs
    ensures AllTipsHeld(local) && OnlyMarkers(old(local.refs), local.refs)
  {
    for i := 0 to |zones|
      invariant AllTipsHeld(local) && OnlyMarkers(old(local.refs), local.refs)
    {
      MarkerIsNoBranch(CanonZone(zones[i]));
      r := RegisterZone(local, zones[i]);
      if r.Err? { return r; }
    }
    return Ok(());
  }

  /** Only refs that are no branches have been added or changed. */
  ghost predicate OnlyMarkers(was: map<string, Hash>, now: map<string, Hash>) {
    && (forall ref :: ref in was ==> ref in now)
    && (forall ref :: ref in now && HasPrefix(ref, BRANCH_PREFIX) ==> ref in was && now[ref] == was[ref])
  }

  /** The branch loop of a sync cycle; a branch that fails is left alone. */
  method PullBranches(local: Store, primary: Objs, unreachable: set<Hash>, remote: seq<Branch>)
    requires ContentAddressed(primary) && AllTipsHeld(local)
    modifies local
    ensures AllTipsHeld(local) && Synced(old(local.refs), local.refs, remote)
    ensures Syncable(primary, old(local.refs), remote) && unreachable == {} ==> InSync(local.refs, remote, |remote|)
  {
    ghost var good := Syncable(primary, local.refs, remote) && unreachable == {};
    for i := 0 to |remote|
      invariant AllTipsHeld(local) && Synced(old(local.refs), local.refs, remote)
      invariant good ==> SyncedUpTo(local.refs, remote, i)
    {
      ghost var was := local.refs;
      PullOne(local, primary, unreachable, remote[i]);
      assert Listed(remote, RefOf(remote[i]), remote[i].hash);
      if good { OneMoreInSync(was, local.refs, remote, i); }
    }
  }

  /** One sync cycle: zones are registered first, then the branches the primary
      listed are pulled. */
  method Pull(local: Store, primary: Objs, unreachable: set<Hash>, zones: seq<string>, remote: seq<Branch>)
      returns (r: Result<()>)
    requires ContentAddressed(primary) && AllTipsHeld(local)
    modifies local
    ensures AllTipsHeld(local) && TipsReadable(local.objects, local.refs)
    ensures forall ref :: ref in old(local.refs) ==> ref in local.refs
    ensures forall ref :: ref in local.refs && HasPrefix(ref, BRANCH_PREFIX) ==>
              || (ref in old(local.refs) && local.refs[ref] == old(local.refs)[ref])
              || Listed(remote, ref, local.refs[ref])
    ensures r.Ok? && Syncable(primary, old(local.refs), remote) && unreachable == {} ==>
              InSync(local.refs, remote, |remote|)
  {
    r := RegisterAll(local, zones);
    HeldTipsReadable(local);
    if r.Err? { return; }
    if Syncable(primary, old(local.refs), remote) {
      SyncableKept(primary, old(local.refs), local.refs, remote);
    }
    PullBranches(local, primary, unreachable, remote);
    HeldTipsReadable(local);
  }

  lemma SyncableKept(primary: Objs, was: map<string, Hash>, now: map<string, Hash>, remote: seq<Branch>)
    requires OnlyMarkers(was, now) && Syncable(primary, was, remote)
    ensures Syncable(primary, now, remote)
  {
    forall i | 0 <= i < |remote| ensures NoZeroTip(now, RefOf(remote[i])) {
      BranchRefIsBranch(remote[i].zone, remote[i].name);
      assert NoZeroTip(was, RefOf(remote[i]));
    }
  }
}
