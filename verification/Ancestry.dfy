/** Ancestry in the commit DAG and its breadth-first searches
    (pkg/repo/merge.go). */
module Ancestry {
  import opened Objects
  import opened MemStore
  import opened Sequences

  function Parents(h: Hash): (ps: seq<Hash>)
    ensures forall i :: 0 <= i < |ps| ==> ps[i] < h
  {
    if h.H? && h.obj.Commit? then h.obj.parents else []
  }

  /** The commits reachable from `h` along parent edges, `h` included. */
  function Ancs(h: Hash): set<Hash>
    decreases h
  {
    {h} + set i, x | 0 <= i < |Parents(h)| && x in Ancs(Parents(h)[i]) :: x
  }

  /** A commit that decodes. */
  predicate IsCommit(o: Object) {
    o.Commit? && o.meta.legible
  }

  /** The whole history of `h` is stored as commits. */
  ghost predicate HistoryIn(objs: map<Hash, Object>, h: Hash) {
    forall x :: x in Ancs(h) ==> Holds(objs, x) && IsCommit(x.obj)
  }

  // ---------- reachability is a partial order ----------

  lemma {:induction false} AncsTransitive(a: Hash, b: Hash, c: Hash)
    requires a in Ancs(b) && b in Ancs(c)
    ensures a in Ancs(c)
    decreases c
  {
    if b != c {
      var i :| 0 <= i < |Parents(c)| && b in Ancs(Parents(c)[i]);
      AncsTransitive(a, b, Parents(c)[i]);
    }
  }

  function Size(h: Hash): nat
    decreases h, 0
  {
    1 + SizeSum(h, |Parents(h)|)
  }

  function SizeSum(h: Hash, n: nat): nat
    requires n <= |Parents(h)|
    decreases h, 0, n
  {
    if n == 0 then 0 else SizeSum(h, n - 1) + Size(Parents(h)[n - 1])
  }

  lemma {:induction false} SizeOfParent(h: Hash, i: nat, n: nat)
    requires i < n <= |Parents(h)|
    ensures Size(Parents(h)[i]) <= SizeSum(h, n)
    decreases n
  {
    if i < n - 1 { SizeOfParent(h, i, n - 1); }
  }

  lemma {:induction false} AncsSmaller(a: Hash, b: Hash)
    requires a in Ancs(b)
    ensures a == b || Size(a) < Size(b)
    decreases b
  {
    if a != b {
      var i :| 0 <= i < |Parents(b)| && a in Ancs(Parents(b)[i]);
      AncsSmaller(a, Parents(b)[i]);
      SizeOfParent(b, i, |Parents(b)|);
    }
  }

  /** Histories have no cycles. */
  lemma AncsAntisymmetric(a: Hash, b: Hash)
    requires a in Ancs(b) && b in Ancs(a)
    ensures a == b
  {
    AncsSmaller(a, b);
    AncsSmaller(b, a);
  }

  lemma ParentIsAncestor(h: Hash, i: nat)
    requires i < |Parents(h)|
    ensures Parents(h)[i] in Ancs(h)
  {
    assert Parents(h)[i] in Ancs(Parents(h)[i]);
  }

  ghost predicate ParentClosed(seen: set<Hash>) {
    forall h, i :: h in seen && 0 <= i < |Parents(h)| ==> Parents(h)[i] in seen
  }

  /** A search that has exhausted its queue has seen every ancestor. */
  lemma {:induction false} ClosedCoversAncs(seen: set<Hash>, h: Hash)
    requires ParentClosed(seen) && h in seen
    ensures Ancs(h) <= seen
    decreases h
  {
    forall x | x in Ancs(h) ensures x in seen {
      if x != h {
        var i :| 0 <= i < |Parents(h)| && x in Ancs(Parents(h)[i]);
        ClosedCoversAncs(seen, Parents(h)[i]);
      }
    }
  }

  // ---------- breadth-first search ----------

  function LoadCommit(objs: map<Hash, Object>, h: Hash): (r: Result<Object>)
    ensures r.Ok? ==> h in objs && r.value == objs[h] && IsCommit(r.value)
    ensures ContentAddressed(objs) && r.Ok? ==> Holds(objs, h) && r.value.parents == Parents(h)
  {
    if h !in objs then Err(NotFound)
    else if !objs[h].Commit? || !objs[h].meta.legible then Err(InvalidObject)
    else Ok(objs[h])
  }

  function Elems(s: seq<Hash>): set<Hash> {
    set h | h in s
  }

  lemma ElemsConcat(a: seq<Hash>, b: seq<Hash>)
    ensures Elems(a + b) == Elems(a) + Elems(b)
  {
  }

  /** The loop that marks and queues the parents not seen before. */
  method Enqueue(queue: seq<Hash>, seen: set<Hash>, ps: seq<Hash>)
      returns (queue': seq<Hash>, seen': set<Hash>, ghost added: seq<Hash>)
    ensures seen' == seen + Elems(ps)
    ensures queue' == queue + added && Elems(added) == seen' - seen
  {
    queue', seen', added := queue, seen, [];
    for i := 0 to |ps|
      invariant seen' == seen + Elems(ps[..i])
      invariant queue' == queue + added && Elems(added) == seen' - seen
    {
      var p := ps[i];
      assert ps[..i + 1] == ps[..i] + [p];
      if p !in seen' {
        ConcatAssoc(queue, added, [p]);
        ElemsConcat(added, [p]);
        queue', seen', added := queue' + [p], seen' + {p}, added + [p];
      }
    }
    assert ps[..|ps|] == ps;
  }

  lemma TakeFirst(queue: seq<Hash>)
    requires queue != []
    ensures queue[0] in Elems(queue) && Elems(queue) == {queue[0]} + Elems(queue[1..])
  {
    assert queue == [queue[0]] + queue[1..];
    ElemsConcat([queue[0]], queue[1..]);
  }

  /** Seen commits off the queue are not `anc`, and their parents are seen. */
  ghost predicate PassedBy(anc: Hash, seen: set<Hash>, queued: set<Hash>) {
    forall h :: h in seen && h !in queued ==> h != anc && Elems(Parents(h)) <= seen
  }

  lemma PassOne(anc: Hash, seen0: set<Hash>, h: Hash, rest: set<Hash>, seen: set<Hash>)
    requires PassedBy(anc, seen0, {h} + rest) && h != anc && seen == seen0 + Elems(Parents(h))
    ensures PassedBy(anc, seen, rest + (seen - seen0))
  {
  }

  /** Is `anc` the zero hash, `desc`, or reachable from `desc`? */
  method IsAncestor(s: Store, anc: Hash, desc: Hash) returns (r: Result<bool>)
    requires ContentAddressed(s.objects)
    ensures r.Ok? ==> (r.value <==> anc.Zero? || anc in Ancs(desc))
    ensures desc.Zero? || HistoryIn(s.objects, desc) ==> r.Ok?
  {
    if anc.Zero? || anc == desc { return Ok(true); }
    if desc.Zero? { return Ok(false); }
    var queue, seen := [desc], {desc};
    while |queue| > 0
      invariant desc in seen && seen <= Ancs(desc) && Elems(queue) <= seen
      invariant PassedBy(anc, seen, Elems(queue))
      decreases Ancs(desc) - seen, |queue|
    {
      var h := queue[0];
      ghost var rest, seen0 := queue[1..], seen;
      TakeFirst(queue);
      queue := queue[1..];
      if h == anc { return Ok(true); }
      var c := LoadCommit(s.objects, h);
      if c.Err? { return Err(c.error); }
      ghost var added;
      queue, seen, added := Enqueue(queue, seen, c.value.parents);
      QueueGrew(rest, added, seen0, seen);
      NewAncestors(desc, h, seen0, seen);
      PassOne(anc, seen0, h, Elems(rest), seen);
    }
    SearchedAll(seen, desc);
    return Ok(false);
  }

  lemma QueueGrew(rest: seq<Hash>, added: seq<Hash>, seen0: set<Hash>, seen: set<Hash>)
    requires Elems(added) == seen - seen0
    ensures Elems(rest + added) == Elems(rest) + (seen - seen0)
    ensures seen <= seen0 ==> rest + added == rest
  {
    ElemsConcat(rest, added);
    if added != [] { assert added[0] in Elems(added); }
  }

  lemma NewAncestors(desc: Hash, h: Hash, seen0: set<Hash>, seen: set<Hash>)
    requires h in Ancs(desc) && seen0 <= Ancs(desc) && seen == seen0 + Elems(Parents(h))
    ensures seen <= Ancs(desc)
    ensures seen == seen0 || Ancs(desc) - seen < Ancs(desc) - seen0
  {
    forall i | 0 <= i < |Parents(h)| ensures Parents(h)[i] in Ancs(desc) {
      ParentIsAncestor(h, i);
      AncsTransitive(Parents(h)[i], h, desc);
    }
    if seen != seen0 {
      var x :| x in seen && x !in seen0;
      assert x in Ancs(desc) - seen0 && x !in Ancs(desc) - seen;
    }
  }

  lemma SearchedAll(seen: set<Hash>, desc: Hash)
    requires desc in seen && forall h :: h in seen ==> Elems(Parents(h)) <= seen
    ensures Ancs(desc) <= seen
  {
    forall h, i | h in seen && 0 <= i < |Parents(h)| ensures Parents(h)[i] in seen {
      assert Parents(h)[i] in Elems(Parents(h));
    }
    ClosedCoversAncs(seen, desc);
  }

  /** The loop that queues the parents not yet in the result. */
  method QueueUnseen(queue: seq<Hash>, out: set<Hash>, ps: seq<Hash>) returns (queue': seq<Hash>)
    ensures Elems(queue) <= Elems(queue') <= Elems(queue) + Elems(ps)
    ensures Elems(ps) <= out + Elems(queue')
  {
    queue' := queue;
    for i := 0 to |ps|
      invariant Elems(queue) <= Elems(queue') <= Elems(queue) + Elems(ps)
      invariant Elems(ps[..i]) <= out + Elems(queue')
    {
      assert ps[..i + 1] == ps[..i] + [ps[i]];
      ElemsConcat(ps[..i], [ps[i]]);
      if ps[i] !in out {
        ElemsConcat(queue', [ps[i]]);
        queue' := queue' + [ps[i]];
      }
    }
    assert ps[..|ps|] == ps;
  }

  /** All ancestors of `root`, or an error if some commit cannot be loaded. */
  method AncestorSet(s: Store, root: Hash) returns (r: Result<set<Hash>>)
    requires ContentAddressed(s.objects)
    ensures r.Ok? ==> r.value == Ancs(root) && HistoryIn(s.objects, root)
    ensures HistoryIn(s.objects, root) ==> r.Ok?
  {
    var out: set<Hash>, queue := {}, [root];
    while |queue| > 0
      invariant out + Elems(queue) <= Ancs(root) && root in out + Elems(queue)
      invariant forall h :: h in out ==> Elems(Parents(h)) <= out + Elems(queue)
      invariant forall h :: h in out ==> Holds(s.objects, h) && IsCommit(h.obj)
      decreases Ancs(root) - out, |queue|
    {
      var h := queue[0];
      assert queue == [h] + queue[1..];
      ElemsConcat([h], queue[1..]);
      assert h in Elems(queue);
      queue := queue[1..];
      if h !in out {
        ghost var out0 := out;
        out := out + {h};
        var c := LoadCommit(s.objects, h);
        if c.Err? { return Err(c.error); }
        var ps := c.value.parents;
        NewAncestors(root, h, {}, Elems(Parents(h)));
        queue := QueueUnseen(queue, out, ps);
        assert h in Ancs(root) - out0 && h !in Ancs(root) - out;
      }
    }
    SearchedAll(out, root);
    return Ok(out);
  }

  // ---------- merge base ----------

  /** The commits at most `n` parent steps from `b`. */
  function Within(b: Hash, n: nat): (hs: set<Hash>)
    ensures b in hs
  {
    if n == 0 then {b} else Within(b, n - 1) + StepFrom(Within(b, n - 1))
  }

  function StepFrom(hs: set<Hash>): set<Hash> {
    set h, i | h in hs && 0 <= i < |Parents(h)| :: Parents(h)[i]
  }

  lemma {:induction false} WithinMonotone(b: Hash, m: nat, n: nat)
    requires m <= n
    ensures Within(b, m) <= Within(b, n)
    decreases n - m
  {
    if m < n {
      WithinNext(b, m);
      WithinMonotone(b, m + 1, n);
    }
  }

  lemma WithinNext(b: Hash, n: nat)
    ensures Within(b, n + 1) == Within(b, n) + StepFrom(Within(b, n))
  {
  }

  lemma {:induction false} WithinAreAncs(b: Hash, n: nat)
    ensures Within(b, n) <= Ancs(b)
    decreases n
  {
    if n > 0 {
      WithinAreAncs(b, n - 1);
      forall h, p | h in Within(b, n - 1) && p in Elems(Parents(h)) ensures p in Ancs(b) {
        var i :| 0 <= i < |Parents(h)| && Parents(h)[i] == p;
        ParentIsAncestor(h, i);
        AncsTransitive(p, h, b);
      }
    }
  }

  /** `h` is an ancestor of both, and no common ancestor is fewer parent steps
      away from `b`. */
  ghost predicate NearestCommon(a: Hash, b: Hash, h: Hash) {
    && h in Ancs(a) && h in Ancs(b)
    && forall n: nat, x :: x in Ancs(a) && x in Within(b, n) ==> h in Within(b, n)
  }

  /** State of the second search: every commit fewer than `k` steps away has
      been ruled out, `cur` holds those at `k` steps still to be looked at, and
      `nxt` those found one step further. */
  ghost predicate Frontier(b: Hash, aAnc: set<Hash>, visited: set<Hash>, k: nat, cur: seq<Hash>, nxt: seq<Hash>) {
    && visited == Within(b, k) + Elems(nxt)
    && Elems(cur) <= Within(b, k)
    && Elems(nxt) <= StepFrom(Within(b, k))
    && (forall h :: h in Within(b, k) && h !in Elems(cur) ==> h !in aAnc && Elems(Parents(h)) <= visited)
    && (k > 0 ==> Within(b, k - 1) !! aAnc)
  }

  lemma FrontierShift(b: Hash, aAnc: set<Hash>, visited: set<Hash>, k: nat, nxt: seq<Hash>)
    requires Frontier(b, aAnc, visited, k, [], nxt)
    ensures Frontier(b, aAnc, visited, k + 1, nxt, [])
  {
    assert StepFrom(Within(b, k)) <= visited;
    assert visited == Within(b, k + 1);
    forall h | h in Within(b, k + 1) && h !in Elems(nxt) ensures h !in aAnc && Elems(Parents(h)) <= visited {
      assert h in Within(b, k);
    }
  }

  lemma FrontierPop(b: Hash, aAnc: set<Hash>, seen0: set<Hash>, seen: set<Hash>, k: nat, cur: seq<Hash>,
      nxt: seq<Hash>, added: seq<Hash>)
    requires Frontier(b, aAnc, seen0, k, cur, nxt) && cur != [] && cur[0] !in aAnc
    requires seen == seen0 + Elems(Parents(cur[0])) && Elems(added) == seen - seen0
    ensures Frontier(b, aAnc, seen, k, cur[1..], nxt + added)
  {
    var h := cur[0];
    assert cur == [h] + cur[1..];
    ElemsConcat([h], cur[1..]);
    ElemsConcat(nxt, added);
    assert h in Elems(cur);
    assert Elems(Parents(h)) <= StepFrom(Within(b, k));
  }

  lemma FrontierHit(a: Hash, b: Hash, visited: set<Hash>, k: nat, cur: seq<Hash>, nxt: seq<Hash>)
    requires Frontier(b, Ancs(a), visited, k, cur, nxt) && cur != [] && cur[0] in Ancs(a)
    ensures NearestCommon(a, b, cur[0])
  {
    var h := cur[0];
    FrontierKnown(b, Ancs(a), visited, k, cur, nxt);
    forall n: nat, x | x in Ancs(a) && x in Within(b, n) ensures h in Within(b, n) {
      NotNearer(Ancs(a), b, k, n, x);
      WithinMonotone(b, k, n);
    }
  }

  lemma NotNearer(aAnc: set<Hash>, b: Hash, k: nat, n: nat, x: Hash)
    requires (k > 0 ==> Within(b, k - 1) !! aAnc) && x in aAnc && x in Within(b, n)
    ensures k <= n
  {
    if n < k { NotWithin(b, n, k - 1, x); }
  }

  lemma NotWithin(b: Hash, n: nat, m: nat, x: Hash)
    requires n <= m && x !in Within(b, m)
    ensures x !in Within(b, n)
  {
    WithinMonotone(b, n, m);
  }

  lemma FrontierKnown(b: Hash, aAnc: set<Hash>, visited: set<Hash>, k: nat, cur: seq<Hash>, nxt: seq<Hash>)
    requires Frontier(b, aAnc, visited, k, cur, nxt) && cur != []
    ensures cur[0] in Ancs(b) && cur[0] in Within(b, k)
  {
    assert cur[0] in Elems(cur);
    WithinAreAncs(b, k);
  }

  /** One turn of the second search. */
  lemma SearchStep(b: Hash, aAnc: set<Hash>, seen0: set<Hash>, seen: set<Hash>, k: nat,
                   cur: seq<Hash>, nxt: seq<Hash>, added: seq<Hash>)
    requires Frontier(b, aAnc, seen0, k, cur, nxt) && cur != [] && cur[0] !in aAnc
    requires seen == seen0 + Elems(Parents(cur[0])) && Elems(added) == seen - seen0
    requires seen0 <= Ancs(b)
    ensures (cur[1..] + nxt) + added == cur[1..] + (nxt + added)
    ensures Frontier(b, aAnc, seen, k, cur[1..], nxt + added)
    ensures seen <= Ancs(b)
    ensures added == [] || Ancs(b) - seen < Ancs(b) - seen0
  {
    FrontierKnown(b, aAnc, seen0, k, cur, nxt);
    if added != [] { assert added[0] in Elems(added); }
    NewAncestors(b, cur[0], seen0, seen);
    FrontierPop(b, aAnc, seen0, seen, k, cur, nxt, added);
    ConcatAssoc(cur[1..], nxt, added);
  }

  lemma SelfNearest(b: Hash)
    ensures NearestCommon(b, b, b)
  {
    forall n: nat ensures b in Within(b, n) { WithinMonotone(b, 0, n); }
  }

  lemma FrontierStart(b: Hash, aAnc: set<Hash>)
    ensures Frontier(b, aAnc, {b}, 0, [b], []) && b in Ancs(b)
  {
    assert Elems([b]) == {b};
  }

  lemma FrontierEnd(b: Hash, aAnc: set<Hash>, visited: set<Hash>, k: nat, cur: seq<Hash>, nxt: seq<Hash>)
    requires Frontier(b, aAnc, visited, k, cur, nxt) && |cur + nxt| == 0 && b in visited && visited <= Ancs(b)
    ensures aAnc !! Ancs(b)
  {
    assert cur == [] && nxt == [];
    SearchedAll(visited, b);
  }

  /** Marks every ancestor of `a`, then searches from `b` for the first one. */
  method MergeBase(s: Store, a: Hash, b: Hash) returns (r: Result<Hash>)
    requires ContentAddressed(s.objects)
    ensures r.Ok? && r.value.H? ==> NearestCommon(a, b, r.value)
    ensures r.Ok? && r.value.Zero? ==> a.Zero? || b.Zero? || Ancs(a) !! Ancs(b)
    ensures a.Zero? || b.Zero? || (HistoryIn(s.objects, a) && HistoryIn(s.objects, b)) ==> r.Ok?
  {
    if a.Zero? || b.Zero? { return Ok(Zero); }
    if a == b {
      SelfNearest(b);
      return Ok(a);
    }
    var aAnc := AncestorSet(s, a);
    if aAnc.Err? { return Err(aAnc.error); }
    r := FirstMarked(s, a, b, aAnc.value);
  }

  /** Between two turns of the second search. */
  ghost predicate Searching(b: Hash, aAnc: set<Hash>, queue: seq<Hash>, visited: set<Hash>, k: nat, cur: seq<Hash>,
      nxt: seq<Hash>) {
    queue == cur + nxt && Frontier(b, aAnc, visited, k, cur, nxt) && b in visited && visited <= Ancs(b)
  }

  /** A search with commits left to look at has one on the current level. */
  lemma NextLevel(b: Hash, aAnc: set<Hash>, queue: seq<Hash>, visited: set<Hash>, k: nat, cur: seq<Hash>,
      nxt: seq<Hash>)
      returns (k': nat, cur': seq<Hash>, nxt': seq<Hash>)
    requires Searching(b, aAnc, queue, visited, k, cur, nxt) && queue != []
    ensures Searching(b, aAnc, queue, visited, k', cur', nxt') && cur' != [] && cur'[0] == queue[0]
    ensures queue[0] in Ancs(b)
  {
    k', cur', nxt' := k, cur, nxt;
    if cur == [] {
      FrontierShift(b, aAnc, visited, k, nxt);
      k', cur', nxt' := k + 1, nxt, [];
      EmptySides(nxt);
    }
    PopFront(cur', nxt');
    FrontierKnown(b, aAnc, visited, k', cur', nxt');
  }

  lemma EmptySides<T>(s: seq<T>)
    ensures [] + s == s + []
  {
  }

  /** One turn of the second search. */
  lemma SearchTurn(b: Hash, aAnc: set<Hash>, queue: seq<Hash>, seen0: set<Hash>, seen: set<Hash>, k: nat,
                   cur: seq<Hash>, nxt: seq<Hash>, added: seq<Hash>)
    requires Searching(b, aAnc, queue, seen0, k, cur, nxt) && cur != [] && cur[0] !in aAnc
    requires seen == seen0 + Elems(Parents(cur[0])) && Elems(added) == seen - seen0
    ensures Searching(b, aAnc, queue[1..] + added, seen, k, cur[1..], nxt + added)
    ensures added == [] || Ancs(b) - seen < Ancs(b) - seen0
    ensures added == [] ==> seen == seen0
  {
    PopFront(cur, nxt);
    SearchStep(b, aAnc, seen0, seen, k, cur, nxt, added);
    assert Elems([]) == {};
  }

  /** The second search: breadth first from `b` to the first marked commit. */
  method FirstMarked(s: Store, ghost a: Hash, b: Hash, aAnc: set<Hash>) returns (r: Result<Hash>)
    requires ContentAddressed(s.objects) && aAnc == Ancs(a) && Zero !in aAnc
    ensures r.Ok? && r.value.H? ==> NearestCommon(a, b, r.value)
    ensures r.Ok? && r.value.Zero? ==> aAnc !! Ancs(b)
    ensures HistoryIn(s.objects, b) ==> r.Ok?
  {
    var queue, visited := [b], {b};
    ghost var k: nat, cur, nxt := 0, [b], [];
    FrontierStart(b, aAnc);
    while |queue| > 0
      invariant Searching(b, aAnc, queue, visited, k, cur, nxt)
      decreases Ancs(b) - visited, |queue|
    {
      k, cur, nxt := NextLevel(b, aAnc, queue, visited, k, cur, nxt);
      var h := queue[0];
      if h in aAnc {
        FrontierHit(a, b, visited, k, cur, nxt);
        return Ok(h);
      }
      var c := LoadCommit(s.objects, h);
      if c.Err? { return Err(c.error); }
      ghost var queue0, seen0, added := queue, visited, [];
      queue := queue[1..];
      queue, visited, added := Enqueue(queue, visited, c.value.parents);
      SearchTurn(b, aAnc, queue0, seen0, visited, k, cur, nxt, added);
      cur, nxt := cur[1..], nxt + added;
    }
    FrontierEnd(b, aAnc, visited, k, cur, nxt);
    return Ok(Zero);
  }

  // ---------- how good the merge base is ----------

  /** The commit has no two different parents. */
  predicate NoMerge(h: Hash) {
    forall i :: 0 <= i < |Parents(h)| ==> Parents(h)[i] == Parents(h)[0]
  }

  /** No merge occurs in the history of `b`. */
  predicate LinearHistory(b: Hash)
    decreases b
  {
    Parents(b) == [] || (NoMerge(b) && LinearHistory(Parents(b)[0]))
  }

  lemma {:induction false} LinearMeaning(b: Hash)
    ensures LinearHistory(b) <==> forall h :: h in Ancs(b) ==> NoMerge(h)
    decreases b
  {
    assert b in Ancs(b);
    if Parents(b) == [] {
      AncsOfRoot(b);
    } else if NoMerge(b) {
      LinearMeaning(Parents(b)[0]);
      AncsOfChild(b, Parents(b)[0]);
    }
  }

  lemma {:induction false} WithinChain(b: Hash, n: nat)
    requires Parents(b) != [] && NoMerge(b)
    ensures Within(b, n + 1) == {b} + Within(Parents(b)[0], n)
    decreases n
  {
    var p := Parents(b)[0];
    OnlyParent(b);
    assert StepFrom({b}) == {p};
    if n > 0 {
      WithinChain(b, n - 1);
      var w := Within(p, n - 1);
      WithinMonotone(p, 0, n);
      assert StepFrom({b} + w) == StepFrom({b}) + StepFrom(w);
    } else {
      assert Within(b, 1) == Within(b, 0) + StepFrom(Within(b, 0));
    }
  }

  lemma OnlyParent(b: Hash)
    requires Parents(b) != [] && NoMerge(b)
    ensures Elems(Parents(b)) == {Parents(b)[0]}
  {
    assert Parents(b)[0] in Elems(Parents(b));
  }

  lemma FirstStep(x: Hash, b: Hash) returns (i: nat)
    requires x in Ancs(b) && x != b
    ensures i < |Parents(b)| && x in Ancs(Parents(b)[i])
  {
    i :| 0 <= i < |Parents(b)| && x in Ancs(Parents(b)[i]);
  }

  /** On a chain the later of two commits is fewer steps away. */
  lemma {:induction false} ChainSeparates(b: Hash, x: Hash, h: Hash) returns (n: nat)
    requires LinearHistory(b) && x in Ancs(b) && h in Ancs(x) && h != x
    ensures x in Within(b, n) && h !in Within(b, n)
    decreases b
  {
    if x == b {
      n := AtOnce(x, h);
    } else {
      OnlyStep(x, b);
      var m := ChainSeparates(Parents(b)[0], x, h);
      n := ChainStep(b, x, h, m);
    }
  }

  lemma AtOnce(x: Hash, h: Hash) returns (n: nat)
    requires h != x
    ensures x in Within(x, n) && h !in Within(x, n)
  {
    n := 0;
  }

  lemma OnlyStep(x: Hash, b: Hash)
    requires LinearHistory(b) && x in Ancs(b) && x != b
    ensures Parents(b) != [] && NoMerge(b) && LinearHistory(Parents(b)[0]) && x in Ancs(Parents(b)[0])
  {
    var i := FirstStep(x, b);
    assert Parents(b)[i] == Parents(b)[0];
  }

  lemma ChainStep(b: Hash, x: Hash, h: Hash, m: nat) returns (n: nat)
    requires Parents(b) != [] && NoMerge(b)
    requires h in Ancs(x) && x in Within(Parents(b)[0], m) && h !in Within(Parents(b)[0], m)
    ensures x in Within(b, n) && h !in Within(b, n)
  {
    var p := Parents(b)[0];
    WithinAreAncs(p, m);
    AncsTransitive(h, x, p);
    NotItsParentsAncestor(b, h);
    n := OneStepMore(b, m);
  }

  lemma OneStepMore(b: Hash, m: nat) returns (n: nat)
    requires Parents(b) != [] && NoMerge(b)
    ensures Within(b, n) == {b} + Within(Parents(b)[0], m)
  {
    n := m + 1;
    WithinChain(b, m);
  }

  lemma NotItsParentsAncestor(b: Hash, h: Hash)
    requires Parents(b) != [] && h in Ancs(Parents(b)[0])
    ensures h != b
  {
    ParentIsAncestor(b, 0);
    ParentStepSmaller(b, 0);
    if h == b { AncsAntisymmetric(b, Parents(b)[0]); }
  }

  lemma {:induction false} ChainOrder(b: Hash, x: Hash, h: Hash)
    requires LinearHistory(b) && x in Ancs(b) && h in Ancs(b)
    ensures x in Ancs(h) || h in Ancs(x)
    decreases b
  {
    if x != b && h != b {
      var i := FirstStep(x, b);
      var j := FirstStep(h, b);
      ChainOrder(Parents(b)[0], x, h);
    }
  }

  /** When `b`'s history is linear the nearest common ancestor is the lowest
      one: every common ancestor is an ancestor of it or equal to it. */
  lemma NearestIsLowest(a: Hash, b: Hash, h: Hash, x: Hash)
    requires LinearHistory(b) && NearestCommon(a, b, h)
    requires x in Ancs(a) && x in Ancs(b)
    ensures x in Ancs(h)
  {
    ChainOrder(b, x, h);
    if x !in Ancs(h) {
      assert h != x;
      var n := ChainSeparates(b, x, h);
      assert false;
    }
  }

  /** Every common ancestor is an ancestor of `h` or equal to it. */
  ghost predicate Lowest(a: Hash, b: Hash, h: Hash) {
    forall x :: x in Ancs(a) && x in Ancs(b) ==> x in Ancs(h)
  }

  /** A nearest common ancestor is the lowest one, whatever the other branch
      is, exactly when the searched history has no merge. */
  lemma NearestIsLowestIffLinear(b: Hash)
    ensures LinearHistory(b) <==> forall a, h :: NearestCommon(a, b, h) ==> Lowest(a, b, h)
  {
    if LinearHistory(b) {
      forall a, h, x | NearestCommon(a, b, h) && x in Ancs(a) && x in Ancs(b) ensures x in Ancs(h) {
        NearestIsLowest(a, b, h, x);
      }
    } else {
      assert Within(b, 0) == {b} && b in Ancs(b);
      var a, h := MergeDefeats(b, b, 0);
    }
  }

  // ---------- whatever the search returns ----------

  /** No parent is an ancestor of a different parent. */
  predicate TrueMerge(h: Hash) {
    forall i, j :: 0 <= i < |Parents(h)| && 0 <= j < |Parents(h)| && Parents(h)[i] in Ancs(Parents(h)[j]) ==>
      Parents(h)[i] == Parents(h)[j]
  }

  /** Every merge in the history joins branches that had diverged. */
  ghost predicate TrueMerges(b: Hash) {
    forall h :: h in Ancs(b) ==> TrueMerge(h)
  }

  ghost predicate HasLowest(a: Hash, b: Hash) {
    exists h :: h in Ancs(a) && h in Ancs(b) && Lowest(a, b, h)
  }

  /** A lowest common ancestor exists for every related first tip exactly when
      the history of the second has no merge. With a merge there is a first tip
      for which no commit at all is the lowest, whatever the search returns. */
  lemma LowestExistsIffLinear(b: Hash)
    requires TrueMerges(b)
    ensures LinearHistory(b) <==> forall a :: !(Ancs(a) !! Ancs(b)) ==> HasLowest(a, b)
  {
    if LinearHistory(b) {
      forall a | !(Ancs(a) !! Ancs(b)) ensures HasLowest(a, b) {
        var x :| x in Ancs(a) && x in Ancs(b);
        var h := LinearLowest(a, b, x);
      }
    } else {
      LinearMeaning(b);
      var c :| c in Ancs(b) && !NoMerge(c);
      var a := MergeLeavesNone(b, c);
    }
  }

  lemma {:induction false} LinearLowest(a: Hash, b: Hash, x: Hash) returns (h: Hash)
    requires LinearHistory(b) && x in Ancs(a) && x in Ancs(b)
    ensures h in Ancs(a) && h in Ancs(b) && Lowest(a, b, h)
    decreases b
  {
    if b in Ancs(a) {
      h := b;
    } else {
      OnlyStep(x, b);
      var p := Parents(b)[0];
      h := LinearLowest(a, p, x);
      AncsOfChild(b, p);
    }
  }

  /** A commit over both parents of a true merge shares with `b` exactly what
      the two parents reach, and neither reaches the other. */
  lemma MergeLeavesNone(b: Hash, c: Hash) returns (a: Hash)
    requires TrueMerges(b) && c in Ancs(b) && !NoMerge(c)
    ensures !(Ancs(a) !! Ancs(b)) && !HasLowest(a, b)
  {
    var i :| 0 <= i < |Parents(c)| && Parents(c)[i] != Parents(c)[0];
    var x, y := Parents(c)[0], Parents(c)[i];
    a := FreshMerge(b, x, y);
    ParentIsAncestor(a, 0);
    ParentIsAncestor(a, 1);
    ParentIsAncestor(c, 0);
    ParentIsAncestor(c, i);
    AncsTransitive(x, c, b);
    AncsTransitive(y, c, b);
    assert TrueMerge(c);
    assert x !in Ancs(y) && y !in Ancs(x);
    forall h | h in Ancs(a) && h in Ancs(b) ensures !Lowest(a, b, h) {
      var j := FirstStep(h, a);
      BelowOneSide(h, x, y, j);
    }
  }

  lemma BelowOneSide(h: Hash, x: Hash, y: Hash, j: nat)
    requires j < 2 && h in Ancs([x, y][j]) && x !in Ancs(y) && y !in Ancs(x)
    ensures x !in Ancs(h) || y !in Ancs(h)
  {
    if x in Ancs(h) && y in Ancs(h) {
      AncsTransitive(x, h, [x, y][j]);
      AncsTransitive(y, h, [x, y][j]);
    }
  }

  lemma DivergedIsTrueMerge(c: Hash, x: Hash, y: Hash)
    requires Parents(c) == [x, y] && x !in Ancs(y) && y !in Ancs(x)
    ensures TrueMerge(c)
  {
  }

  /** A commit with one parent, or a merge of tips neither of which is part of
      the other, keeps all merges true. */
  lemma TrueMergesKept(c: Hash)
    requires forall i :: 0 <= i < |Parents(c)| ==> TrueMerges(Parents(c)[i])
    requires TrueMerge(c)
    ensures TrueMerges(c)
  {
    forall h | h in Ancs(c) ensures TrueMerge(h) {
      if h != c {
        var i := FirstStep(h, c);
        assert TrueMerges(Parents(c)[i]);
      }
    }
  }

  /** All commits within k steps descend from `c`, and only `c` leads further. */
  ghost predicate SingleFile(b: Hash, c: Hash, k: nat) {
    && c in Within(b, k)
    && forall w :: w in Within(b, k) ==> c in Ancs(w) && (w != c ==> Elems(Parents(w)) <= Within(b, k))
  }

  /** Follows the single file to its first merge; a commit that joins the two
      parents of that merge has two nearest common ancestors with `b`. */
  lemma {:induction false} MergeDefeats(b: Hash, c: Hash, k: nat) returns (a: Hash, h: Hash)
    requires SingleFile(b, c, k) && !LinearHistory(c)
    ensures NearestCommon(a, b, h) && !Lowest(a, b, h)
    decreases c
  {
    if NoMerge(c) {
      NextInFile(b, c, k);
      a, h := MergeDefeats(b, Parents(c)[0], k + 1);
    } else {
      var i :| 0 <= i < |Parents(c)| && Parents(c)[i] != Parents(c)[0];
      a, h := JoinDefeats(b, c, k, i);
    }
  }

  lemma JoinDefeats(b: Hash, c: Hash, k: nat, i: nat) returns (a: Hash, h: Hash)
    requires SingleFile(b, c, k) && i < |Parents(c)| && Parents(c)[i] != Parents(c)[0]
    ensures NearestCommon(a, b, h) && !Lowest(a, b, h)
  {
    var x, y := Parents(c)[0], Parents(c)[i];
    a := FreshMerge(b, x, y);
    assert Elems(Parents(a)) == {x, y};
    assert x in Elems(Parents(c)) && y in Elems(Parents(c));
    ParentNearest(b, c, k, a, 0);
    ParentNearest(b, c, k, a, i);
    h := NotBothLowest(a, b, x, y);
  }

  lemma NotBothLowest(a: Hash, b: Hash, x: Hash, y: Hash) returns (h: Hash)
    requires NearestCommon(a, b, x) && NearestCommon(a, b, y) && x != y
    ensures NearestCommon(a, b, h) && !Lowest(a, b, h)
  {
    h := if x in Ancs(y) then x else y;
    if x in Ancs(y) && y in Ancs(x) { AncsAntisymmetric(x, y); }
  }

  lemma NextInFile(b: Hash, c: Hash, k: nat)
    requires SingleFile(b, c, k) && Parents(c) != [] && NoMerge(c)
    ensures SingleFile(b, Parents(c)[0], k + 1)
  {
    var p := Parents(c)[0];
    OnlyParent(c);
    StepInFile(b, c, k);
    ParentIsAncestor(c, 0);
    assert p in Ancs(p);
    forall w | w in Within(b, k) ensures p in Ancs(w) { AncsTransitive(p, c, w); }
  }

  lemma StepInFile(b: Hash, c: Hash, k: nat)
    requires SingleFile(b, c, k)
    ensures Within(b, k + 1) == Within(b, k) + Elems(Parents(c))
  {
    forall h, p | h in Within(b, k) && p in Elems(Parents(h)) ensures p in Within(b, k) + Elems(Parents(c)) {}
  }

  /** A commit over x and y that is not part of the history of `b`. */
  lemma FreshMerge(b: Hash, x: Hash, y: Hash) returns (a: Hash)
    ensures Parents(a) == [x, y] && a !in Ancs(b)
  {
    var metas := set h | h in Ancs(b) && h.H? && h.obj.Commit? :: h.obj.meta.text;
    var text := LongerThanAll(metas);
    a := H(Commit(Zero, [x, y], Meta(text, true)));
    assert a in Ancs(b) ==> text in metas;
  }

  lemma {:induction false} LongerThanAll(ss: set<string>) returns (s: string)
    ensures forall t :: t in ss ==> |t| < |s|
    decreases ss
  {
    s := "+";
    if ss != {} {
      var t :| t in ss;
      s := LongerThanAll(ss - {t});
      s := s + t + "+";
    }
  }

  lemma ParentNearest(b: Hash, c: Hash, k: nat, a: Hash, i: nat)
    requires SingleFile(b, c, k) && i < |Parents(c)| && a !in Ancs(b)
    requires Elems(Parents(a)) <= Elems(Parents(c)) && Parents(c)[i] in Elems(Parents(a))
    ensures NearestCommon(a, b, Parents(c)[i])
  {
    var p := Parents(c)[i];
    ParentShared(b, c, k, a, i);
    forall n: nat, z | z in Ancs(a) && z in Within(b, n) ensures p in Within(b, n) {
      BeyondFile(b, c, k, a, n, z);
      WithinMonotone(b, k + 1, n);
    }
  }

  lemma ParentShared(b: Hash, c: Hash, k: nat, a: Hash, i: nat)
    requires SingleFile(b, c, k) && i < |Parents(c)| && Parents(c)[i] in Elems(Parents(a))
    ensures Parents(c)[i] in Ancs(a) && Parents(c)[i] in Ancs(b) && Parents(c)[i] in Within(b, k + 1)
  {
    var p := Parents(c)[i];
    StepInFile(b, c, k);
    assert p in Elems(Parents(c));
    WithinAreAncs(b, k + 1);
    var j :| 0 <= j < |Parents(a)| && Parents(a)[j] == p;
    ParentIsAncestor(a, j);
  }

  /** No ancestor of `a` lies on the single file itself. */
  lemma BeyondFile(b: Hash, c: Hash, k: nat, a: Hash, n: nat, z: Hash)
    requires SingleFile(b, c, k) && a !in Ancs(b) && Elems(Parents(a)) <= Elems(Parents(c))
    requires z in Ancs(a) && z in Within(b, n)
    ensures n > k
  {
    WithinAreAncs(b, n);
    if n <= k {
      WithinMonotone(b, n, k);
      var j := FirstStep(z, a);
      assert Parents(a)[j] in Elems(Parents(c));
      var i :| 0 <= i < |Parents(c)| && Parents(c)[i] == Parents(a)[j];
      AncsTransitive(c, z, Parents(c)[i]);
      ParentIsAncestor(c, i);
      ParentStepSmaller(c, i);
      AncsAntisymmetric(c, Parents(c)[i]);
    }
  }

  lemma AncsOfRoot(h: Hash)
    requires Parents(h) == []
    ensures Ancs(h) == {h}
  {
  }

  lemma AncsOfChild(h: Hash, p: Hash)
    requires Parents(h) != [] && NoMerge(h) && Parents(h)[0] == p
    ensures Ancs(h) == {h} + Ancs(p)
  {
    forall x ensures x in Ancs(h) <==> x == h || x in Ancs(p) {
      if x in Ancs(h) && x != h { var i := FirstStep(x, h); }
      if x in Ancs(p) { assert x in Ancs(Parents(h)[0]); }
    }
  }

  ghost predicate Shortcut(root: Hash, x: Hash, a: Hash, y: Hash, z: Hash, w: Hash, b: Hash) {
    && Parents(root) == [] && Parents(x) == [root] && Parents(a) == [x]
    && Parents(y) == [x] && Parents(z) == [y] && Parents(w) == [root] && Parents(b) == [z, w]
    && a !in {y, z, w, b} && x != w
  }

  lemma ShortcutSteps(root: Hash, x: Hash, a: Hash, y: Hash, z: Hash, w: Hash, b: Hash) returns (n: nat)
    requires Shortcut(root, x, a, y, z, w, b)
    ensures Within(b, n) == {b, z, w, y, root}
  {
    n := 2;
    assert Elems([z, w]) == {z, w} && Elems([y]) == {y} && Elems([root]) == {root};
    assert StepFrom({b}) == {z, w};
    assert Within(b, 0) == {b};
    assert Within(b, 1) == {b, z, w};
    assert StepFrom({b, z, w}) == {z, w, y, root};
  }

  lemma ShortcutAncs(root: Hash, x: Hash, a: Hash, y: Hash, z: Hash, w: Hash, b: Hash)
    requires Shortcut(root, x, a, y, z, w, b)
    ensures Ancs(a) == {a, x, root} && Ancs(x) == {x, root} && Ancs(root) == {root} && x in Ancs(b)
    ensures x !in {b, z, w, y, root}
  {
    AncsOfRoot(root);
    AncsOfChild(x, root);
    AncsOfChild(a, x);
    ShortcutApart(root, x, a, y, z, w, b);
    ShortcutReaches(root, x, a, y, z, w, b);
  }

  lemma ShortcutReaches(root: Hash, x: Hash, a: Hash, y: Hash, z: Hash, w: Hash, b: Hash)
    requires Shortcut(root, x, a, y, z, w, b)
    ensures x in Ancs(b)
  {
    ParentIsAncestor(y, 0);
    ParentIsAncestor(z, 0);
    ParentIsAncestor(b, 0);
    AncsTransitive(x, y, z);
    AncsTransitive(x, z, b);
  }

  lemma ShortcutApart(root: Hash, x: Hash, a: Hash, y: Hash, z: Hash, w: Hash, b: Hash)
    requires Shortcut(root, x, a, y, z, w, b)
    ensures x !in {b, z, w, y, root}
  {
    ParentStepSmaller(x, 0);
    ParentStepSmaller(y, 0);
    ParentStepSmaller(z, 0);
    ParentStepSmaller(b, 0);
  }

  /** With a merge in `b`'s history the nearest common ancestor can be a proper
      ancestor of another common ancestor: a short side branch from the root
      outruns the longer way through the commit shared with `a`. */
  lemma NearestNeedNotBeLowest(root: Hash, x: Hash, a: Hash, y: Hash, z: Hash, w: Hash, b: Hash, h: Hash)
    requires Shortcut(root, x, a, y, z, w, b) && NearestCommon(a, b, h)
    ensures h == root
    ensures x in Ancs(a) && x in Ancs(b) && h in Ancs(x) && x !in Ancs(h)
  {
    ShortcutAncs(root, x, a, y, z, w, b);
    var n := ShortcutSteps(root, x, a, y, z, w, b);
    NoCloser(a, b, h, n, root, {a, x, root}, {b, z, w, y, root});
    Overlap(root, x, a, y, z, w, b, h);
  }

  lemma Overlap<T>(root: T, x: T, a: T, y: T, z: T, w: T, b: T, h: T)
    requires h in {a, x, root} && h in {b, z, w, y, root}
    requires a !in {y, z, w, b} && x !in {b, z, w, y, root}
    ensures h == root && x != root
  {
  }

  lemma NoCloser(a: Hash, b: Hash, h: Hash, n: nat, x: Hash, anc: set<Hash>, close: set<Hash>)
    requires NearestCommon(a, b, h) && anc == Ancs(a) && close == Within(b, n) && x in anc && x in close
    ensures h in anc && h in close
  {
  }

  lemma ParentStepSmaller(h: Hash, i: nat)
    requires i < |Parents(h)|
    ensures Size(Parents(h)[i]) < Size(h)
  {
    SizeOfParent(h, i, |Parents(h)|);
  }

  function Mark(parents: seq<Hash>, text: string): Hash {
    H(Commit(Zero, parents, Meta(text, true)))
  }

  /** Such a history exists. */
  lemma NearestNotLowestExample(root: Hash, x: Hash, a: Hash, y: Hash, z: Hash, w: Hash, b: Hash)
    requires root == Mark([], "root") && x == Mark([root], "x") && a == Mark([x], "a")
    requires y == Mark([x], "y") && z == Mark([y], "z")
    requires w == Mark([root], "w") && b == Mark([z, w], "b")
    ensures forall h :: NearestCommon(a, b, h) ==> h in Ancs(x) && x !in Ancs(h) && x in Ancs(a) && x in Ancs(b)
  {
    forall h | NearestCommon(a, b, h) ensures h in Ancs(x) && x !in Ancs(h) && x in Ancs(a) && x in Ancs(b) {
      NearestNeedNotBeLowest(root, x, a, y, z, w, b, h);
    }
  }
}
