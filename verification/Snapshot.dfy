/** The polling snapshot cache (pkg/resolve/snapshot.go): one served handle,
    retired handles waiting out a grace period, and the watched refs. */
module Snapshot {
  import opened Objects
  import opened MemStore
  import opened Sequences

  /** A read-only repository handle: frozen at open time. */
  datatype Handle = Handle(id: nat, refs: map<string, Hash>)

  datatype Retired = Retired(r: Handle, at: int)

  /** A close, with the retirement time of a handle that had been served. */
  datatype Closing = Closing(r: Handle, retired: Option<int>, at: int)

  /** The whole cache; `total` numbers the handles. */
  datatype Cache = Cache(
    cur: Handle, refs: seq<string>, lastHashes: map<string, Hash>,
    pending: seq<Retired>, closed: seq<Closing>, total: nat)

  /** 45 seconds, in milliseconds. */
  const GRACE := 45000

  // ---------- one tick as a function ----------

  /** The hash of each watched ref as a handle sees it, zero when absent. */
  function HashesOf(refs: seq<string>, h: Handle): map<string, Hash> {
    map ref | ref in refs :: GetRefOf(h.refs, ref)
  }

  predicate Changed(c: Cache, probe: Handle) {
    exists i :: 0 <= i < |c.refs| && GetRefOf(c.lastHashes, c.refs[i]) != GetRefOf(probe.refs, c.refs[i])
  }

  predicate Due(p: Retired, now: int) {
    now - p.at >= GRACE
  }

  function Kept(ps: seq<Retired>, now: int): seq<Retired> {
    if ps == [] then []
    else (if Due(ps[0], now) then [] else [ps[0]]) + Kept(ps[1..], now)
  }

  function Closings(ps: seq<Retired>, now: int): seq<Closing> {
    if ps == [] then []
    else (if Due(ps[0], now) then [Closing(ps[0].r, Some(ps[0].at), now)] else []) + Closings(ps[1..], now)
  }

  function Swept(c: Cache, now: int): Cache {
    c.(pending := Kept(c.pending, now), closed := c.closed + Closings(c.pending, now))
  }

  /** The cache with a probe handle opened and closed again. */
  function Discarded(c: Cache, probe: Handle, t: int): Cache {
    c.(total := c.total + 1, closed := c.closed + [Closing(probe, None, t)])
  }

  /** The cache with a probe handle swapped in. */
  function Swapped(c: Cache, probe: Handle, t: int): Cache {
    c.(total := c.total + 1, cur := probe, lastHashes := HashesOf(c.refs, probe),
       pending := c.pending + [Retired(c.cur, t)])
  }

  /** The cache after a tick: `disk` is what a probe open saw, or nothing if it
      failed; `t1` and `t2` are the clock at the swap and at the sweep. */
  function AfterTick(c: Cache, disk: Option<map<string, Hash>>, t1: int, t2: int): Cache {
    match disk
    case None => Swept(c, t2)
    case Some(refs) =>
      var probe := Handle(c.total, refs);
      Swept(if Changed(c, probe) then Swapped(c, probe, t1) else Discarded(c, probe, t1), t2)
  }

  function Opened(refs: seq<string>, disk: map<string, Hash>): Cache {
    var h := Handle(0, disk);
    Cache(h, refs, HashesOf(refs, h), [], [], 1)
  }

  // ---------- runs ----------

  datatype Event = Watch(refs: seq<string>) | Tick(disk: Option<map<string, Hash>>, t1: int, t2: int)

  function Step(c: Cache, e: Event): Cache {
    match e
    case Watch(refs) => c.(refs := refs)
    case Tick(disk, t1, t2) => AfterTick(c, disk, t1, t2)
  }

  /** The cache after each prefix of the events. */
  function After(c: Cache, es: seq<Event>): Cache
    decreases |es|
  {
    if es == [] then c else Step(After(c, es[..|es| - 1]), es[|es| - 1])
  }

  // ---------- invariants ----------

  /** Remembered hashes are those of the served handle. */
  ghost predicate Remembers(c: Cache) {
    forall ref :: ref in c.lastHashes ==> c.lastHashes[ref] == GetRefOf(c.cur.refs, ref)
  }

  function PendingCount(ps: seq<Retired>, id: nat): nat {
    if ps == [] then 0 else (if ps[0].r.id == id then 1 else 0) + PendingCount(ps[1..], id)
  }

  function ClosedCount(cs: seq<Closing>, id: nat): nat {
    if cs == [] then 0 else (if cs[0].r.id == id then 1 else 0) + ClosedCount(cs[1..], id)
  }

  /** In how many places handle `id` is: served, waiting, closed. */
  function Places(c: Cache, id: nat): nat {
    (if c.cur.id == id then 1 else 0) + PendingCount(c.pending, id) + ClosedCount(c.closed, id)
  }

  ghost predicate OnePlaceEach(c: Cache) {
    forall id: nat :: Places(c, id) == if id < c.total then 1 else 0
  }

  ghost predicate GraceKept(c: Cache) {
    forall i :: 0 <= i < |c.closed| && c.closed[i].retired.Some? ==> c.closed[i].at - c.closed[i].retired.value >= GRACE
  }

  ghost predicate Inv(c: Cache) {
    Remembers(c) && OnePlaceEach(c) && GraceKept(c)
  }

  lemma {:induction false} ClosedConcat(a: seq<Closing>, b: seq<Closing>, id: nat)
    ensures ClosedCount(a + b, id) == ClosedCount(a, id) + ClosedCount(b, id)
    decreases |a|
  {
    if a == [] {
      assert a + b == b;
    } else {
      assert (a + b)[1..] == a[1..] + b;
      ClosedConcat(a[1..], b, id);
    }
  }

  lemma {:induction false} PendingConcat(a: seq<Retired>, b: seq<Retired>, id: nat)
    ensures PendingCount(a + b, id) == PendingCount(a, id) + PendingCount(b, id)
    decreases |a|
  {
    if a == [] {
      assert a + b == b;
    } else {
      assert (a + b)[1..] == a[1..] + b;
      PendingConcat(a[1..], b, id);
    }
  }

  /** A sweep moves handles from pending to closed, none lost, none twice. */
  lemma {:induction false} SweepConserves(ps: seq<Retired>, now: int, id: nat)
    ensures PendingCount(Kept(ps, now), id) + ClosedCount(Closings(ps, now), id) == PendingCount(ps, id)
    decreases |ps|
  {
    if ps != [] {
      SweepConserves(ps[1..], now, id);
      KeptCons(ps, now);
      if Due(ps[0], now) {
        assert Closings(ps, now)[1..] == Closings(ps[1..], now);
      } else {
        assert Kept(ps, now)[1..] == Kept(ps[1..], now);
      }
    }
  }

  lemma KeptCons(ps: seq<Retired>, now: int)
    requires ps != []
    ensures Due(ps[0], now) ==>
              && Kept(ps, now) == Kept(ps[1..], now)
              && Closings(ps, now) == [Closing(ps[0].r, Some(ps[0].at), now)] + Closings(ps[1..], now)
    ensures !Due(ps[0], now) ==>
              && Kept(ps, now) == [ps[0]] + Kept(ps[1..], now)
              && Closings(ps, now) == Closings(ps[1..], now)
  {
  }

  lemma {:induction false} SweepKeepsGrace(ps: seq<Retired>, now: int)
    ensures forall i :: 0 <= i < |Closings(ps, now)| ==>
              var x := Closings(ps, now)[i]; x.retired.Some? && x.at - x.retired.value >= GRACE
    decreases |ps|
  {
    if ps != [] {
      SweepKeepsGrace(ps[1..], now);
      KeptCons(ps, now);
    }
  }

  lemma SweptKeepsInv(c: Cache, now: int)
    requires Inv(c)
    ensures Inv(Swept(c, now))
  {
    SweepKeepsGrace(c.pending, now);
    forall id: nat ensures Places(Swept(c, now), id) == Places(c, id) {
      SweepConserves(c.pending, now, id);
      ClosedConcat(c.closed, Closings(c.pending, now), id);
    }
    assert OnePlaceEach(Swept(c, now)) by {
      forall id: nat ensures Places(Swept(c, now), id) == if id < c.total then 1 else 0 {
        assert Places(c, id) == if id < c.total then 1 else 0;
      }
    }
  }

  lemma DiscardKeepsInv(c: Cache, probe: Handle, t: int)
    requires Inv(c) && probe.id == c.total
    ensures Inv(Discarded(c, probe, t))
  {
    var x := Closing(probe, None, t);
    assert [x][1..] == [];
    forall id: nat ensures Places(Discarded(c, probe, t), id) == if id < c.total + 1 then 1 else 0 {
      ClosedConcat(c.closed, [x], id);
      assert Places(c, id) == if id < c.total then 1 else 0;
    }
  }

  lemma SwapKeepsInv(c: Cache, probe: Handle, t: int)
    requires Inv(c) && probe.id == c.total
    ensures Inv(Swapped(c, probe, t))
  {
    var p := Retired(c.cur, t);
    assert [p][1..] == [];
    forall id: nat ensures Places(Swapped(c, probe, t), id) == if id < c.total + 1 then 1 else 0 {
      PendingConcat(c.pending, [p], id);
      assert Places(c, id) == if id < c.total then 1 else 0;
    }
  }

  lemma StepKeepsInv(c: Cache, e: Event)
    requires Inv(c)
    ensures Inv(Step(c, e))
  {
    match e {
      case Watch(refs) =>
        forall id: nat ensures Places(Step(c, e), id) == if id < c.total then 1 else 0 {
          assert Places(c, id) == if id < c.total then 1 else 0;
        }
      case Tick(disk, t1, t2) =>
        if disk.None? {
          SweptKeepsInv(c, t2);
        } else {
          var probe := Handle(c.total, disk.value);
          DiscardKeepsInv(c, probe, t1);
          SwapKeepsInv(c, probe, t1);
          SweptKeepsInv(if Changed(c, probe) then Swapped(c, probe, t1) else Discarded(c, probe, t1), t2);
        }
    }
  }

  lemma {:induction false} RunKeepsInv(refs: seq<string>, disk: map<string, Hash>, es: seq<Event>)
    ensures Inv(After(Opened(refs, disk), es))
    decreases |es|
  {
    if es == [] {
      forall id: nat ensures Places(Opened(refs, disk), id) == if id < 1 then 1 else 0 {}
    } else {
      RunKeepsInv(refs, disk, es[..|es| - 1]);
      StepKeepsInv(After(Opened(refs, disk), es[..|es| - 1]), es[|es| - 1]);
    }
  }

  // ---------- theorems over every run ----------

  /** Every handle opened so far is in exactly one place: served, waiting to be
      closed, or closed once. */
  lemma EachHandleInOnePlace(refs: seq<string>, disk: map<string, Hash>, es: seq<Event>, id: nat)
    ensures var c := After(Opened(refs, disk), es);
            Places(c, id) == if id < c.total then 1 else 0
  {
    RunKeepsInv(refs, disk, es);
  }

  /** In any run: after a tick that opened the repository, the served handle
      agrees with it on a watched ref exactly when the tick swapped, or the ref
      was already remembered, or it exists on disk, or the served handle has
      none either. In particular it agrees on every watched ref that exists. */
  lemma TickServesCurrent(refs: seq<string>, disk0: map<string, Hash>, es: seq<Event>, disk: map<string, Hash>,
      t1: int, t2: int, ref: string)
    requires ref in After(Opened(refs, disk0), es).refs
    ensures
      var c := After(Opened(refs, disk0), es);
      var c' := After(Opened(refs, disk0), es + [Tick(Some(disk), t1, t2)]);
      GetRefOf(c'.cur.refs, ref) == GetRefOf(disk, ref) <==>
        || Changed(c, Handle(c.total, disk))
        || ref in c.lastHashes
        || GetRefOf(disk, ref).H?
        || GetRefOf(c.cur.refs, ref).Zero?
  {
    var es' := es + [Tick(Some(disk), t1, t2)];
    assert es'[..|es'| - 1] == es;
    RunKeepsInv(refs, disk0, es);
    TickAgreesIff(After(Opened(refs, disk0), es), disk, t1, t2, ref);
  }

  /** A ref that is first watched after it was deleted stays visible: it was
      never remembered, so its absence does not count as a change. */
  lemma DeletedRefStaysServed(ref: string, h: Hash)
    requires h.H?
    ensures
      var c := After(Opened([], map[ref := h]), [Watch([ref]), Tick(Some(map[]), 0, 0)]);
      ref in c.refs && GetRefOf(c.cur.refs, ref) == h && GetRefOf(map[], ref) == Zero
  {
    var c0 := Opened([], map[ref := h]);
    var es := [Watch([ref]), Tick(Some(map[]), 0, 0)];
    assert es[..1] == [Watch([ref])] && es[..1][..0] == [];
    assert After(c0, es[..1]) == Step(c0, Watch([ref]));
    assert c0.lastHashes == map[];
    assert !Changed(c0.(refs := [ref]), Handle(1, map[]));
  }

  lemma TickAgreesIff(c: Cache, disk: map<string, Hash>, t1: int, t2: int, ref: string)
    requires Inv(c) && ref in c.refs
    ensures var c' := AfterTick(c, Some(disk), t1, t2);
            GetRefOf(c'.cur.refs, ref) == GetRefOf(disk, ref) <==>
              || Changed(c, Handle(c.total, disk))
              || ref in c.lastHashes
              || GetRefOf(disk, ref).H?
              || GetRefOf(c.cur.refs, ref).Zero?
  {
    var i :| 0 <= i < |c.refs| && c.refs[i] == ref;
    var probe := Handle(c.total, disk);
    if !Changed(c, probe) {
      assert GetRefOf(c.lastHashes, c.refs[i]) == GetRefOf(probe.refs, c.refs[i]);
    }
  }

  /** The handle is served, or retired, or was closed after its grace period. */
  ghost predicate Tracked(c: Cache, id: nat) {
    || c.cur.id == id
    || (exists i :: 0 <= i < |c.pending| && c.pending[i].r.id == id)
    || (exists i :: 0 <= i < |c.closed| && c.closed[i].r.id == id && c.closed[i].retired.Some?)
  }

  lemma {:induction false} SweepTracks(ps: seq<Retired>, now: int, i: nat)
    requires i < |ps|
    ensures
      var k, x, id := Kept(ps, now), Closings(ps, now), ps[i].r.id;
      || (exists j :: 0 <= j < |k| && k[j].r.id == id)
      || (exists j :: 0 <= j < |x| && x[j].r.id == id && x[j].retired.Some?)
    decreases |ps|
  {
    var k, x := Kept(ps, now), Closings(ps, now);
    var k1, x1 := Kept(ps[1..], now), Closings(ps[1..], now);
    KeptCons(ps, now);
    if i == 0 {
      if Due(ps[0], now) { assert x[0].r.id == ps[0].r.id; } else { assert k[0].r.id == ps[0].r.id; }
    } else {
      SweepTracks(ps[1..], now, i - 1);
      if j :| 0 <= j < |k1| && k1[j].r.id == ps[i].r.id {
        assert k[|k| - |k1| + j] == k1[j];
      } else {
        var j :| 0 <= j < |x1| && x1[j].r.id == ps[i].r.id && x1[j].retired.Some?;
        assert x[|x| - |x1| + j] == x1[j];
      }
    }
  }

  lemma SweptTracks(c: Cache, now: int, id: nat)
    requires Tracked(c, id)
    ensures Tracked(Swept(c, now), id)
  {
    var c' := Swept(c, now);
    var k, x := Kept(c.pending, now), Closings(c.pending, now);
    if i :| 0 <= i < |c.pending| && c.pending[i].r.id == id {
      SweepTracks(c.pending, now, i);
      if j :| 0 <= j < |k| && k[j].r.id == id {
        assert c'.pending[j].r.id == id;
      } else {
        var j :| 0 <= j < |x| && x[j].r.id == id && x[j].retired.Some?;
        assert c'.closed[|c.closed| + j] == x[j];
      }
    } else if i :| 0 <= i < |c.closed| && c.closed[i].r.id == id && c.closed[i].retired.Some? {
      assert c'.closed[i] == c.closed[i];
    }
  }

  lemma DiscardTracks(c: Cache, probe: Handle, t: int, id: nat)
    requires Tracked(c, id)
    ensures Tracked(Discarded(c, probe, t), id)
  {
    var c' := Discarded(c, probe, t);
    if i :| 0 <= i < |c.pending| && c.pending[i].r.id == id {
      assert c'.pending[i].r.id == id;
    } else if i :| 0 <= i < |c.closed| && c.closed[i].r.id == id && c.closed[i].retired.Some? {
      assert c'.closed[i] == c.closed[i];
    }
  }

  lemma SwapTracks(c: Cache, probe: Handle, t: int, id: nat)
    requires Tracked(c, id)
    ensures Tracked(Swapped(c, probe, t), id)
  {
    var c' := Swapped(c, probe, t);
    if c.cur.id == id {
      assert c'.pending[|c.pending|].r.id == id;
    } else if i :| 0 <= i < |c.pending| && c.pending[i].r.id == id {
      assert c'.pending[i].r.id == id;
    } else if i :| 0 <= i < |c.closed| && c.closed[i].r.id == id && c.closed[i].retired.Some? {
      assert c'.closed[i] == c.closed[i];
    }
  }

  lemma StepTracks(c: Cache, e: Event, id: nat)
    requires Tracked(c, id)
    ensures Tracked(Step(c, e), id)
  {
    match e {
      case Watch(refs) =>
      case Tick(disk, t1, t2) =>
        if disk.None? {
          SweptTracks(c, t2, id);
        } else {
          var probe := Handle(c.total, disk.value);
          DiscardTracks(c, probe, t1, id);
          SwapTracks(c, probe, t1, id);
          SweptTracks(if Changed(c, probe) then Swapped(c, probe, t1) else Discarded(c, probe, t1), t2, id);
        }
    }
  }

  lemma {:induction false} RunTracks(c: Cache, es: seq<Event>, id: nat)
    requires Tracked(c, id)
    ensures Tracked(After(c, es), id)
    decreases |es|
  {
    if es != [] {
      RunTracks(c, es[..|es| - 1], id);
      StepTracks(After(c, es[..|es| - 1]), es[|es| - 1], id);
    }
  }

  lemma {:induction false} ClosedTwice(cs: seq<Closing>, i: nat)
    requires i < |cs|
    ensures ClosedCount(cs, cs[i].r.id) >= 1
    ensures forall j :: 0 <= j < |cs| && j != i && cs[j].r.id == cs[i].r.id ==> ClosedCount(cs, cs[i].r.id) >= 2
    decreases |cs|
  {
    if i > 0 {
      ClosedTwice(cs[1..], i - 1);
      forall j | 0 <= j < |cs| && j != i && cs[j].r.id == cs[i].r.id ensures ClosedCount(cs, cs[i].r.id) >= 2 {
        if j > 0 { assert cs[1..][j - 1].r.id == cs[1..][i - 1].r.id; }
      }
    } else {
      forall j | 0 < j < |cs| && cs[j].r.id == cs[0].r.id ensures ClosedCount(cs, cs[0].r.id) >= 2 {
        ClosedTwice(cs[1..], j - 1);
      }
    }
  }

  lemma {:induction false} PendingOnce(ps: seq<Retired>, i: nat)
    requires i < |ps|
    ensures PendingCount(ps, ps[i].r.id) >= 1
    decreases |ps|
  {
    if i > 0 { PendingOnce(ps[1..], i - 1); }
  }

  lemma {:induction false} AfterConcat(c: Cache, a: seq<Event>, b: seq<Event>)
    ensures After(c, a + b) == After(After(c, a), b)
    decreases |b|
  {
    if b == [] {
      assert a + b == a;
    } else {
      assert (a + b)[..|a + b| - 1] == a + b[..|b| - 1];
      AfterConcat(c, a, b[..|b| - 1]);
    }
  }

  lemma TrackedClosedIsRetired(c: Cache, k: nat)
    requires Inv(c) && k < |c.closed| && Tracked(c, c.closed[k].r.id)
    ensures c.closed[k].retired.Some?
  {
    var id := c.closed[k].r.id;
    assert Places(c, id) <= 1;
    ClosedTwice(c.closed, k);
    if i :| 0 <= i < |c.pending| && c.pending[i].r.id == id { PendingOnce(c.pending, i); }
  }

  /** A handle that was ever served is closed, if at all, no sooner than the
      grace period after it was retired. */
  lemma ServedOutlivesGrace(refs: seq<string>, disk: map<string, Hash>, es: seq<Event>, more: seq<Event>, k: nat)
    requires k < |After(After(Opened(refs, disk), es), more).closed|
    requires After(After(Opened(refs, disk), es), more).closed[k].r.id == After(Opened(refs, disk), es).cur.id
    ensures var x := After(After(Opened(refs, disk), es), more).closed[k];
            x.retired.Some? && x.at - x.retired.value >= GRACE
  {
    var c := After(Opened(refs, disk), es);
    AfterConcat(Opened(refs, disk), es, more);
    RunKeepsInv(refs, disk, es + more);
    RunTracks(c, more, c.cur.id);
    TrackedClosedIsRetired(After(c, more), k);
  }

  // ---------- the moment a retired handle is closed ----------

  lemma {:induction false} KeptMember(ps: seq<Retired>, now: int, p: Retired)
    ensures p in Kept(ps, now) <==> p in ps && !Due(p, now)
    decreases |ps|
  {
    if ps != [] {
      KeptMember(ps[1..], now, p);
      KeptCons(ps, now);
      assert ps == [ps[0]] + ps[1..];
    }
  }

  lemma {:induction false} ClosingsMember(ps: seq<Retired>, now: int, x: Closing)
    ensures x in Closings(ps, now) <==> exists p :: p in ps && Due(p, now) && x == Closing(p.r, Some(p.at), now)
    decreases |ps|
  {
    if ps != [] {
      ClosingsMember(ps[1..], now, x);
      KeptCons(ps, now);
      assert ps == [ps[0]] + ps[1..];
    }
  }

  ghost predicate WasClosed(c: Cache, id: nat) {
    exists x :: x in c.closed && x.r.id == id
  }

  /** Handle `id` was retired at `t`, and waits to be closed or has been closed. */
  ghost predicate RetiredAt(c: Cache, id: nat, t: int) {
    && id < c.total && c.cur.id != id
    && (WasClosed(c, id) || exists p :: p in c.pending && p.r.id == id)
    && (forall p :: p in c.pending && p.r.id == id ==> p.at == t && !WasClosed(c, id))
  }

  /** A sweep that comes no sooner than 45 seconds after `t`. */
  predicate LateSweep(e: Event, t: int) {
    e.Tick? && e.t2 >= t + 45000
  }

  /** Every close of the handle is made by such a sweep, at its time. */
  ghost predicate ClosedLate(c: Cache, id: nat, t: int, es: seq<Event>) {
    forall x :: x in c.closed && x.r.id == id ==> exists e :: e in es && LateSweep(e, t) && e.t2 == x.at
  }

  lemma SweptRetired(c: Cache, id: nat, t: int, now: int)
    requires RetiredAt(c, id, t)
    ensures RetiredAt(Swept(c, now), id, t)
    ensures WasClosed(Swept(c, now), id) <==> WasClosed(c, id) || now >= t + 45000
    ensures forall x :: x in Swept(c, now).closed && x.r.id == id ==> x in c.closed || (now >= t + 45000 && x.at == now)
  {
    var c' := Swept(c, now);
    forall p ensures p in c'.pending <==> p in c.pending && !Due(p, now) { KeptMember(c.pending, now, p); }
    forall x
      ensures x in c'.closed <==>
                x in c.closed || exists p :: p in c.pending && Due(p, now) && x == Closing(p.r, Some(p.at), now)
    {
      ClosingsMember(c.pending, now, x);
    }
    if p :| p in c.pending && p.r.id == id {
      if Due(p, now) { assert Closing(p.r, Some(p.at), now) in c'.closed; } else { assert p in c'.pending; }
    }
    if WasClosed(c, id) {
      var x :| x in c.closed && x.r.id == id;
      assert x in c'.closed;
    }
  }

  lemma ProbedRetired(c: Cache, probe: Handle, t1: int, id: nat, t: int)
    requires RetiredAt(c, id, t) && probe.id == c.total
    ensures
      var d := if Changed(c, probe) then Swapped(c, probe, t1) else Discarded(c, probe, t1);
      && RetiredAt(d, id, t)
      && forall x: Closing :: x.r.id == id ==> (x in d.closed <==> x in c.closed)
  {
    var d := if Changed(c, probe) then Swapped(c, probe, t1) else Discarded(c, probe, t1);
    forall p: Retired | p.r.id == id ensures p in d.pending <==> p in c.pending {}
    forall x: Closing | x.r.id == id ensures x in d.closed <==> x in c.closed {}
    assert WasClosed(d, id) <==> WasClosed(c, id);
  }

  lemma StepRetired(c: Cache, e: Event, id: nat, t: int)
    requires RetiredAt(c, id, t)
    ensures RetiredAt(Step(c, e), id, t)
    ensures WasClosed(Step(c, e), id) <==> WasClosed(c, id) || LateSweep(e, t)
    ensures forall x :: x in Step(c, e).closed && x.r.id == id ==> x in c.closed || (LateSweep(e, t) && x.at == e.t2)
  {
    match e {
      case Watch(refs) =>
      case Tick(disk, t1, t2) =>
        if disk.None? {
          SweptRetired(c, id, t, t2);
        } else {
          var probe := Handle(c.total, disk.value);
          ProbedRetired(c, probe, t1, id, t);
          SweptRetired(if Changed(c, probe) then Swapped(c, probe, t1) else Discarded(c, probe, t1), id, t, t2);
        }
    }
  }

  /** A served handle is in no other place. */
  lemma ServedOnly(c: Cache)
    requires Inv(c)
    ensures c.cur.id < c.total && !WasClosed(c, c.cur.id) && forall p :: p in c.pending ==> p.r.id != c.cur.id
  {
    assert Places(c, c.cur.id) == 1;
    forall x | x in c.closed ensures x.r.id != c.cur.id {
      var i :| 0 <= i < |c.closed| && c.closed[i] == x;
      ClosedTwice(c.closed, i);
    }
    forall p | p in c.pending ensures p.r.id != c.cur.id {
      var i :| 0 <= i < |c.pending| && c.pending[i] == p;
      PendingOnce(c.pending, i);
    }
  }

  /** The tick that replaces the served handle retires it at its first clock. */
  lemma SwapRetires(c: Cache, e: Event)
    requires Inv(c) && Step(c, e).cur.id != c.cur.id
    ensures e.Tick? && RetiredAt(Step(c, e), c.cur.id, e.t1)
    ensures WasClosed(Step(c, e), c.cur.id) <==> LateSweep(e, e.t1)
    ensures ClosedLate(Step(c, e), c.cur.id, e.t1, [e])
  {
    var id := c.cur.id;
    ServedOnly(c);
    var probe := Handle(c.total, e.disk.value);
    var d := Swapped(c, probe, e.t1);
    assert Retired(c.cur, e.t1) in d.pending;
    assert !WasClosed(d, id);
    assert RetiredAt(d, id, e.t1);
    SweptRetired(d, id, e.t1, e.t2);
    forall x | x in Step(c, e).closed && x.r.id == id ensures LateSweep(e, e.t1) && e.t2 == x.at && e in [e] {
      assert x !in d.closed;
    }
  }

  lemma {:induction false} RunRetired(c: Cache, more: seq<Event>, id: nat, t: int)
    requires RetiredAt(c, id, t)
    ensures RetiredAt(After(c, more), id, t)
    ensures WasClosed(After(c, more), id) <==> WasClosed(c, id) || exists e :: e in more && LateSweep(e, t)
    ensures forall x :: x in After(c, more).closed && x.r.id == id ==>
              x in c.closed || exists e :: e in more && LateSweep(e, t) && e.t2 == x.at
    decreases |more|
  {
    if more != [] {
      var front, last := more[..|more| - 1], more[|more| - 1];
      assert more == front + [last];
      RunRetired(c, front, id, t);
      StepRetired(After(c, front), last, id, t);
    }
  }

  /** The handle that a tick with clocks t1 and t2 replaces is closed in any
      continuation of the run exactly when that tick or a later one sweeps no
      sooner than 45 seconds after t1, and only by such a sweep. */
  lemma ReplacedClosedIff(refs: seq<string>, disk: map<string, Hash>, es: seq<Event>, e: Event, more: seq<Event>)
    requires After(Opened(refs, disk), es + [e]).cur.id != After(Opened(refs, disk), es).cur.id
    ensures
      var id, c := After(Opened(refs, disk), es).cur.id, After(Opened(refs, disk), es + [e] + more);
      && e.Tick?
      && (WasClosed(c, id) <==> exists f :: f in [e] + more && f.Tick? && f.t2 >= e.t1 + 45000)
      && forall x :: x in c.closed && x.r.id == id ==>
           x.at >= e.t1 + 45000 && exists f :: f in [e] + more && f.Tick? && f.t2 == x.at
  {
    var start := Opened(refs, disk);
    var c := After(start, es);
    RunKeepsInv(refs, disk, es);
    assert (es + [e])[..|es|] == es;
    SwapRetires(c, e);
    AfterConcat(start, es + [e], more);
    RunRetired(Step(c, e), more, c.cur.id, e.t1);
    assert e in [e] + more && forall f :: f in [e] + more <==> f == e || f in more;
    assert forall f :: LateSweep(f, e.t1) <==> f.Tick? && f.t2 >= e.t1 + 45000;
  }

  /** What the served handle showed for a ref when it was swapped in. */
  function LastSeen(c: Cache, ref: string): Hash {
    if ref in c.lastHashes then GetRefOf(c.cur.refs, ref) else Zero
  }

  /** In any run: a tick that opened the repository serves the new handle
      exactly when it shows another hash for some watched ref than the served
      one, a ref that was not watched at the last swap counting as absent. */
  lemma ReplacedIff(refs: seq<string>, disk0: map<string, Hash>, es: seq<Event>, disk: map<string, Hash>,
      t1: int, t2: int)
    ensures
      var c := After(Opened(refs, disk0), es);
      var c' := After(Opened(refs, disk0), es + [Tick(Some(disk), t1, t2)]);
      && (c'.cur.id != c.cur.id <==> exists ref :: ref in c.refs && GetRefOf(disk, ref) != LastSeen(c, ref))
      && (forall ref :: ref in c'.lastHashes <==> if c'.cur.id != c.cur.id then ref in c.refs else ref in c.lastHashes)
      && c'.cur == if c'.cur.id != c.cur.id then Handle(c.total, disk) else c.cur
  {
    var e := Tick(Some(disk), t1, t2);
    var c := After(Opened(refs, disk0), es);
    assert (es + [e])[..|es|] == es;
    RunKeepsInv(refs, disk0, es);
    ServedOnly(c);
    if Changed(c, Handle(c.total, disk)) {
      var i :| 0 <= i < |c.refs| && GetRefOf(c.lastHashes, c.refs[i]) != GetRefOf(disk, c.refs[i]);
      assert c.refs[i] in c.refs;
    }
  }

  // ---------- the object ----------

  lemma {:induction false} SweepSnoc(ps: seq<Retired>, p: Retired, now: int)
    ensures Kept(ps + [p], now) == Kept(ps, now) + (if Due(p, now) then [] else [p])
    ensures Closings(ps + [p], now) == Closings(ps, now) + (if Due(p, now) then [Closing(p.r, Some(p.at), now)] else [])
    decreases |ps|
  {
    if ps == [] {
      assert [] + [p] == [p] && [p][1..] == [];
    } else {
      assert (ps + [p])[1..] == ps[1..] + [p] && (ps + [p])[0] == ps[0];
      SweepSnoc(ps[1..], p, now);
      KeptCons(ps, now);
      KeptCons(ps + [p], now);
      if Due(ps[0], now) {
        ConcatAssoc([Closing(ps[0].r, Some(ps[0].at), now)], Closings(ps[1..], now),
          if Due(p, now) then [Closing(p.r, Some(p.at), now)] else []);
      } else {
        ConcatAssoc([ps[0]], Kept(ps[1..], now), if Due(p, now) then [] else [p]);
      }
    }
  }

  /** What Close leaves: every waiting handle and the served one closed. */
  function ClosedDown(ps: seq<Retired>, now: int): seq<Closing> {
    if ps == [] then [] else ClosedDown(ps[..|ps| - 1], now) + [Closing(ps[|ps| - 1].r, Some(ps[|ps| - 1].at), now)]
  }

  lemma {:induction false} ClosedDownCount(ps: seq<Retired>, now: int, id: nat)
    ensures ClosedCount(ClosedDown(ps, now), id) == PendingCount(ps, id)
    decreases |ps|
  {
    if ps != [] {
      var front, last := ps[..|ps| - 1], ps[|ps| - 1];
      ClosedDownCount(front, now, id);
      assert ps == front + [last];
      PendingConcat(front, [last], id);
      var x := Closing(last.r, Some(last.at), now);
      assert [x][1..] == [] && [last][1..] == [];
      ClosedConcat(ClosedDown(front, now), [x], id);
    }
  }

  /** The slots from i on still hold what was there before the sweep. */
  lemma SlotAt(slots: seq<Retired>, was: seq<Retired>, i: nat, len: nat)
    requires i < len == |was| <= |slots| && slots[i..len] == was[i..]
    ensures slots[i] == was[i] && slots[i + 1..len] == was[i + 1..]
    ensures was[..i + 1] == was[..i] + [was[i]]
  {
    assert slots[i..len][0] == was[i..][0];
    assert slots[i..len][1..] == was[i..][1..];
  }

  /** Moving a kept handle down to slot k disturbs no later slot. */
  lemma SlotMoved(slots: seq<Retired>, was: seq<Retired>, i: nat, len: nat, k: nat, pc: Retired)
    requires k <= i < len == |was| <= |slots| && slots[i..len] == was[i..]
    ensures slots[k := pc][i + 1..len] == was[i + 1..]
    ensures slots[k := pc][..k + 1] == slots[..k] + [pc]
  {
    SlotAt(slots, was, i, len);
  }

  lemma ConcatNothing<T>(s: seq<T>)
    ensures s + [] == s
  {
  }

  class PollingSnapshotter {
    var cur: Option<Handle>
    var refs: seq<string>
    var lastHashes: map<string, Hash>
    var pending: array<Retired>
    var len: nat
    ghost var closed: seq<Closing>
    ghost var total: nat

    ghost predicate Live()
      reads this
    {
      cur.Some? && len <= pending.Length
    }

    ghost function Abs(): Cache
      requires Live()
      reads this, pending
    {
      Cache(cur.value, refs, lastHashes, pending[..len], closed, total)
    }

    constructor (first: Handle, refsToWatch: seq<string>)
      requires first.id == 0
      ensures Live() && Abs() == Opened(refsToWatch, first.refs)
    {
      cur, refs, lastHashes, len := Some(first), refsToWatch, map[], 0;
      pending := new Retired[0];
      closed, total := [], 1;
      new;
      CaptureHashes(first);
      assert pending[..len] == [];
    }

    /** Records the hash of every watched ref. */
    method CaptureHashes(r: Handle)
      modifies this`lastHashes
      ensures forall ref :: ref in lastHashes <==> ref in old(lastHashes) || ref in refs
      ensures forall ref :: ref in lastHashes ==>
                lastHashes[ref] == if ref in refs then GetRefOf(r.refs, ref) else old(lastHashes)[ref]
      ensures old(lastHashes) == map[] ==> lastHashes == HashesOf(refs, r)
    {
      for i := 0 to |refs|
        invariant forall ref :: ref in lastHashes <==> ref in old(lastHashes) || ref in refs[..i]
        invariant forall ref :: ref in lastHashes ==>
                    lastHashes[ref] == if ref in refs[..i] then GetRefOf(r.refs, ref) else old(lastHashes)[ref]
      {
        assert refs[..i + 1] == refs[..i] + [refs[i]];
        lastHashes := lastHashes[refs[i] := GetRefOf(r.refs, refs[i])];
      }
      assert refs[..|refs|] == refs;
    }

    method SetWatchedRefs(refsToWatch: seq<string>)
      requires Live()
      modifies this`refs
      ensures Live() && Abs() == Step(old(Abs()), Watch(refsToWatch))
    {
      refs := refsToWatch;
    }

    method Snapshot() returns (r: Result<Handle>)
      ensures r == if cur.Some? then Ok(cur.value) else Err(NotFound)
    {
      if cur.Some? { return Ok(cur.value); }
      return Err(NotFound);
    }

    /** Compacts the waiting list in place, closing what is due. */
    method SweepPending(now: int)
      requires Live()
      modifies this`len, this`closed, pending
      ensures Live() && Abs() == Swept(old(Abs()), now)
    {
      ghost var was := pending[..len];
      var k := 0;
      for i := 0 to len
        invariant 0 <= k <= i <= len == |was| && len == old(len)
        invariant pending[..k] == Kept(was[..i], now)
        invariant pending[i..len] == was[i..]
        invariant closed == old(closed) + Closings(was[..i], now)
      {
        var pc := pending[i];
        SlotAt(pending[..], was, i, len);
        SweepSnoc(was[..i], pc, now);
        if now - pc.at >= GRACE {
          ConcatAssoc(old(closed), Closings(was[..i], now), [Closing(pc.r, Some(pc.at), now)]);
          closed := closed + [Closing(pc.r, Some(pc.at), now)];
        } else {
          ghost var before := pending[..];
          SlotMoved(before, was, i, len, k, pc);
          ConcatNothing(Closings(was[..i], now));
          pending[k] := pc;
          assert pending[..] == before[k := pc];
          k := k + 1;
        }
      }
      assert was[..len] == was;
      len := k;
    }

    /** Puts the old handle on the waiting list. */
    method Retire(retiring: Handle, at: int)
      requires Live()
      modifies this`pending, this`len
      ensures Live() && fresh(pending) && len == old(len) + 1
      ensures pending[..len] == old(pending[..len]) + [Retired(retiring, at)]
    {
      var grown := new Retired[len + 1](i reads this, pending requires 0 <= i <= len <= pending.Length =>
        if i < len then pending[i] else Retired(retiring, at));
      assert grown[..len] == pending[..len];
      pending, len := grown, len + 1;
    }

    /** Opens a probe; swaps it in if a watched ref moved, else discards it. */
    method Tick(probe: Option<Handle>, t1: int, t2: int)
      requires Live() && (probe.Some? ==> probe.value.id == total)
      modifies this, pending
      ensures Live()
      ensures Abs() == AfterTick(old(Abs()), if probe.Some? then Some(probe.value.refs) else None, t1, t2)
    {
      if probe.None? {
        SweepPending(t2);
        return;
      }
      var h := probe.value;
      var changed := false;
      var hashes: map<string, Hash> := map[];
      for i := 0 to |refs|
        invariant changed <==> exists j :: 0 <= j < i && GetRefOf(lastHashes, refs[j]) != GetRefOf(h.refs, refs[j])
        invariant hashes == HashesOf(refs[..i], h)
      {
        assert refs[..i + 1] == refs[..i] + [refs[i]];
        var x := GetRefOf(h.refs, refs[i]);
        hashes := hashes[refs[i] := x];
        if GetRefOf(lastHashes, refs[i]) != x { changed := true; }
      }
      assert refs[..|refs|] == refs;
      assert changed <==> Changed(Abs(), h);
      if !changed {
        closed, total := closed + [Closing(h, None, t1)], total + 1;
        assert Abs() == Discarded(old(Abs()), h, t1);
        SweepPending(t2);
        return;
      }
      Retire(cur.value, t1);
      lastHashes, cur, total := hashes, Some(h), total + 1;
      assert Abs() == Swapped(old(Abs()), h, t1);
      SweepPending(t2);
    }

    /** Shutdown: everything still open is closed, so in the end each handle
        has been closed exactly once. */
    method Close(now: int)
      requires Live() && Inv(Abs())
      modifies this
      ensures cur.None? && len == 0
      ensures forall id: nat :: ClosedCount(closed, id) == if id < total then 1 else 0
    {
      ghost var c := Abs();
      ghost var ps := pending[..len];
      for i := 0 to len
        invariant len == |ps| && len <= pending.Length && pending[..len] == ps
        invariant cur == Some(c.cur) && total == c.total
        invariant closed == c.closed + ClosedDown(ps[..i], now)
      {
        assert ps[..i + 1][..i] == ps[..i];
        ConcatAssoc(c.closed, ClosedDown(ps[..i], now), [Closing(pending[i].r, Some(pending[i].at), now)]);
        closed := closed + [Closing(pending[i].r, Some(pending[i].at), now)];
      }
      assert ps[..len] == ps;
      ghost var last := Closing(cur.value, Some(now), now);
      forall id: nat ensures ClosedCount(closed + [last], id) == if id < total then 1 else 0 {
        assert Places(c, id) == if id < c.total then 1 else 0;
        ClosedDownCount(ps, now, id);
        ClosedConcat(c.closed, ClosedDown(ps, now), id);
        ClosedConcat(closed, [last], id);
        assert [last][1..] == [];
      }
      closed := closed + [last];
      cur, len := None, 0;
    }
  }
}
