/** Full and incremental zone transfer (pkg/resolve/axfr.go, ixfr.go). */
module Transfer {
  import opened Objects
  import opened MemStore
  import opened TreeOps
  import opened TreeReads
  import opened Ancestry
  import opened Reach
  import opened Repo
  import opened History
  import opened Sequences

  // ---------- records of a zone ----------

  function Rrs(blob: Hash): seq<RR> {
    if blob.H? && blob.obj.Blob? then blob.obj.rrs else []
  }

  predicate IsApexSOA(path: seq<string>, rr: string) {
    path == [] && rr == "SOA"
  }

  /** The records of the listed sets, in order, without the apex SOA. */
  function Records(ls: seq<LeafRec>): seq<RR> {
    if ls == [] then []
    else (if IsApexSOA(ls[0].path, ls[0].rr) then [] else Rrs(ls[0].blob)) + Records(ls[1..])
  }

  /** What a full transfer sends between the two copies of the SOA. */
  function ZoneBody(tree: Hash): seq<RR> {
    Records(Leaves([], Ents(tree)))
  }

  /** Every record set of the tree is stored and decodes. */
  ghost predicate BlobsIn(objs: Objs, tree: Hash) {
    forall path: seq<string>, rr: string :: At(tree, path, rr).H? ==>
      Holds(objs, At(tree, path, rr)) && At(tree, path, rr).obj.Blob?
  }

  ghost predicate ZoneStored(objs: Objs, head: Hash) {
    && ContentAddressed(objs) && WellStored(objs, head)
    && forall x :: x in Ancs(head) ==> BlobsIn(objs, CommitTree(x))
  }

  // ---------- lookups ----------

  /** The record set at a key of a commit. */
  function LookupOf(objs: Objs, commit: Hash, path: seq<string>, rr: string): Result<seq<RR>> {
    if LoadCommit(objs, commit).Err? then Err(NotFound)
    else
      var blob := At(objs[commit].tree, path, rr);
      if blob.Zero? || blob !in objs then Err(NotFound)
      else if !objs[blob].Blob? then Err(InvalidObject)
      else Ok(objs[blob].rrs)
  }

  method Lookup(s: Store, commit: Hash, path: seq<string>, rr: string) returns (r: Result<seq<RR>>)
    requires ContentAddressed(s.objects)
    requires LoadCommit(s.objects, commit).Ok? ==> GoodTree(s.objects, CommitTree(commit))
    ensures r.Ok? <==> LookupOf(s.objects, commit, path, rr).Ok?
    ensures r.Ok? ==> r == LookupOf(s.objects, commit, path, rr)
  {
    var c := LoadCommit(s.objects, commit);
    if c.Err? { return Err(c.error); }
    RootSpine(s.objects, c.value.tree, path);
    var w := WalkTree(s, c.value.tree, path, rr);
    if w.Err? { return Err(w.error); }
    var obj := s.GetObject(w.value);
    if obj.Err? { return Err(obj.error); }
    if !obj.value.Blob? { return Err(InvalidObject); }
    return Ok(obj.value.rrs);
  }

  /** The serial of a commit's apex SOA, if it has exactly one SOA record. */
  function SerialOf(objs: Objs, commit: Hash): Option<nat> {
    match LookupOf(objs, commit, [], "SOA")
    case Err(_) => None
    case Ok(rrs) => if |rrs| == 1 && rrs[0].SOA? then Some(rrs[0].serial) else None
  }

  // ---------- searching the history for a serial ----------

  const MAX_COMMITS := 10000

  lemma {:induction false} SubsetSize<T>(a: set<T>, b: set<T>)
    requires a <= b
    ensures |a| <= |b|
    decreases a
  {
    if a != {} {
      var x :| x in a;
      SubsetSize(a - {x}, b - {x});
    }
  }

  /** The apex SOA set of a commit, if it is a single SOA with this serial. */
  method MatchSerial(s: Store, commit: Hash, serial: nat) returns (r: Option<seq<RR>>)
    requires ContentAddressed(s.objects)
    requires LoadCommit(s.objects, commit).Ok? ==> GoodTree(s.objects, CommitTree(commit))
    ensures r.Some? <==> SerialOf(s.objects, commit) == Some(serial)
    ensures r.Some? ==> LookupOf(s.objects, commit, [], "SOA") == Ok(r.value)
  {
    var soa := Lookup(s, commit, [], "SOA");
    if soa.Ok? && |soa.value| == 1 && soa.value[0].SOA? && soa.value[0].serial == serial {
      return Some(soa.value);
    }
    return None;
  }

  /** Breadth-first search for a commit with the client's serial, bounded by
      the number of commits seen. */
  method FindCommitBySerial(s: Store, head: Hash, serial: nat) returns (r: Result<(Hash, seq<RR>)>)
    requires ContentAddressed(s.objects) && (head.H? ==> WellStored(s.objects, head))
    ensures r.Ok? ==>
              && r.value.0 in Ancs(head) && SerialOf(s.objects, r.value.0) == Some(serial)
              && LookupOf(s.objects, r.value.0, [], "SOA") == Ok(r.value.1)
    ensures head.H? && |Ancs(head)| < 10000 ==>
              (r.Ok? <==> exists x :: x in Ancs(head) && SerialOf(s.objects, x) == Some(serial))
  {
    if head.Zero? { return Err(NotFound); }
    var queue, seen := [head], {head};
    ghost var objs := s.objects;
    while |queue| > 0 && |seen| < MAX_COMMITS
      invariant head in seen && seen <= Ancs(head) && Elems(queue) <= seen
      invariant RuledOut(objs, serial, seen, Elems(queue))
      decreases Ancs(head) - seen, |queue|
    {
      var cur := queue[0];
      ghost var rest, seen0 := queue[1..], seen;
      TakeFirst(queue);
      queue := queue[1..];
      StoredAncestor(objs, head, cur);
      var soa := MatchSerial(s, cur, serial);
      if soa.Some? { return Ok((cur, soa.value)); }
      var c := LoadCommit(s.objects, cur);
      if c.Err? { return Err(NotFound); }
      ghost var added;
      queue, seen, added := Enqueue(queue, seen, c.value.parents);
      QueueGrew(rest, added, seen0, seen);
      NewAncestors(head, cur, seen0, seen);
      RuledOutStep(objs, serial, seen0, cur, Elems(rest), seen);
    }
    if |Ancs(head)| < MAX_COMMITS {
      SubsetSize(seen, Ancs(head));
      NoneLeft(objs, serial, head, seen);
    }
    return Err(NotFound);
  }

  /** Seen commits off the queue do not carry the serial, and their parents
      have been seen. */
  ghost predicate RuledOut(objs: Objs, serial: nat, seen: set<Hash>, queued: set<Hash>) {
    forall h :: h in seen && h !in queued ==> SerialOf(objs, h) != Some(serial) && Elems(Parents(h)) <= seen
  }

  lemma RuledOutStep(objs: Objs, serial: nat, seen0: set<Hash>, cur: Hash, rest: set<Hash>, seen: set<Hash>)
    requires RuledOut(objs, serial, seen0, {cur} + rest)
    requires seen == seen0 + Elems(Parents(cur)) && SerialOf(objs, cur) != Some(serial)
    ensures RuledOut(objs, serial, seen, rest + (seen - seen0))
  {
  }

  lemma NoneLeft(objs: Objs, serial: nat, head: Hash, seen: set<Hash>)
    requires head in seen && seen <= Ancs(head) && RuledOut(objs, serial, seen, {})
    ensures forall x :: x in Ancs(head) ==> SerialOf(objs, x) != Some(serial)
  {
    SearchedAll(seen, head);
  }

  lemma StoredAncestor(objs: Objs, head: Hash, x: Hash)
    requires WellStored(objs, head) && x in Ancs(head)
    ensures Holds(objs, x) && x.obj.Commit? && GoodTree(objs, CommitTree(x))
  {
  }

  // ---------- sums of record sets ----------

  ghost function Sum(ls: set<LeafRec>): multiset<RR>
    decreases ls
  {
    if ls == {} then multiset{}
    else var x :| x in ls; multiset(Rrs(x.blob)) + Sum(ls - {x})
  }

  lemma {:induction false} SumTake(ls: set<LeafRec>, x: LeafRec)
    requires x in ls
    ensures Sum(ls) == multiset(Rrs(x.blob)) + Sum(ls - {x})
    decreases ls
  {
    var y :| y in ls && Sum(ls) == multiset(Rrs(y.blob)) + Sum(ls - {y});
    if x != y {
      SumTake(ls - {y}, x);
      SumTake(ls - {x}, y);
      assert ls - {y} - {x} == ls - {x} - {y};
    }
  }

  lemma LessOne<T>(a: set<T>, b: set<T>, x: T)
    requires a !! b && x in a
    ensures a + b - {x} == (a - {x}) + b && (a - {x}) !! b
  {
  }

  lemma {:induction false} SumUnion(a: set<LeafRec>, b: set<LeafRec>)
    requires a !! b
    ensures Sum(a + b) == Sum(a) + Sum(b)
    decreases a
  {
    if a == {} {
      assert a + b == b;
    } else {
      var x :| x in a;
      SumTake(a, x);
      SumTake(a + b, x);
      LessOne(a, b, x);
      SumUnion(a - {x}, b);
    }
  }

  function Counted(ls: seq<LeafRec>): set<LeafRec> {
    set x | x in ls && !IsApexSOA(x.path, x.rr)
  }

  ghost predicate NoRepeats(ls: seq<LeafRec>) {
    forall i, j :: 0 <= i < j < |ls| ==> ls[i] != ls[j]
  }

  lemma CountedCons(x: LeafRec, ls: seq<LeafRec>)
    requires x !in ls
    ensures IsApexSOA(x.path, x.rr) ==> Counted([x] + ls) == Counted(ls)
    ensures !IsApexSOA(x.path, x.rr) ==> x in Counted([x] + ls) && Counted([x] + ls) - {x} == Counted(ls)
  {
  }

  lemma RecordsCons(x: LeafRec, ls: seq<LeafRec>)
    ensures IsApexSOA(x.path, x.rr) ==> Records([x] + ls) == Records(ls)
    ensures !IsApexSOA(x.path, x.rr) ==> Records([x] + ls) == Rrs(x.blob) + Records(ls)
  {
    assert ([x] + ls)[1..] == ls;
  }

  lemma {:induction false} RecordsAreSum(ls: seq<LeafRec>)
    requires NoRepeats(ls)
    ensures multiset(Records(ls)) == Sum(Counted(ls))
    decreases |ls|
  {
    if ls == [] {
      assert Counted(ls) == {};
    } else {
      var x, rest := ls[0], ls[1..];
      RecordsAreSum(rest);
      assert ls == [x] + rest && x !in rest;
      CountedCons(x, rest);
      RecordsCons(x, rest);
      if !IsApexSOA(x.path, x.rr) { SumTake(Counted(ls), x); }
    }
  }

  // ---------- the delta between two trees ----------

  /** The record set a blob stands for, if there is one. */
  function Sets(path: seq<string>, rr: string, blob: Hash): seq<LeafRec> {
    if blob.H? then [LeafRec(path, rr, blob)] else []
  }

  function Removals(cs: seq<Change>): seq<LeafRec> {
    if cs == [] then []
    else Sets(cs[0].path, cs[0].rr, cs[0].oldBlob) + Removals(cs[1..])
  }

  function Additions(cs: seq<Change>): seq<LeafRec> {
    if cs == [] then []
    else Sets(cs[0].path, cs[0].rr, cs[0].newBlob) + Additions(cs[1..])
  }

  lemma {:induction false} RemovalsAre(cs: seq<Change>, x: LeafRec)
    ensures x in Removals(cs) <==> exists c :: c in cs && c.oldBlob.H? && x == LeafRec(c.path, c.rr, c.oldBlob)
    decreases |cs|
  {
    if cs != [] {
      RemovalsAre(cs[1..], x);
      assert cs == [cs[0]] + cs[1..];
    }
  }

  lemma {:induction false} AdditionsAre(cs: seq<Change>, x: LeafRec)
    ensures x in Additions(cs) <==> exists c :: c in cs && c.newBlob.H? && x == LeafRec(c.path, c.rr, c.newBlob)
    decreases |cs|
  {
    if cs != [] {
      AdditionsAre(cs[1..], x);
      assert cs == [cs[0]] + cs[1..];
    }
  }

  lemma ConsNoRepeats(x: LeafRec, ls: seq<LeafRec>)
    requires NoRepeats(ls) && x !in ls
    ensures NoRepeats([x] + ls)
  {
  }

  lemma {:induction false} DeltaNoRepeats(cs: seq<Change>)
    requires DistinctChanges(cs)
    ensures NoRepeats(Removals(cs)) && NoRepeats(Additions(cs))
    decreases |cs|
  {
    if cs != [] {
      var c := cs[0];
      DeltaNoRepeats(cs[1..]);
      forall d | d in cs[1..] ensures !SameKey(c, d) {
        var j :| 1 <= j < |cs| && cs[j] == d;
      }
      var x, y := LeafRec(c.path, c.rr, c.oldBlob), LeafRec(c.path, c.rr, c.newBlob);
      RemovalsAre(cs[1..], x);
      AdditionsAre(cs[1..], y);
      ConsNoRepeats(x, Removals(cs[1..]));
      ConsNoRepeats(y, Additions(cs[1..]));
    }
  }

  lemma LeavesAre(tree: Hash, x: LeafRec)
    requires CanonRoot(tree)
    ensures x in Leaves([], Ents(tree)) <==> x.blob.H? && At(tree, x.path, x.rr) == x.blob
  {
    LeavesExact([], Ents(tree), x);
    assert x.path[0..] == x.path;
  }

  lemma LeavesNoRepeats(tree: Hash)
    requires CanonRoot(tree)
    ensures NoRepeats(Leaves([], Ents(tree)))
  {
    LeavesDistinct([], Ents(tree));
  }

  lemma DeltaMember(a: Hash, b: Hash, x: LeafRec)
    requires CanonRoot(a) && CanonRoot(b)
    ensures x in Removals(DiffList(a, b)) <==> x in Leaves([], Ents(a)) && x !in Leaves([], Ents(b))
    ensures x in Additions(DiffList(a, b)) <==> x in Leaves([], Ents(b)) && x !in Leaves([], Ents(a))
  {
    var cs := DiffList(a, b);
    DiffMembers(a, b);
    LeavesAre(a, x);
    LeavesAre(b, x);
    RemovalsAre(cs, x);
    AdditionsAre(cs, x);
    var u, v := At(a, x.path, x.rr), At(b, x.path, x.rr);
    var c := MkChange(x.path, x.rr, u, v);
    assert u != v ==> c in cs;
  }

  /** The zone's record sets apart from the one at the apex of type SOA. */
  ghost function OtherSets(tree: Hash): (ls: set<LeafRec>)
    requires CanonRoot(tree)
    ensures forall x: LeafRec :: x in ls <==>
              x.blob.H? && At(tree, x.path, x.rr) == x.blob && (x.path != [] || x.rr != "SOA")
  {
    forall x: LeafRec { LeavesAre(tree, x); }
    set x | x in Leaves([], Ents(tree)) && (x.path != [] || x.rr != "SOA")
  }

  lemma CountedAre(tree: Hash)
    requires CanonRoot(tree)
    ensures Counted(Leaves([], Ents(tree))) == OtherSets(tree)
  {
    forall x: LeafRec ensures x in Counted(Leaves([], Ents(tree))) <==> x in OtherSets(tree) { LeavesAre(tree, x); }
  }

  /** The body of a transfer is the records of all those sets. */
  lemma BodyIsSum(tree: Hash)
    requires CanonRoot(tree)
    ensures multiset(ZoneBody(tree)) == Sum(OtherSets(tree))
  {
    LeavesNoRepeats(tree);
    RecordsAreSum(Leaves([], Ents(tree)));
    CountedAre(tree);
  }

  /** The removals are the record sets only the old zone has, the additions
      those only the new one has. */
  lemma DeltaSets(a: Hash, b: Hash)
    requires CanonRoot(a) && CanonRoot(b)
    ensures
      var cs := DiffList(a, b);
      && Counted(Removals(cs)) == OtherSets(a) - OtherSets(b)
      && Counted(Additions(cs)) == OtherSets(b) - OtherSets(a)
  {
    CountedAre(a);
    CountedAre(b);
    var cs := DiffList(a, b);
    forall x: LeafRec
      ensures x in Removals(cs) <==> x in Leaves([], Ents(a)) && x !in Leaves([], Ents(b))
      ensures x in Additions(cs) <==> x in Leaves([], Ents(b)) && x !in Leaves([], Ents(a))
    {
      DeltaMember(a, b, x);
    }
  }

  lemma SumSplit(la: set<LeafRec>, lb: set<LeafRec>)
    ensures Sum(la - lb) <= Sum(la)
    ensures Sum(la) - Sum(la - lb) + Sum(lb - la) == Sum(lb)
  {
    assert la == (la * lb) + (la - lb) && lb == (la * lb) + (lb - la);
    SumUnion(la * lb, la - lb);
    SumUnion(la * lb, lb - la);
    Rebalance(Sum(la * lb), Sum(la - lb), Sum(lb - la));
  }

  lemma Rebalance<T>(common: multiset<T>, gone: multiset<T>, come: multiset<T>)
    ensures gone <= common + gone
    ensures (common + gone) - gone + come == common + come
  {
  }

  /** Deleting the delta's removals from the old transfer and adding its
      additions gives exactly the new transfer, apex SOA aside. */
  lemma DeltaRebuildsZone(a: Hash, b: Hash)
    requires CanonRoot(a) && CanonRoot(b)
    ensures
      var cs := DiffList(a, b);
      var removed, added := multiset(Records(Removals(cs))), multiset(Records(Additions(cs)));
      && removed <= multiset(ZoneBody(a))
      && multiset(ZoneBody(a)) - removed + added == multiset(ZoneBody(b))
  {
    var cs := DiffList(a, b);
    DiffMembers(a, b);
    DeltaNoRepeats(cs);
    DeltaSets(a, b);
    RecordsAreSum(Removals(cs));
    RecordsAreSum(Additions(cs));
    BodyIsSum(a);
    BodyIsSum(b);
    SumSplit(OtherSets(a), OtherSets(b));
  }

  // ---------- serving ----------

  method LoadRRs(s: Store, blob: Hash) returns (r: Result<seq<RR>>)
    requires ContentAddressed(s.objects)
    ensures r.Ok? <==> Holds(s.objects, blob) && blob.obj.Blob?
    ensures r.Ok? ==> r.value == Rrs(blob)
  {
    var obj := s.GetObject(blob);
    if obj.Err? { return Err(obj.error); }
    if !obj.value.Blob? { return Err(InvalidObject); }
    return Ok(obj.value.rrs);
  }

  lemma {:induction false} RecordsSnoc(ls: seq<LeafRec>, x: LeafRec)
    ensures Records(ls + [x]) == Records(ls) + (if IsApexSOA(x.path, x.rr) then [] else Rrs(x.blob))
    decreases |ls|
  {
    if ls == [] {
      assert [] + [x] == [x] && [x][1..] == [];
    } else {
      assert (ls + [x])[1..] == ls[1..] + [x];
      RecordsSnoc(ls[1..], x);
    }
  }

  predicate LeafLoads(objs: Objs, x: LeafRec) {
    IsApexSOA(x.path, x.rr) || (Holds(objs, x.blob) && x.blob.obj.Blob?)
  }

  ghost predicate AllLoad(objs: Objs, ls: seq<LeafRec>) {
    forall x :: x in ls ==> LeafLoads(objs, x)
  }

  lemma AllLoadSnoc(objs: Objs, ls: seq<LeafRec>, x: LeafRec)
    requires AllLoad(objs, ls) && LeafLoads(objs, x)
    ensures AllLoad(objs, ls + [x])
  {
  }

  /** The walk's callback: appends each record set, and stops at one that does
      not load. */
  method CollectRecords(s: Store, ls: seq<LeafRec>) returns (r: Result<seq<RR>>)
    requires ContentAddressed(s.objects)
    ensures r.Ok? <==> AllLoad(s.objects, ls)
    ensures r.Ok? ==> r.value == Records(ls)
  {
    var all := [];
    for i := 0 to |ls|
      invariant AllLoad(s.objects, ls[..i]) && all == Records(ls[..i])
    {
      var x := ls[i];
      assert ls[..i + 1] == ls[..i] + [x] && x in ls;
      if !IsApexSOA(x.path, x.rr) {
        var rs := LoadRRs(s, x.blob);
        if rs.Err? {
          assert !LeafLoads(s.objects, x);
          return Err(rs.error);
        }
        all := all + rs.value;
      }
      AllLoadSnoc(s.objects, ls[..i], x);
      RecordsSnoc(ls[..i], x);
    }
    assert ls[..|ls|] == ls;
    return Ok(all);
  }

  predicate BlobLoads(objs: Objs, blob: Hash) {
    Holds(objs, blob) && blob.obj.Blob?
  }

  /** Every record set but the one at the apex of type SOA loads. */
  ghost predicate OthersLoad(objs: Objs, tree: Hash) {
    forall path: seq<string>, rr: string ::
      (path != [] || rr != "SOA") && At(tree, path, rr).H? ==> BlobLoads(objs, At(tree, path, rr))
  }

  lemma LoadsIff(objs: Objs, tree: Hash)
    requires CanonRoot(tree)
    ensures AllLoad(objs, Leaves([], Ents(tree))) <==> OthersLoad(objs, tree)
  {
    var ls := Leaves([], Ents(tree));
    forall x | OthersLoad(objs, tree) && x in ls ensures LeafLoads(objs, x) { LeavesAre(tree, x); }
    forall path: seq<string>, rr: string
      | AllLoad(objs, ls) && (path != [] || rr != "SOA") && At(tree, path, rr).H?
      ensures BlobLoads(objs, At(tree, path, rr))
    {
      var x := LeafRec(path, rr, At(tree, path, rr));
      LeavesAre(tree, x);
      assert LeafLoads(objs, x);
    }
  }

  /** When a full transfer can be answered. */
  ghost predicate FullReady(objs: Objs, head: Hash) {
    LookupOf(objs, head, [], "SOA").Ok? && OthersLoad(objs, CommitTree(head))
  }

  /** The full transfer: the SOA, every other record set, the SOA again. */
  method ServeAXFR(s: Store, head: Hash) returns (r: Result<seq<RR>>)
    requires ContentAddressed(s.objects)
    requires LoadCommit(s.objects, head).Ok? ==> GoodTree(s.objects, CommitTree(head))
    ensures r.Ok? <==> FullReady(s.objects, head)
    ensures r.Ok? ==> r.value == FullTransfer(s.objects, head)
    ensures r.Ok? ==> SendsZone(r.value, LookupOf(s.objects, head, [], "SOA").value, CommitTree(head))
    ensures r.Ok? ==> SendsEachSet(r.value, LookupOf(s.objects, head, [], "SOA").value, CommitTree(head))
  {
    var soa := Lookup(s, head, [], "SOA");
    if soa.Err? { return Err(soa.error); }
    var c := LoadCommit(s.objects, head);
    var leaves := WalkAllLeaves(s, c.value.tree);
    if leaves.Err? { return Err(NotFound); }
    LoadsIff(s.objects, CommitTree(head));
    var body := CollectRecords(s, leaves.value);
    if body.Err? { return Err(body.error); }
    TransferSendsZone(soa.value, CommitTree(head));
    TransferSendsEachSet(soa.value, CommitTree(head));
    return Ok(soa.value + body.value + soa.value);
  }

  /** The SOA, the records of all the other sets, each as often as the sets hold
      it, and the SOA again. */
  ghost predicate SendsZone(rrs: seq<RR>, soa: seq<RR>, tree: Hash)
    requires CanonRoot(tree)
  {
    var n := |soa|;
    && 2 * n <= |rrs| && rrs[..n] == soa && rrs[|rrs| - n..] == soa
    && multiset(rrs[n..|rrs| - n]) == Sum(OtherSets(tree))
  }

  /** The key holds a record set, and is not the apex SOA. */
  predicate OtherSet(tree: Hash, path: seq<string>, rr: string) {
    (path != [] || rr != "SOA") && At(tree, path, rr).H? && At(tree, path, rr).obj.Blob?
  }

  /** The whole set at every key but the apex SOA, and besides the SOA nothing
      but records of those sets. */
  ghost predicate SendsEachSet(rrs: seq<RR>, soa: seq<RR>, tree: Hash) {
    && (forall path: seq<string>, rr: string :: OtherSet(tree, path, rr) ==>
          multiset(At(tree, path, rr).obj.rrs) <= multiset(rrs))
    && (forall y :: y in rrs && y !in soa ==>
          exists path: seq<string>, rr: string :: OtherSet(tree, path, rr) && y in At(tree, path, rr).obj.rrs)
  }

  lemma MiddleOf<T>(a: seq<T>, b: seq<T>, c: seq<T>)
    ensures (a + b + c)[..|a|] == a && (a + b + c)[|a|..|a| + |b|] == b && (a + b + c)[|a| + |b|..] == c
  {
  }

  lemma TransferSendsZone(soa: seq<RR>, tree: Hash)
    requires CanonRoot(tree)
    ensures SendsZone(soa + ZoneBody(tree) + soa, soa, tree)
  {
    MiddleOf(soa, ZoneBody(tree), soa);
    BodyIsSum(tree);
  }

  lemma SumHolds(ls: set<LeafRec>, x: LeafRec)
    requires x in ls
    ensures multiset(Rrs(x.blob)) <= Sum(ls)
  {
    SumTake(ls, x);
  }

  lemma {:induction false} SumFrom(ls: set<LeafRec>, y: RR) returns (x: LeafRec)
    requires y in Sum(ls)
    ensures x in ls && y in Rrs(x.blob)
    decreases ls
  {
    x :| x in ls && Sum(ls) == multiset(Rrs(x.blob)) + Sum(ls - {x});
    if y !in Rrs(x.blob) { x := SumFrom(ls - {x}, y); }
  }

  lemma TransferSendsEachSet(soa: seq<RR>, tree: Hash)
    requires CanonRoot(tree)
    ensures SendsEachSet(soa + ZoneBody(tree) + soa, soa, tree)
  {
    var body := ZoneBody(tree);
    var rrs := soa + body + soa;
    assert multiset(rrs) == multiset(soa) + multiset(body) + multiset(soa);
    BodyIsSum(tree);
    forall path: seq<string>, rr: string | OtherSet(tree, path, rr)
      ensures multiset(At(tree, path, rr).obj.rrs) <= multiset(rrs)
    {
      SumHolds(OtherSets(tree), LeafRec(path, rr, At(tree, path, rr)));
    }
    forall y | y in rrs && y !in soa
      ensures exists path: seq<string>, rr: string :: OtherSet(tree, path, rr) && y in At(tree, path, rr).obj.rrs
    {
      assert y in multiset(body);
      var x := SumFrom(OtherSets(tree), y);
      assert OtherSet(tree, x.path, x.rr);
    }
  }

  /** The SOA of the head, the rest of the zone, and the SOA again. */
  function FullTransfer(objs: Objs, head: Hash): seq<RR> {
    var soa := LookupOf(objs, head, [], "SOA");
    if soa.Err? then [] else soa.value + ZoneBody(CommitTree(head)) + soa.value
  }

  predicate ChangeLoads(objs: Objs, c: Change) {
    (c.oldBlob.H? ==> BlobLoads(objs, c.oldBlob)) && (c.newBlob.H? ==> BlobLoads(objs, c.newBlob))
  }

  /** A change as far as it can be sent: a set that does not load is skipped,
      and with the old set the new one. */
  function Sendable(objs: Objs, c: Change): Change {
    var oldOk := c.oldBlob.Zero? || BlobLoads(objs, c.oldBlob);
    c.(oldBlob := if oldOk then c.oldBlob else Zero,
       newBlob := if oldOk && BlobLoads(objs, c.newBlob) then c.newBlob else Zero)
  }

  function Sendables(objs: Objs, cs: seq<Change>): (es: seq<Change>)
    ensures |es| == |cs| && forall i :: 0 <= i < |cs| ==> es[i] == Sendable(objs, cs[i])
  {
    seq(|cs|, i requires 0 <= i < |cs| => Sendable(objs, cs[i]))
  }

  /** Nothing is skipped exactly when every set of the changes loads. */
  lemma AllSendable(objs: Objs, cs: seq<Change>)
    ensures Sendables(objs, cs) == cs <==> forall c :: c in cs ==> ChangeLoads(objs, c)
  {
    forall i | 0 <= i < |cs| ensures Sendable(objs, cs[i]) == cs[i] <==> ChangeLoads(objs, cs[i]) {}
    if Sendables(objs, cs) == cs {
      forall c | c in cs ensures ChangeLoads(objs, c) {
        var i :| 0 <= i < |cs| && cs[i] == c;
      }
    }
  }

  lemma SendablesSnoc(objs: Objs, cs: seq<Change>, i: nat)
    requires i < |cs|
    ensures Sendables(objs, cs[..i + 1]) == Sendables(objs, cs[..i]) + [Sendable(objs, cs[i])]
  {
  }

  /** Splits the changes into removed and added records, skipping what does not
      load. */
  method BuildDelta(s: Store, cs: seq<Change>) returns (removed: seq<RR>, added: seq<RR>)
    requires ContentAddressed(s.objects)
    ensures removed == Records(Removals(Sendables(s.objects, cs)))
    ensures added == Records(Additions(Sendables(s.objects, cs)))
  {
    removed, added := [], [];
    for i := 0 to |cs|
      invariant removed == Records(Removals(Sendables(s.objects, cs[..i])))
      invariant added == Records(Additions(Sendables(s.objects, cs[..i])))
    {
      var c := cs[i];
      SendablesSnoc(s.objects, cs, i);
      DeltaSnoc(Sendables(s.objects, cs[..i]), Sendable(s.objects, c));
      if IsApexSOA(c.path, c.rr) { continue; }
      if c.oldBlob.H? {
        var o := LoadRRs(s, c.oldBlob);
        if o.Err? { continue; }
        removed := removed + o.value;
      }
      if c.newBlob.H? {
        var n := LoadRRs(s, c.newBlob);
        if n.Err? { continue; }
        added := added + n.value;
      }
    }
    assert cs[..|cs|] == cs;
  }

  lemma {:induction false} RemovalsSnoc(cs: seq<Change>, c: Change)
    ensures Removals(cs + [c]) == Removals(cs) + Sets(c.path, c.rr, c.oldBlob)
    decreases |cs|
  {
    if cs == [] {
      assert [] + [c] == [c] && [c][1..] == [];
    } else {
      assert (cs + [c])[1..] == cs[1..] + [c];
      RemovalsSnoc(cs[1..], c);
      ConcatAssoc(Sets(cs[0].path, cs[0].rr, cs[0].oldBlob), Removals(cs[1..]), Sets(c.path, c.rr, c.oldBlob));
    }
  }

  lemma {:induction false} AdditionsSnoc(cs: seq<Change>, c: Change)
    ensures Additions(cs + [c]) == Additions(cs) + Sets(c.path, c.rr, c.newBlob)
    decreases |cs|
  {
    if cs == [] {
      assert [] + [c] == [c] && [c][1..] == [];
    } else {
      assert (cs + [c])[1..] == cs[1..] + [c];
      AdditionsSnoc(cs[1..], c);
      ConcatAssoc(Sets(cs[0].path, cs[0].rr, cs[0].newBlob), Additions(cs[1..]), Sets(c.path, c.rr, c.newBlob));
    }
  }

  lemma RecordsExtend(ls: seq<LeafRec>, path: seq<string>, rr: string, blob: Hash)
    ensures Records(ls + Sets(path, rr, blob))
            == Records(ls) + (if blob.H? && !IsApexSOA(path, rr) then Rrs(blob) else [])
  {
    if blob.H? {
      RecordsSnoc(ls, LeafRec(path, rr, blob));
    } else {
      assert ls + [] == ls;
    }
  }

  lemma DeltaSnoc(cs: seq<Change>, c: Change)
    ensures Records(Removals(cs + [c])) == Records(Removals(cs)) +
              (if c.oldBlob.H? && !IsApexSOA(c.path, c.rr) then Rrs(c.oldBlob) else [])
    ensures Records(Additions(cs + [c])) == Records(Additions(cs)) +
              (if c.newBlob.H? && !IsApexSOA(c.path, c.rr) then Rrs(c.newBlob) else [])
  {
    RemovalsSnoc(cs, c);
    AdditionsSnoc(cs, c);
    RecordsExtend(Removals(cs), c.path, c.rr, c.oldBlob);
    RecordsExtend(Additions(cs), c.path, c.rr, c.newBlob);
  }

  /** The old zone's sets that the new one no longer has, as far as they load. */
  ghost function GoneSets(objs: Objs, a: Hash, b: Hash): set<LeafRec>
    requires CanonRoot(a) && CanonRoot(b)
  {
    set x | x in OtherSets(a) - OtherSets(b) && BlobLoads(objs, x.blob)
  }

  /** The new sets that load, and whose key had none or one that loads. */
  ghost function NewSets(objs: Objs, a: Hash, b: Hash): set<LeafRec>
    requires CanonRoot(a) && CanonRoot(b)
  {
    set x | x in OtherSets(b) - OtherSets(a) && BlobLoads(objs, x.blob)
            && (At(a, x.path, x.rr).H? ==> BlobLoads(objs, At(a, x.path, x.rr)))
  }

  lemma SentChange(objs: Objs, cs: seq<Change>, c: Change)
    ensures c in Sendables(objs, cs) <==> exists d :: d in cs && c == Sendable(objs, d)
  {
    if d :| d in cs && c == Sendable(objs, d) {
      var i :| 0 <= i < |cs| && cs[i] == d;
      assert Sendables(objs, cs)[i] == c;
    }
  }

  lemma SentRemoval(objs: Objs, a: Hash, b: Hash, x: LeafRec)
    requires CanonRoot(a) && CanonRoot(b)
    ensures x in Counted(Removals(Sendables(objs, DiffList(a, b)))) <==> x in GoneSets(objs, a, b)
  {
    var cs := DiffList(a, b);
    var es := Sendables(objs, cs);
    DiffMembers(a, b);
    RemovalsAre(es, x);
    var d := MkChange(x.path, x.rr, At(a, x.path, x.rr), At(b, x.path, x.rr));
    SentChange(objs, cs, Sendable(objs, d));
    if x in Removals(es) {
      var c :| c in es && c.oldBlob.H? && x == LeafRec(c.path, c.rr, c.oldBlob);
      SentChange(objs, cs, c);
    }
  }

  lemma SentAddition(objs: Objs, a: Hash, b: Hash, x: LeafRec)
    requires CanonRoot(a) && CanonRoot(b)
    ensures x in Counted(Additions(Sendables(objs, DiffList(a, b)))) <==> x in NewSets(objs, a, b)
  {
    var cs := DiffList(a, b);
    var es := Sendables(objs, cs);
    DiffMembers(a, b);
    AdditionsAre(es, x);
    var d := MkChange(x.path, x.rr, At(a, x.path, x.rr), At(b, x.path, x.rr));
    SentChange(objs, cs, Sendable(objs, d));
    if x in Additions(es) {
      var c :| c in es && c.newBlob.H? && x == LeafRec(c.path, c.rr, c.newBlob);
      SentChange(objs, cs, c);
    }
  }

  /** A delta carries the records of exactly those sets, each as often as they
      hold it. */
  lemma DeltaSends(objs: Objs, a: Hash, b: Hash)
    requires CanonRoot(a) && CanonRoot(b)
    ensures
      var cs := Sendables(objs, DiffList(a, b));
      && multiset(Records(Removals(cs))) == Sum(GoneSets(objs, a, b))
      && multiset(Records(Additions(cs))) == Sum(NewSets(objs, a, b))
  {
    var cs := Sendables(objs, DiffList(a, b));
    DiffMembers(a, b);
    DeltaNoRepeats(cs);
    RecordsAreSum(Removals(cs));
    RecordsAreSum(Additions(cs));
    assert Counted(Removals(cs)) == GoneSets(objs, a, b) by {
      forall x ensures x in Counted(Removals(cs)) <==> x in GoneSets(objs, a, b) { SentRemoval(objs, a, b, x); }
    }
    assert Counted(Additions(cs)) == NewSets(objs, a, b) by {
      forall x ensures x in Counted(Additions(cs)) <==> x in NewSets(objs, a, b) { SentAddition(objs, a, b, x); }
    }
  }

  datatype Response =
    | ServFail
    | Current(soa: RR)
    | Full(rrs: seq<RR>)
    | Delta(latest: RR, hist: RR, removed: seq<RR>, added: seq<RR>)

  /** The records of a response in the order they are sent. */
  function Envelope(r: Response): seq<RR> {
    match r
    case ServFail => []
    case Current(soa) => [soa]
    case Full(rrs) => rrs
    case Delta(latest, hist, removed, added) =>
      [latest, hist] + (removed + ([latest] + (added + [latest])))
  }

  /** A delta from a commit of the head's history: its records are those of the
      diff that load, and both SOAs are single records of the two commits. */
  ghost predicate IsDelta(objs: Objs, head: Hash, serial: nat, r: Response, from: Hash) {
    && r.Delta? && from in Ancs(head)
    && LookupOf(objs, head, [], "SOA") == Ok([r.latest])
    && LookupOf(objs, from, [], "SOA") == Ok([r.hist]) && r.hist.SOA? && r.hist.serial == serial
    && var cs := Sendables(objs, DiffList(CommitTree(from), CommitTree(head)));
       r.removed == Records(Removals(cs)) && r.added == Records(Additions(cs))
  }

  /** The transfer in full, as the answer to either kind of query. */
  method FullResponse(s: Store, head: Hash) returns (r: Response)
    requires ContentAddressed(s.objects) && WellStored(s.objects, head)
    ensures r == if FullReady(s.objects, head) then Full(FullTransfer(s.objects, head)) else ServFail
  {
    assert head in Ancs(head);
    StoredAncestor(s.objects, head, head);
    var full := ServeAXFR(s, head);
    r := if full.Ok? then Full(full.value) else ServFail;
  }

  /** The changes from an earlier commit of the history, as records. */
  method DeltaSince(s: Store, head: Hash, from: Hash) returns (removed: seq<RR>, added: seq<RR>)
    requires ContentAddressed(s.objects) && WellStored(s.objects, head) && from in Ancs(head)
    ensures
      var cs := Sendables(s.objects, DiffList(CommitTree(from), CommitTree(head)));
      removed == Records(Removals(cs)) && added == Records(Additions(cs))
  {
    assert head in Ancs(head);
    StoredAncestor(s.objects, head, head);
    StoredAncestor(s.objects, head, from);
    var cs := Diff(s, TreeOf(s.objects, from), TreeOf(s.objects, head));
    removed, added := BuildDelta(s, cs.value);
  }

  lemma SerialSingle(objs: Objs, commit: Hash, serial: nat, soa: seq<RR>)
    requires SerialOf(objs, commit) == Some(serial) && LookupOf(objs, commit, [], "SOA") == Ok(soa)
    ensures |soa| == 1 && soa == [soa[0]] && soa[0].SOA? && soa[0].serial == serial
  {
  }

  /** The answer to a client whose serial is not the current one. */
  method SinceSerial(s: Store, head: Hash, latest: RR, client: nat) returns (r: Response, ghost from: Hash)
    requires ContentAddressed(s.objects) && WellStored(s.objects, head)
    requires LookupOf(s.objects, head, [], "SOA") == Ok([latest])
    ensures !r.Current? && (r.ServFail? ==> !FullReady(s.objects, head))
    ensures r.Full? ==> FullReady(s.objects, head) && r.rrs == FullTransfer(s.objects, head)
    ensures r.Delta? ==> IsDelta(s.objects, head, client, r, from)
    ensures |Ancs(head)| < 10000 ==>
              (r.Delta? <==> exists x :: x in Ancs(head) && SerialOf(s.objects, x) == Some(client))
  {
    from := Zero;
    assert head in Ancs(head);
    StoredAncestor(s.objects, head, head);
    var found := FindCommitBySerial(s, head, client);
    if found.Err? {
      r := FullResponse(s, head);
      return;
    }
    var (hist, histSOA) := found.value;
    from := hist;
    var removed, added := DeltaSince(s, head, hist);
    SerialSingle(s.objects, hist, client, histSOA);
    r := Delta(latest, histSOA[0], removed, added);
  }

  /** The incremental transfer, or a full one when the history does not help. */
  method ServeIXFR(s: Store, head: Hash, client: Option<nat>) returns (r: Response, ghost from: Hash)
    requires ContentAddressed(s.objects) && (head.H? ==> WellStored(s.objects, head))
    ensures head.Zero? || SerialOf(s.objects, head).None? ==> r.ServFail?
    ensures r.ServFail? ==> head.Zero? || SerialOf(s.objects, head).None? || !FullReady(s.objects, head)
    ensures r.Current? <==> SerialOf(s.objects, head).Some? && client == SerialOf(s.objects, head)
    ensures r.Current? ==> LookupOf(s.objects, head, [], "SOA") == Ok([r.soa])
    ensures r.Full? ==> r.rrs == FullTransfer(s.objects, head)
    ensures r.Delta? ==> client.Some? && IsDelta(s.objects, head, client.value, r, from)
    ensures CarriesSets(s.objects, head, r, from)
    ensures SerialOf(s.objects, head).Some? && client != SerialOf(s.objects, head) && |Ancs(head)| < 10000 ==>
              (r.Delta? <==> client.Some? && exists x :: x in Ancs(head) && SerialOf(s.objects, x) == client)
  {
    from := Zero;
    if head.Zero? { return ServFail, from; }
    assert head in Ancs(head);
    StoredAncestor(s.objects, head, head);
    var latest := Lookup(s, head, [], "SOA");
    if latest.Err? || |latest.value| != 1 { return ServFail, from; }
    if !latest.value[0].SOA? { return ServFail, from; }
    if client.None? {
      r := FullResponse(s, head);
      ResponseCarries(s.objects, head, r, from, 0);
      return r, from;
    }
    assert latest.value == [latest.value[0]];
    if client.value == latest.value[0].serial { return Current(latest.value[0]), from; }
    r, from := SinceSerial(s, head, latest.value[0], client.value);
    ResponseCarries(s.objects, head, r, from, client.value);
  }

  /** Which record sets a transfer carries: in full all but the apex SOA, as a
      delta those that differ, whatever their key and type otherwise. */
  ghost predicate CarriesSets(objs: Objs, head: Hash, r: Response, from: Hash) {
    match r
    case Full(rrs) =>
      var soa := LookupOf(objs, head, [], "SOA");
      && soa.Ok? && CanonRoot(CommitTree(head))
      && SendsZone(rrs, soa.value, CommitTree(head)) && SendsEachSet(rrs, soa.value, CommitTree(head))
    case Delta(_, _, removed, added) =>
      var a, b := CommitTree(from), CommitTree(head);
      && CanonRoot(a) && CanonRoot(b)
      && multiset(removed) == Sum(GoneSets(objs, a, b)) && multiset(added) == Sum(NewSets(objs, a, b))
    case _ => true
  }

  /** Whatever either kind of query is answered with carries those sets. */
  lemma ResponseCarries(objs: Objs, head: Hash, r: Response, from: Hash, serial: nat)
    requires WellStored(objs, head)
    requires r.Full? ==> FullReady(objs, head) && r.rrs == FullTransfer(objs, head)
    requires r.Delta? ==> IsDelta(objs, head, serial, r, from)
    ensures CarriesSets(objs, head, r, from)
  {
    assert head in Ancs(head);
    StoredAncestor(objs, head, head);
    match r {
      case Full(rrs) =>
        var soa := LookupOf(objs, head, [], "SOA").value;
        TransferSendsZone(soa, CommitTree(head));
        TransferSendsEachSet(soa, CommitTree(head));
      case Delta(_, _, _, _) =>
        StoredAncestor(objs, head, from);
        DeltaSends(objs, CommitTree(from), CommitTree(head));
      case _ =>
    }
  }

  /** With every blob stored nothing is skipped and nothing fails to load. */
  lemma StoredZoneServes(objs: Objs, head: Hash, from: Hash)
    requires ZoneStored(objs, head) && from in Ancs(head)
    ensures SerialOf(objs, head).Some? ==> FullReady(objs, head)
    ensures
      var cs := DiffList(CommitTree(from), CommitTree(head));
      Sendables(objs, cs) == cs
  {
    assert head in Ancs(head) && BlobsIn(objs, CommitTree(head));
    DeltaBlobs(objs, head, from);
    AllSendable(objs, DiffList(CommitTree(from), CommitTree(head)));
  }

  lemma DeltaBlobs(objs: Objs, head: Hash, hist: Hash)
    requires ZoneStored(objs, head) && hist in Ancs(head)
    ensures forall c :: c in DiffList(CommitTree(hist), CommitTree(head)) ==> ChangeLoads(objs, c)
  {
    var a, b := CommitTree(hist), CommitTree(head);
    StoredAncestor(objs, head, hist);
    assert head in Ancs(head);
    StoredAncestor(objs, head, head);
    DiffMembers(a, b);
    assert BlobsIn(objs, a) && BlobsIn(objs, b);
  }

  /** A history as a well-behaved primary builds it: commits that decode, over
      canonical trees of record sets. */
  ghost predicate WellFormedHistory(head: Hash) {
    forall x :: x in Ancs(head) ==>
      && x.H? && IsCommit(x.obj) && CanonRoot(x.obj.tree)
      && forall path: seq<string>, rr: string :: At(x.obj.tree, path, rr).H? ==> At(x.obj.tree, path, rr).obj.Blob?
  }

  /** A pulled tip with such a history can be served in both forms. */
  lemma PulledZoneServes(objs: Objs, head: Hash)
    requires ContentAddressed(objs) && Readable(objs, head) && WellFormedHistory(head)
    ensures ZoneStored(objs, head)
  {
    forall x | x in Ancs(head)
      ensures Holds(objs, x) && GoodTree(objs, CommitTree(x)) && BlobsIn(objs, CommitTree(x))
    {
      assert x.H? && IsCommit(x.obj) && ZoneReadable(objs, x.obj.tree);
    }
  }

  // ---------- the client's side ----------

  /** The records before the first SOA, and those after it. */
  function CutAtSOA(rrs: seq<RR>): (seq<RR>, seq<RR>) {
    if rrs == [] then ([], [])
    else if rrs[0].SOA? then ([], rrs[1..])
    else
      var (before, after) := CutAtSOA(rrs[1..]);
      ([rrs[0]] + before, after)
  }

  /** The removed and the added records, as a client finds them between the SOA
      records, and whatever is left over. */
  function ReadDelta(rrs: seq<RR>): (seq<RR>, seq<RR>, seq<RR>)
    requires |rrs| >= 2
  {
    var (removed, rest) := CutAtSOA(rrs[2..]);
    var (added, end) := CutAtSOA(rest);
    (removed, added, end)
  }

  ghost predicate NoSOA(rrs: seq<RR>) {
    forall x :: x in rrs ==> !x.SOA?
  }

  lemma {:induction false} CutBefore(a: seq<RR>, soa: RR, b: seq<RR>)
    requires soa.SOA?
    ensures CutAtSOA(a + ([soa] + b)).0 == a <==> NoSOA(a)
    ensures NoSOA(a) ==> CutAtSOA(a + ([soa] + b)) == (a, b)
    decreases |a|
  {
    var s := a + ([soa] + b);
    if a == [] {
      assert s == [soa] + b;
    } else {
      assert s[1..] == a[1..] + ([soa] + b) && a == [a[0]] + a[1..];
      CutBefore(a[1..], soa, b);
    }
  }

  /** A client recovers the delta from the stream exactly when no removed and no
      added record is itself an SOA. */
  lemma ReadsBackIffNoSOA(r: Response)
    requires r.Delta? && r.latest.SOA?
    ensures ReadDelta(Envelope(r)) == (r.removed, r.added, []) <==> NoSOA(r.removed) && NoSOA(r.added)
  {
    var tail := r.added + [r.latest];
    assert Envelope(r)[2..] == r.removed + ([r.latest] + tail);
    assert [r.latest] + [] == [r.latest];
    CutBefore(r.removed, r.latest, tail);
    CutBefore(r.added, r.latest, []);
  }

  /** The order of a delta, record by record: the new SOA, the old one, what goes,
      the new SOA again, what comes, and the new SOA at the end. */
  lemma DeltaOrder(r: Response)
    requires r.Delta?
    ensures
      var e, n, m := Envelope(r), |r.removed|, |r.added|;
      && |e| == n + m + 4
      && e[0] == r.latest && e[1] == r.hist && e[2..n + 2] == r.removed
      && e[n + 2] == r.latest && e[n + 3..n + m + 3] == r.added && e[n + m + 3] == r.latest
  {
  }

  /** A zone held as a full transfer, after the client has applied a delta. */
  function Applied(full: seq<RR>, delta: seq<RR>): multiset<RR>
    requires |delta| >= 2
  {
    var (removed, added, _) := ReadDelta(delta);
    multiset(full) - multiset{delta[1], delta[1]} - multiset(removed) + multiset(added) + multiset{delta[0], delta[0]}
  }

  /** Applying the stream sent for a delta to the full transfer of the old
      commit gives exactly the full transfer of the head. */
  lemma IncrementalAgreesWithFull(objs: Objs, head: Hash, serial: nat, r: Response, from: Hash)
    requires ZoneStored(objs, head) && IsDelta(objs, head, serial, r, from) && r.latest.SOA?
    requires NoSOA(r.removed) && NoSOA(r.added)
    ensures multiset(r.removed) <= multiset(FullTransfer(objs, from))
    ensures Applied(FullTransfer(objs, from), Envelope(r)) == multiset(FullTransfer(objs, head))
  {
    var a, b := ZoneBody(CommitTree(from)), ZoneBody(CommitTree(head));
    FullIs(objs, from, r.hist);
    FullIs(objs, head, r.latest);
    DeltaIs(objs, head, serial, r, from);
    AppliedSwaps(a, b, r);
  }

  lemma FullIs(objs: Objs, x: Hash, soa: RR)
    requires LookupOf(objs, x, [], "SOA") == Ok([soa])
    ensures FullTransfer(objs, x) == [soa] + ZoneBody(CommitTree(x)) + [soa]
  {
  }

  /** A delta over stored blobs takes the old body to the new one. */
  lemma DeltaIs(objs: Objs, head: Hash, serial: nat, r: Response, from: Hash)
    requires ZoneStored(objs, head) && IsDelta(objs, head, serial, r, from)
    ensures
      var a, b := multiset(ZoneBody(CommitTree(from))), multiset(ZoneBody(CommitTree(head)));
      multiset(r.removed) <= a && a - multiset(r.removed) + multiset(r.added) == b
  {
    StoredAncestor(objs, head, from);
    assert head in Ancs(head);
    StoredAncestor(objs, head, head);
    StoredZoneServes(objs, head, from);
    DeltaRebuildsZone(CommitTree(from), CommitTree(head));
  }

  lemma AppliedSwaps(a: seq<RR>, b: seq<RR>, r: Response)
    requires r.Delta? && r.latest.SOA? && NoSOA(r.removed) && NoSOA(r.added)
    requires multiset(r.removed) <= multiset(a)
    requires multiset(a) - multiset(r.removed) + multiset(r.added) == multiset(b)
    ensures multiset(r.removed) <= multiset([r.hist] + a + [r.hist])
    ensures Applied([r.hist] + a + [r.hist], Envelope(r)) == multiset([r.latest] + b + [r.latest])
  {
    ReadsBackIffNoSOA(r);
    SwapSOAs(a, b, multiset(r.removed), multiset(r.added), r.hist, r.latest);
  }

  lemma SwapSOAs<T>(a: seq<T>, b: seq<T>, removed: multiset<T>, added: multiset<T>, x: T, y: T)
    requires removed <= multiset(a) && multiset(a) - removed + added == multiset(b)
    ensures removed <= multiset([x] + a + [x])
    ensures multiset([x] + a + [x]) - multiset{x, x} - removed + added + multiset{y, y} == multiset([y] + b + [y])
  {
    assert multiset([x] + a + [x]) == multiset{x} + multiset(a) + multiset{x};
    assert multiset([y] + b + [y]) == multiset{y} + multiset(b) + multiset{y};
  }
}
