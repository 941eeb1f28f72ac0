/** When answering by serial is right: several commits of one branch can carry
    the same serial, since Merge and Revert do not advance it
    (pkg/repo/merge.go, pkg/resolve/ixfr.go). */
module SerialReuse {
  import opened Objects
  import opened MemStore
  import opened Canonical
  import opened Ancestry
  import opened Names
  import opened Staging
  import opened Repo
  import opened Transfer
  import TreeReads
  import Zone

  // ---------- when the answer is right ----------

  /** The two commits have the same records, apex SOA aside. */
  ghost predicate SameZone(x: Hash, y: Hash) {
    multiset(ZoneBody(CommitTree(x))) == multiset(ZoneBody(CommitTree(y)))
  }

  /** What a client holding the zone of commit x ends up with is head's zone; a
      delta must also find everything that it removes. */
  ghost predicate AnswerRight(head: Hash, x: Hash, r: Response) {
    match r
    case ServFail => true
    case Full(_) => true
    case Current(_) => SameZone(x, head)
    case Delta(_, _, removed, added) =>
      var body := multiset(ZoneBody(CommitTree(x)));
      && multiset(removed) <= body
      && body - multiset(removed) + multiset(added) == multiset(ZoneBody(CommitTree(head)))
  }

  lemma SameStartIff<T>(x: multiset<T>, y: multiset<T>, removed: multiset<T>, added: multiset<T>, z: multiset<T>)
    requires removed <= y && y - removed + added == z
    ensures removed <= x && x - removed + added == z <==> x == y
  {
    if removed <= x && x - removed + added == z {
      assert x == (x - removed + added) - added + removed;
      assert y == (y - removed + added) - added + removed;
    }
  }

  /** A delta is right for a holder of x iff x has the zone of the commit the
      server found. */
  lemma DeltaRightIff(objs: Objs, head: Hash, serial: nat, r: Response, from: Hash, x: Hash)
    requires ZoneStored(objs, head) && IsDelta(objs, head, serial, r, from)
    ensures AnswerRight(head, x, r) <==> SameZone(x, from)
  {
    DeltaIs(objs, head, serial, r, from);
    RightFrom(head, r, from, x);
  }

  lemma RightFrom(head: Hash, r: Response, from: Hash, x: Hash)
    requires r.Delta?
    requires
      var a, b := multiset(ZoneBody(CommitTree(from))), multiset(ZoneBody(CommitTree(head)));
      multiset(r.removed) <= a && a - multiset(r.removed) + multiset(r.added) == b
    ensures AnswerRight(head, x, r) <==> SameZone(x, from)
  {
    SameStartIff(multiset(ZoneBody(CommitTree(x))), multiset(ZoneBody(CommitTree(from))),
                 multiset(r.removed), multiset(r.added), multiset(ZoneBody(CommitTree(head))));
  }

  ghost predicate Carries(objs: Objs, head: Hash, serial: nat, x: Hash) {
    x in Ancs(head) && SerialOf(objs, x) == Some(serial)
  }

  /** The answer to a serial is right for every client that took any commit with
      it iff all commits with that serial have the same zone. */
  lemma RightForAllIff(objs: Objs, head: Hash, serial: nat, r: Response, from: Hash)
    requires ZoneStored(objs, head)
    requires || (r.Current? && from == head && SerialOf(objs, head) == Some(serial))
             || IsDelta(objs, head, serial, r, from)
    ensures (forall x :: Carries(objs, head, serial, x) ==> AnswerRight(head, x, r)) <==>
              forall x, y :: Carries(objs, head, serial, x) && Carries(objs, head, serial, y) ==> SameZone(x, y)
  {
    assert head in Ancs(head);
    assert Carries(objs, head, serial, from);
    forall x ensures AnswerRight(head, x, r) <==> SameZone(x, from) {
      if r.Delta? { DeltaRightIff(objs, head, serial, r, from, x); }
    }
  }

  // ---------- a history of commits only ----------

  /** Commits one on top of the other. */
  predicate Line(cs: seq<Hash>)
    decreases |cs|
  {
    var n := |cs| - 1;
    && n >= 0
    && if n == 0 then Parents(cs[0]) == [] else Line(cs[..n]) && Parents(cs[n]) == [cs[n - 1]]
  }

  function TreesOf(cs: seq<Hash>): (ts: seq<Hash>)
    ensures |ts| == |cs| && forall i :: 0 <= i < |cs| ==> ts[i] == CommitTree(cs[i])
  {
    seq(|cs|, i requires 0 <= i < |cs| => CommitTree(cs[i]))
  }

  /** Such commits, each of them advancing the serial. */
  ghost predicate BumpHistory(cs: seq<Hash>) {
    Line(cs) && BumpingChain(TreesOf(cs))
  }

  lemma {:induction false} ChainPrefix(trees: seq<Hash>, n: nat)
    requires n <= |trees| && BumpingChain(trees)
    ensures BumpingChain(trees[..n])
    decreases |trees|
  {
    var m := |trees| - 1;
    if n < |trees| {
      if m > 0 { ChainPrefix(trees[..m], n); }
      assert trees[..m][..n] == trees[..n];
    } else {
      assert trees[..n] == trees;
    }
  }

  lemma HistorySerial(cs: seq<Hash>, serial: nat, i: nat)
    requires BumpHistory(cs) && i < |cs| && HasSerial(CommitTree(cs[0]), serial)
    ensures HasSerial(CommitTree(cs[i]), Zone.BumpTimes(serial, i))
  {
    SerialAt(TreesOf(cs), serial, i);
  }

  lemma SerialAt(trees: seq<Hash>, serial: nat, i: nat)
    requires BumpingChain(trees) && i < |trees| && HasSerial(trees[0], serial)
    ensures HasSerial(trees[i], Zone.BumpTimes(serial, i))
  {
    ChainPrefix(trees, i + 1);
    SerialAfter(trees[..i + 1], serial);
  }

  lemma {:induction false} HistoryIsAncs(cs: seq<Hash>, x: Hash)
    requires Line(cs)
    ensures x in Ancs(cs[|cs| - 1]) <==> x in cs
    decreases |cs|
  {
    var n := |cs| - 1;
    if n == 0 {
      AncsOfRoot(cs[0]);
    } else {
      HistoryIsAncs(cs[..n], x);
      OneAbove(cs[n], cs[n - 1], x);
      InSnoc(cs, n, x);
    }
  }

  lemma OneAbove(c: Hash, p: Hash, x: Hash)
    requires Parents(c) == [p]
    ensures x in Ancs(c) <==> x == c || x in Ancs(p)
  {
    AncsOfChild(c, p);
  }

  lemma InSnoc(cs: seq<Hash>, n: nat, x: Hash)
    requires |cs| == n + 1
    ensures x in cs <==> x in cs[..n] || x == cs[n]
  {
    assert cs == cs[..n] + [cs[n]];
  }

  lemma SerialOfIs(objs: Objs, x: Hash, a: nat, b: nat)
    requires ContentAddressed(objs) && HasSerial(CommitTree(x), a) && SerialOf(objs, x) == Some(b)
    ensures a == b
  {
  }

  lemma PlaceOf(objs: Objs, cs: seq<Hash>, serial: nat, s: nat, x: Hash) returns (i: nat)
    requires BumpHistory(cs) && HasSerial(CommitTree(cs[0]), serial) && ContentAddressed(objs)
    requires Carries(objs, cs[|cs| - 1], s, x)
    ensures i < |cs| && cs[i] == x && s == Zone.BumpTimes(serial, i)
  {
    HistoryIsAncs(cs, x);
    i :| 0 <= i < |cs| && cs[i] == x;
    HistorySerial(cs, serial, i);
    SerialOfIs(objs, x, Zone.BumpTimes(serial, i), s);
  }

  /** Along fewer than 2^32 such commits no two carry the same serial. */
  lemma SerialNamesCommit(objs: Objs, cs: seq<Hash>, serial: nat, s: nat, x: Hash, y: Hash)
    requires BumpHistory(cs) && HasSerial(CommitTree(cs[0]), serial) && ContentAddressed(objs)
    requires serial < Zone.MODULUS && |cs| <= Zone.MODULUS
    requires Carries(objs, cs[|cs| - 1], s, x) && Carries(objs, cs[|cs| - 1], s, y)
    ensures x == y
  {
    var i := PlaceOf(objs, cs, serial, s, x);
    var j := PlaceOf(objs, cs, serial, s, y);
    Zone.BumpTimesInjective(serial, i, j);
  }

  /** On a branch with commits only, every answer by serial is right for every
      client. */
  lemma CommitsOnlyAlwaysRight(objs: Objs, cs: seq<Hash>, serial: nat, s: nat, r: Response, from: Hash, x: Hash)
    requires BumpHistory(cs) && HasSerial(CommitTree(cs[0]), serial) && ZoneStored(objs, cs[|cs| - 1])
    requires serial < Zone.MODULUS && |cs| <= Zone.MODULUS
    requires
      var head := cs[|cs| - 1];
      || (r.Current? && from == head && SerialOf(objs, head) == Some(s))
      || IsDelta(objs, head, s, r, from)
    requires Carries(objs, cs[|cs| - 1], s, x)
    ensures AnswerRight(cs[|cs| - 1], x, r)
  {
    var head := cs[|cs| - 1];
    forall a, b | Carries(objs, head, s, a) && Carries(objs, head, s, b) ensures SameZone(a, b) {
      SerialNamesCommit(objs, cs, serial, s, a, b);
    }
    RightForAllIff(objs, head, s, r, from);
  }

  // ---------- reverting brings a serial back ----------

  /** Commit, revert, commit: the second commit takes the serial of the first. */
  lemma RevertRepeatsSerial(t0: Hash, t1: Hash, t3: Hash, serial: nat)
    requires CanonRoot(t0) && CanonRoot(t1) && HasSerial(t0, serial)
    requires BumpingCommit(t0, t1) && BumpingCommit(Reverted(t1, t0, t1), t3)
    ensures HasSerial(t1, Zone.NextSerial(serial)) && HasSerial(t3, Zone.NextSerial(serial))
  {
    assert !EmptyMap(t0);
    RevertHeadRestores(t0, t1);
    BumpAdvances(t0, t1, serial);
    BumpAdvances(t0, t3, serial);
  }

  // ---------- a history where the answer is wrong ----------

  /** A zone with an apex SOA and one more record set. */
  function Small(serial: nat, text: string): Hash {
    H(Tree([Entry(Leaf, "A", H(Blob([Data(text)]))), Entry(Leaf, "SOA", SOASet(serial))]))
  }

  function SOASet(serial: nat): Hash {
    H(Blob([SOA(serial, TIMERS)]))
  }

  /** The fields of an SOA record after its serial and before it, as text. */
  const TIMERS := "ns1 hostmaster 3600 600 86400 60"

  function SmallAt(serial: nat, text: string, path: seq<string>, rr: string): Hash {
    if path == [] && rr == "A" then H(Blob([Data(text)]))
    else if path == [] && rr == "SOA" then SOASet(serial)
    else Zero
  }

  lemma SmallCanon(serial: nat, text: string)
    ensures CanonRoot(Small(serial, text))
  {
    var es := Small(serial, text).obj.entries;
    assert Strict(es);
  }

  lemma SmallMap(serial: nat, text: string, path: seq<string>, rr: string)
    ensures At(Small(serial, text), path, rr) == SmallAt(serial, text, path, rr)
  {
    var es := Small(serial, text).obj.entries;
    var k, n := FirstKind(path), FirstName(path, rr);
    SmallCanon(serial, text);
    FindHead(es, k, n);
    FindHead(es[1..], k, n);
    assert es[1..][1..] == [];
    AtEDown(es, path, rr);
    DownZero(path, rr);
  }

  lemma SmallBody(serial: nat, text: string)
    ensures ZoneBody(Small(serial, text)) == [Data(text)]
  {
    var es := Small(serial, text).obj.entries;
    var a, soa := TreeReads.LeafRec([], "A", es[0].hash), TreeReads.LeafRec([], "SOA", es[1].hash);
    assert es[1..] == [es[1]] && es[1..][1..] == [];
    assert TreeReads.Leaves([], es[1..]) == [soa];
    assert TreeReads.Leaves([], es) == [a] + [soa];
    assert ([a] + [soa])[1..] == [soa] && [soa][1..] == [];
    assert Records([soa]) == [];
    assert Records([a] + [soa]) == Rrs(a.blob) + Records([soa]);
  }

  function EditA(text: string): Staged {
    map[StagingKey("", "A") := Stage(H(Blob([Data(text)])))]
  }

  /** A commit that stages only the other set is such a zone with the next
      serial. */
  lemma SmallCommit(serial: nat, was: string, text: string)
    ensures BumpingCommit(Small(serial, was), Small(Zone.NextSerial(serial), text))
  {
    var t0, t1 := Small(serial, was), Small(Zone.NextSerial(serial), text);
    var objs: Objs := map[SOASet(serial) := SOASet(serial).obj];
    var staging := EditA(text);
    SmallCanon(Zone.NextSerial(serial), text);
    SmallMap(serial, was, [], "SOA");
    EditNormal(text);
    var b := BumpedStaging(objs, staging, t0).value;
    assert b == staging[SOA_KEY := Stage(SOASet(Zone.NextSerial(serial)))];
    forall path: seq<string>, rr: string ensures At(t1, path, rr) == StagedAt(b, path, rr, At(t0, path, rr)) {
      SmallMap(serial, was, path, rr);
      SmallMap(Zone.NextSerial(serial), text, path, rr);
      ApexKey(path);
    }
    assert CommitMap(objs, staging, t0, t1);
  }

  lemma EditNormal(text: string)
    ensures NormalKeys(EditA(text)) && SOA_KEY !in EditA(text) && EditA(text) != map[]
  {
    assert Normal("") by { assert Lower("") == ""; }
    assert StagingKey("", "A") in EditA(text);
    assert "A" != "SOA" by { assert |"A"| != |"SOA"|; }
  }

  lemma ApexKey(path: seq<string>)
    ensures NameOf(path) == "" && PathOf("") == path <==> path == []
  {
    assert PathOf("") == [] by { assert Lower("") == ""; }
  }

  /** Four commits: a zone, a change, the revert of that change, another change. */
  function History4(serial: nat, a: string, b: string, c: string): (Hash, Hash, Hash, Hash) {
    var c0 := H(Commit(Small(serial, a), [], Meta("start", true)));
    var c1 := H(Commit(Small(Zone.NextSerial(serial), b), [c0], Meta("change", true)));
    var c2 := H(Commit(Reverted(CommitTree(c1), CommitTree(c0), CommitTree(c1)), [c1], Meta("revert", true)));
    var c3 := H(Commit(Small(Zone.NextSerial(serial), c), [c2], Meta("change again", true)));
    (c0, c1, c2, c3)
  }

  lemma History4IsReal(serial: nat, a: string, b: string, c: string)
    ensures
      var (c0, c1, c2, c3) := History4(serial, a, b, c);
      && BumpingCommit(CommitTree(c0), CommitTree(c1)) && BumpingCommit(CommitTree(c2), CommitTree(c3))
      && CommitTree(c2) == CommitTree(c0)
      && c1 in Ancs(c3)
  {
    var (c0, c1, c2, c3) := History4(serial, a, b, c);
    SmallCommit(serial, a, b);
    SmallCommit(serial, a, c);
    SmallReverts(serial, a, b);
    GrandparentReached(c1, c2, c3);
  }

  lemma SmallReverts(serial: nat, a: string, b: string)
    ensures
      var t0, t1 := Small(serial, a), Small(Zone.NextSerial(serial), b);
      Reverted(t1, t0, t1) == t0
  {
    SmallCanon(serial, a);
    SmallCanon(Zone.NextSerial(serial), b);
    SmallMap(serial, a, [], "SOA");
    RevertHeadRestores(Small(serial, a), Small(Zone.NextSerial(serial), b));
  }

  lemma GrandparentReached(c1: Hash, c2: Hash, c3: Hash)
    requires Parents(c2) == [c1] && Parents(c3) == [c2]
    ensures c1 in Ancs(c3)
  {
    ParentIsAncestor(c2, 0);
    ParentIsAncestor(c3, 0);
    AncsTransitive(c1, c2, c3);
  }

  lemma SmallSerial(objs: Objs, x: Hash, serial: nat, text: string)
    requires ContentAddressed(objs) && x in objs && IsCommit(x.obj) && SOASet(serial) in objs
    requires CommitTree(x) == Small(serial, text)
    ensures SerialOf(objs, x) == Some(serial)
  {
    SmallMap(serial, text, [], "SOA");
  }

  /** A client that transferred the first change is told that it is current,
      although the second change is not in its zone. */
  lemma CurrentAnswerIsWrong(objs: Objs, serial: nat, a: string, b: string, c: string)
    requires b != c && ContentAddressed(objs) && SOASet(Zone.NextSerial(serial)) in objs
    requires var (_, c1, _, c3) := History4(serial, a, b, c); c1 in objs && c3 in objs
    ensures
      var (_, c1, _, c3) := History4(serial, a, b, c);
      && c1 in Ancs(c3) && SerialOf(objs, c1) == SerialOf(objs, c3) == Some(Zone.NextSerial(serial))
      && !AnswerRight(c3, c1, Current(SOA(Zone.NextSerial(serial), TIMERS)))
  {
    var (_, c1, _, c3) := History4(serial, a, b, c);
    var next := Zone.NextSerial(serial);
    History4IsReal(serial, a, b, c);
    SmallSerial(objs, c1, next, b);
    SmallSerial(objs, c3, next, c);
    SmallBody(next, b);
    SmallBody(next, c);
    assert Data(b) in multiset([Data(b)]) && Data(b) !in multiset([Data(c)]);
  }
}
