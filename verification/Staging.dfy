/** The staging area as edits of the flat map (pkg/repo/repo.go). */
module Staging {
  import opened Objects
  import opened MemStore
  import opened TreeOps
  import opened Canonical
  import opened Names
  import History
  import Sorting

  datatype StagingKey = StagingKey(fqdn: string, rr: string)

  datatype StagingValue = Tombstone | Stage(blob: Hash)

  type Staged = map<StagingKey, StagingValue>

  const SOA_KEY := StagingKey("", "SOA")

  function LeafOf(v: StagingValue): Hash {
    match v
    case Tombstone => Zero
    case Stage(blob) => blob
  }

  predicate KeyLe(a: StagingKey, b: StagingKey) {
    History.NameTypeLe(a.fqdn, a.rr, b.fqdn, b.rr)
  }

  lemma KeyLeOrder()
    ensures Sorting.TotalPreorder(KeyLe)
    ensures forall a, b :: KeyLe(a, b) && KeyLe(b, a) ==> a == b
  {
    forall a, b ensures (KeyLe(a, b) || KeyLe(b, a)) && (KeyLe(a, b) && KeyLe(b, a) ==> a == b) {
      History.NameTypeOrder(a.fqdn, a.rr, b.fqdn, b.rr, "", "");
    }
    forall a, b, c | KeyLe(a, b) && KeyLe(b, c) ensures KeyLe(a, c) {
      History.NameTypeOrder(a.fqdn, a.rr, b.fqdn, b.rr, c.fqdn, c.rr);
    }
  }

  /** `ks` lists every staged key once. */
  ghost predicate Lists(m: Staged, ks: seq<StagingKey>) {
    multiset(ks) == multiset(m.Keys)
  }

  /** Collects the keys in whatever order the map yields them, then sorts. */
  method SortedKeys(m: Staged) returns (ks: seq<StagingKey>)
    ensures Lists(m, ks) && Sorting.SortedBy(KeyLe, ks)
  {
    var out: seq<StagingKey>, left := [], m.Keys;
    while left != {}
      invariant left <= m.Keys && multiset(out) + multiset(left) == multiset(m.Keys)
      decreases left
    {
      var k :| k in left;
      out, left := out + [k], left - {k};
    }
    KeyLeOrder();
    Sorting.SortPermutes(KeyLe, out);
    Sorting.SortSorts(KeyLe, out);
    ks := Sorting.Sort(KeyLe, out);
  }

  /** The map's iteration order cannot show: there is one sorted listing. */
  lemma SortedKeysUnique(m: Staged, k1: seq<StagingKey>, k2: seq<StagingKey>)
    requires Lists(m, k1) && Sorting.SortedBy(KeyLe, k1)
    requires Lists(m, k2) && Sorting.SortedBy(KeyLe, k2)
    ensures k1 == k2
  {
    KeyLeOrder();
    Sorting.SortedPermutationUnique(KeyLe, k1, k2);
  }

  function EditFor(m: Staged, k: StagingKey): Edit
    requires k in m
  {
    Edit(PathOf(k.fqdn), k.rr, LeafOf(m[k]))
  }

  ghost predicate AllStaged(m: Staged, ks: seq<StagingKey>) {
    forall i :: 0 <= i < |ks| ==> ks[i] in m
  }

  function EditsFor(m: Staged, ks: seq<StagingKey>): (es: seq<Edit>)
    requires AllStaged(m, ks)
    ensures |es| == |ks| && forall i :: 0 <= i < |ks| ==> es[i] == EditFor(m, ks[i])
  {
    seq(|ks|, i requires 0 <= i < |ks| => EditFor(m, ks[i]))
  }

  lemma ListsStaged(m: Staged, ks: seq<StagingKey>)
    requires Lists(m, ks)
    ensures AllStaged(m, ks)
    ensures forall k :: k in m ==> k in ks
    ensures forall i, j :: 0 <= i < j < |ks| ==> ks[i] != ks[j]
    ensures |ks| == |m|
  {
    forall i | 0 <= i < |ks| ensures ks[i] in m { assert ks[i] in multiset(ks); }
    forall k | k in m ensures k in ks { assert k in multiset(ks); }
    forall k ensures multiset(ks)[k] <= 1 {}
    forall i, j | 0 <= i < j < |ks| ensures ks[i] != ks[j] {
      if ks[i] == ks[j] { History.TwiceInSeq(ks, i, j); }
    }
    assert |multiset(ks)| == |multiset(m.Keys)|;
  }

  ghost predicate NormalKeys(m: Staged) {
    forall k :: k in m ==> Normal(k.fqdn)
  }

  /** The value of a key under staged sets and tombstones. */
  function StagedAt(m: Staged, path: seq<string>, rr: string, was: Hash): Hash {
    var k := StagingKey(NameOf(path), rr);
    if k in m && PathOf(k.fqdn) == path then LeafOf(m[k]) else was
  }

  lemma StagedEditsDistinct(m: Staged, ks: seq<StagingKey>)
    requires Lists(m, ks) && NormalKeys(m) && AllStaged(m, ks)
    ensures DistinctEdits(EditsFor(m, ks))
  {
    ListsStaged(m, ks);
    forall i, j | 0 <= i < j < |ks| ensures !(PathOf(ks[i].fqdn) == PathOf(ks[j].fqdn) && ks[i].rr == ks[j].rr) {
      PathDeterminesName(ks[i].fqdn);
      PathDeterminesName(ks[j].fqdn);
    }
  }

  lemma StagedHit(m: Staged, ks: seq<StagingKey>, k: StagingKey, was: Hash)
    requires Lists(m, ks) && NormalKeys(m) && AllStaged(m, ks) && k in m
    ensures Override(EditsFor(m, ks), PathOf(k.fqdn), k.rr, was) == LeafOf(m[k])
  {
    var es := EditsFor(m, ks);
    ListsStaged(m, ks);
    StagedEditsDistinct(m, ks);
    OverrideDistinct(es, PathOf(k.fqdn), k.rr, was);
    var i :| 0 <= i < |ks| && ks[i] == k;
    assert es[i] in es;
  }

  lemma StagedMiss(m: Staged, ks: seq<StagingKey>, path: seq<string>, rr: string, was: Hash)
    requires Lists(m, ks) && NormalKeys(m) && AllStaged(m, ks)
    requires forall k :: k in m ==> !(PathOf(k.fqdn) == path && k.rr == rr)
    ensures Override(EditsFor(m, ks), path, rr, was) == was
  {
    var es := EditsFor(m, ks);
    StagedEditsDistinct(m, ks);
    OverrideDistinct(es, path, rr, was);
    forall e | e in es ensures !(e.path == path && e.rr == rr) {
      var i :| 0 <= i < |es| && es[i] == e;
      assert ks[i] in m;
    }
  }

  /** Applying the staged edits in any order is the staged override. */
  lemma StagingIsOverride(m: Staged, ks: seq<StagingKey>, path: seq<string>, rr: string, was: Hash)
    requires Lists(m, ks) && NormalKeys(m) && AllStaged(m, ks)
    ensures Override(EditsFor(m, ks), path, rr, was) == StagedAt(m, path, rr, was)
  {
    var k := StagingKey(NameOf(path), rr);
    if k in m && PathOf(k.fqdn) == path {
      StagedHit(m, ks, k, was);
    } else {
      forall k' | k' in m ensures !(PathOf(k'.fqdn) == path && k'.rr == rr) { PathDeterminesName(k'.fqdn); }
      StagedMiss(m, ks, path, rr, was);
    }
  }

  ghost predicate StagedNamesOk(m: Staged) {
    forall k :: k in m && m[k] != Tombstone && LeafOf(m[k]).H? ==> NamesOk(PathOf(k.fqdn), k.rr)
  }

  lemma StagedEditsOk(m: Staged, ks: seq<StagingKey>)
    requires Lists(m, ks) && AllStaged(m, ks)
    ensures EditsOk(EditsFor(m, ks)) <==> StagedNamesOk(m)
  {
    var es := EditsFor(m, ks);
    ListsStaged(m, ks);
    if EditsOk(es) {
      forall k | k in m && m[k] != Tombstone && LeafOf(m[k]).H? ensures NamesOk(PathOf(k.fqdn), k.rr) {
        var i :| 0 <= i < |ks| && ks[i] == k;
        assert EditOk(es[i]);
      }
    }
  }

  // ---------- a run of UpdateTree calls ----------

  lemma {:induction false} ApplySnoc(root: Hash, es: seq<Edit>, e: Edit)
    ensures Apply(root, es + [e]) == Update(Apply(root, es), e.path, e.rr, e.leaf)
    decreases |es|
  {
    if es == [] {
      assert es + [e] == [e];
      assert [e][1..] == [];
    } else {
      assert (es + [e])[1..] == es[1..] + [e];
      ApplySnoc(Update(root, es[0].path, es[0].rr, es[0].leaf), es[1..], e);
    }
  }

  /** The loop of Commit and of Revert: one UpdateTree call per edit. */
  method ApplyEdits(s: Store, root: Hash, edits: seq<Edit>) returns (r: Result<Hash>)
    requires CanonRoot(root)
    modifies s`objects
    ensures Grows(old(s.objects), s.objects)
    ensures r.Ok? ==> r.value == Apply(root, edits) && EditsOk(edits)
    ensures RootIn(old(s.objects), root) ==> (r.Ok? <==> EditsOk(edits))
    ensures RootIn(old(s.objects), root) && r.Ok? ==> RootIn(s.objects, r.value)
  {
    var tree := root;
    ghost var ready := RootIn(s.objects, root);
    assert edits[..0] == [];
    for i := 0 to |edits|
      invariant Grows(old(s.objects), s.objects)
      invariant tree == Apply(root, edits[..i]) && EditsOk(edits[..i]) && CanonRoot(tree)
      invariant ready ==> RootIn(s.objects, tree)
    {
      var e := edits[i];
      ghost var was, before := s.objects, tree;
      assert edits[..i + 1] == edits[..i] + [e];
      ApplySnoc(root, edits[..i], e);
      if ready { RootSpine(s.objects, tree, e.path); }
      var u := UpdateTree(s, tree, e.path, e.rr, e.leaf);
      if u.Err? {
        assert ready ==> !EditOk(edits[i]);
        return u;
      }
      tree := u.value;
      UpdateCanon(before, e.path, e.rr, e.leaf);
      if ready { UpdateRootIn(was, s.objects, before, e.path, e.rr, e.leaf); }
    }
    assert edits[..|edits|] == edits;
    return Ok(tree);
  }
}
