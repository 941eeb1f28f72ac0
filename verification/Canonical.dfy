/** History independence: the flat map determines the root hash. */
module Canonical {
  import opened Objects
  import opened TreeOps

  ghost predicate SameMap(a: Hash, b: Hash) {
    forall path: seq<string>, rr: string :: At(a, path, rr) == At(b, path, rr)
  }

  ghost predicate EmptyMap(a: Hash) {
    forall path: seq<string>, rr: string :: At(a, path, rr) == Zero
  }

  lemma {:induction false} SameMapSameEntries(a: Hash, b: Hash)
    requires CanonRoot(a) && CanonRoot(b) && SameMap(a, b)
    ensures Ents(a) == Ents(b)
    decreases a
  {
    forall k, n ensures Find(Ents(a), k, n) == Find(Ents(b), k, n) {
      if k.Leaf? {
        assert At(a, [], n) == At(b, [], n);
      } else {
        SameChild(a, b, n);
      }
    }
    FindDetermines(Ents(a), Ents(b));
  }

  lemma {:induction false} SameChild(a: Hash, b: Hash, n: string)
    requires CanonRoot(a) && CanonRoot(b) && SameMap(a, b)
    ensures Find(Ents(a), Subtree, n) == Find(Ents(b), Subtree, n)
    decreases a, 0
  {
    var x, y := Find(Ents(a), Subtree, n), Find(Ents(b), Subtree, n);
    CanonFind(Ents(a), n);
    CanonFind(Ents(b), n);
    forall path: seq<string>, rr: string ensures At(x, path, rr) == At(y, path, rr) {
      assert ([n] + path)[1..] == path;
      assert At(a, [n] + path, rr) == At(b, [n] + path, rr);
    }
    if x.H? {
      var i := FindIndex(Ents(a), Subtree, n);
      SameMapSameEntries(x, y);
    } else if y.H? {
      var p, r := Inhabited(Ents(y));
      assert At(y, p, r) != Zero;
      AtENothing(p, r);
      assert false;
    }
  }

  /** Equal non-empty flat maps have equal root hashes, however they were
      built; two empty ones may differ only as "no tree" and "the empty tree". */
  lemma HashIsCanonical(a: Hash, b: Hash)
    requires CanonRoot(a) && CanonRoot(b)
    ensures SameMap(a, b) && !EmptyMap(a) ==> a == b
    ensures EmptyMap(a) <==> Ents(a) == []
    ensures a == b ==> SameMap(a, b)
  {
    if SameMap(a, b) { SameMapSameEntries(a, b); }
    if Ents(a) == [] {
      forall path: seq<string>, rr: string ensures At(a, path, rr) == Zero { AtENothing(path, rr); }
    } else {
      var p, r := Inhabited(Ents(a));
      assert At(a, p, r) != Zero;
    }
  }

  // ---------- whole update histories ----------

  datatype Edit = Edit(path: seq<string>, rr: string, leaf: Hash)

  /** Applying edits one after another, as Commit and Revert do. */
  function Apply(root: Hash, edits: seq<Edit>): Hash
    decreases |edits|
  {
    if edits == [] then root
    else Apply(Update(root, edits[0].path, edits[0].rr, edits[0].leaf), edits[1..])
  }

  /** The value of a key after the edits: the last edit of that key, if any. */
  function Override(edits: seq<Edit>, path: seq<string>, rr: string, was: Hash): Hash
    decreases |edits|
  {
    if edits == [] then was
    else
      Override(edits[1..], path, rr, if edits[0].path == path && edits[0].rr == rr then edits[0].leaf else was)
  }

  predicate EditOk(e: Edit) {
    e.leaf.H? ==> NamesOk(e.path, e.rr)
  }

  predicate EditsOk(edits: seq<Edit>) {
    forall i :: 0 <= i < |edits| ==> EditOk(edits[i])
  }

  /** A run of updates is the pointwise override and keeps the invariant. */
  lemma {:induction false} ApplyAt(root: Hash, edits: seq<Edit>, path: seq<string>, rr: string)
    requires CanonRoot(root) && EditsOk(edits)
    ensures CanonRoot(Apply(root, edits))
    ensures At(Apply(root, edits), path, rr) == Override(edits, path, rr, At(root, path, rr))
    decreases |edits|
  {
    if edits != [] {
      var e := edits[0];
      UpdateCanon(root, e.path, e.rr, e.leaf);
      UpdateAt(root, e.path, e.rr, e.leaf, path, rr);
      ApplyAt(Update(root, e.path, e.rr, e.leaf), edits[1..], path, rr);
    }
  }

  /** Two edit histories with the same non-empty outcome give the same hash. */
  lemma HistoryIndependence(a: Hash, b: Hash, e1: seq<Edit>, e2: seq<Edit>)
    requires CanonRoot(a) && CanonRoot(b) && EditsOk(e1) && EditsOk(e2)
    requires forall path: seq<string>, rr: string ::
               Override(e1, path, rr, At(a, path, rr)) == Override(e2, path, rr, At(b, path, rr))
    requires exists path: seq<string>, rr: string :: Override(e1, path, rr, At(a, path, rr)) != Zero
    ensures Apply(a, e1) == Apply(b, e2)
  {
    var x, y := Apply(a, e1), Apply(b, e2);
    forall path: seq<string>, rr: string
      ensures At(x, path, rr) == Override(e1, path, rr, At(a, path, rr)) == At(y, path, rr)
    {
      ApplyAt(a, e1, path, rr);
      ApplyAt(b, e2, path, rr);
    }
    ApplyAt(a, e1, [], "");
    ApplyAt(b, e2, [], "");
    HashIsCanonical(x, y);
  }

  // ---------- edits of distinct keys commute ----------

  ghost predicate DistinctEdits(edits: seq<Edit>) {
    forall i, j :: 0 <= i < j < |edits| ==> !(edits[i].path == edits[j].path && edits[i].rr == edits[j].rr)
  }

  /** With distinct keys the order of the edits is irrelevant. */
  lemma {:induction false} OverrideDistinct(edits: seq<Edit>, path: seq<string>, rr: string, was: Hash)
    requires DistinctEdits(edits)
    ensures forall e :: e in edits && e.path == path && e.rr == rr ==> Override(edits, path, rr, was) == e.leaf
    ensures (forall e :: e in edits ==> !(e.path == path && e.rr == rr)) ==> Override(edits, path, rr, was) == was
    decreases |edits|
  {
    if edits != [] {
      var hit := edits[0].path == path && edits[0].rr == rr;
      OverrideDistinct(edits[1..], path, rr, if hit then edits[0].leaf else was);
      assert edits == [edits[0]] + edits[1..];
      if hit {
        forall e | e in edits[1..] ensures !(e.path == path && e.rr == rr) {
          var j :| 1 <= j < |edits| && edits[j] == e;
        }
      }
    }
  }
}
