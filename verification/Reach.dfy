/** What a hash reaches through the references that objects hold
    (pkg/replicate/server.go, walkChildren), and what holding all of it gives
    a reader. */
module Reach {
  import opened Objects
  import opened TreeNode
  import opened MemStore
  import opened TreeOps
  import opened Ancestry

  /** The hashes an object refers to directly. */
  function Children(h: Hash): (cs: seq<Hash>)
    ensures forall i :: 0 <= i < |cs| ==> cs[i] < h
  {
    if h.Zero? then []
    else match h.obj
      case Commit(tree, parents, _) => [tree] + parents
      case Tree(entries) => seq(|entries|, i requires 0 <= i < |entries| => entries[i].hash)
      case _ => []
  }

  /** Everything reachable from `h`, `h` included. */
  function Closure(h: Hash): set<Hash>
    decreases h
  {
    if h.Zero? then {} else {h} + set i, x | 0 <= i < |Children(h)| && x in Closure(Children(h)[i]) :: x
  }

  function ClosureAll(hs: seq<Hash>): set<Hash> {
    set i, x | 0 <= i < |hs| && x in Closure(hs[i]) :: x
  }

  lemma {:induction false} ClosureTransitive(x: Hash, y: Hash, z: Hash)
    requires x in Closure(y) && y in Closure(z)
    ensures x in Closure(z)
    decreases z
  {
    if y != z {
      var i :| 0 <= i < |Children(z)| && y in Closure(Children(z)[i]);
      ClosureTransitive(x, y, Children(z)[i]);
    }
  }

  lemma ChildInClosure(h: Hash, i: nat, x: Hash)
    requires h.H? && i < |Children(h)| && x in Closure(Children(h)[i])
    ensures x in Closure(h)
  {
  }

  // ---------- reachability is a chain of references ----------

  /** A commit names its tree and its parents, a tree node what its entries
      point to. */
  predicate Refers(a: Hash, b: Hash) {
    && a.H? && b.H?
    && match a.obj
       case Commit(tree, parents, _) => b == tree || b in parents
       case Tree(entries) => exists i :: 0 <= i < |entries| && entries[i].hash == b
       case _ => false
  }

  /** `p` leads from `h` to `x`, each object naming the next. */
  predicate Leads(p: seq<Hash>, h: Hash, x: Hash) {
    && |p| > 0 && p[0] == h && p[|p| - 1] == x
    && forall i :: 0 < i < |p| ==> Refers(p[i - 1], p[i])
  }

  lemma RefersIsChild(a: Hash, b: Hash)
    ensures Refers(a, b) <==> b.H? && b in Children(a)
  {
    if a.H? && a.obj.Tree? {
      var es := a.obj.entries;
      forall i | 0 <= i < |es| ensures Children(a)[i] == es[i].hash {}
      if b in Children(a) {
        var i :| 0 <= i < |Children(a)| && Children(a)[i] == b;
        assert es[i].hash == b;
      }
    }
  }

  lemma {:induction false} ClosureHasChain(h: Hash, x: Hash) returns (p: seq<Hash>)
    requires x in Closure(h)
    ensures Leads(p, h, x)
    decreases h
  {
    p := [h];
    if x != h {
      var i :| 0 <= i < |Children(h)| && x in Closure(Children(h)[i]);
      RefersIsChild(h, Children(h)[i]);
      var q := ClosureHasChain(Children(h)[i], x);
      p := [h] + q;
      forall j | 0 < j < |p| ensures Refers(p[j - 1], p[j]) {
        if j > 1 { assert p[j - 1] == q[j - 2] && p[j] == q[j - 1]; }
      }
    }
  }

  lemma {:induction false} ChainInClosure(p: seq<Hash>, h: Hash, x: Hash)
    requires Leads(p, h, x) && h.H?
    ensures x in Closure(h)
    decreases |p|
  {
    if |p| > 1 {
      assert Refers(p[0], p[1]);
      RefersIsChild(h, p[1]);
      var i :| 0 <= i < |Children(h)| && Children(h)[i] == p[1];
      ChainInClosure(p[1..], p[1], x);
    }
  }

  /** A walk reaches an object exactly when references lead there. */
  lemma ReachedIffLed(h: Hash, x: Hash)
    requires h.H?
    ensures x in Closure(h) <==> exists p :: Leads(p, h, x)
  {
    if x in Closure(h) {
      var p := ClosureHasChain(h, x);
    }
    if p :| Leads(p, h, x) { ChainInClosure(p, h, x); }
  }

  // ---------- the parts of a history ----------

  lemma {:induction false} ReachesCommits(tip: Hash, x: Hash)
    requires x in Ancs(tip) && x.H?
    ensures x in Closure(tip)
    decreases tip
  {
    if x != tip {
      var i :| 0 <= i < |Parents(tip)| && x in Ancs(Parents(tip)[i]);
      assert Children(tip)[i + 1] == Parents(tip)[i];
      ReachesCommits(Parents(tip)[i], x);
      ChildInClosure(tip, i + 1, x);
    }
  }

  lemma ReachesRoot(c: Hash)
    requires c.H? && c.obj.Commit? && c.obj.tree.H?
    ensures c.obj.tree in Closure(c)
  {
    assert Children(c)[0] == c.obj.tree;
    ChildInClosure(c, 0, c.obj.tree);
  }

  lemma ReachesEntry(h: Hash, k: Kind, n: string)
    requires Find(Ents(h), k, n).H?
    ensures Find(Ents(h), k, n) in Closure(h)
  {
    var i := FindIndex(Ents(h), k, n);
    assert Children(h)[i] == Find(Ents(h), k, n);
    ChildInClosure(h, i, Find(Ents(h), k, n));
  }

  lemma {:induction false} ReachesNode(h: Hash, path: seq<string>)
    requires SubNode(h, path).H?
    ensures SubNode(h, path) in Closure(h)
    decreases |path|
  {
    if path != [] {
      var d := Find(Ents(h), Subtree, path[0]);
      if d.Zero? { NoNodeBelow(path[1..]); }
      ReachesNode(d, path[1..]);
      ReachesEntry(h, Subtree, path[0]);
      ClosureTransitive(SubNode(d, path[1..]), d, h);
    }
  }

  lemma {:induction false} NoNodeBelow(path: seq<string>)
    ensures SubNode(Zero, path) == Zero
    decreases |path|
  {
    if path != [] { NoNodeBelow(path[1..]); }
  }

  lemma {:induction false} ReachesSet(h: Hash, path: seq<string>, rr: string)
    requires At(h, path, rr).H?
    ensures At(h, path, rr) in Closure(h)
    decreases |path|
  {
    if path == [] {
      ReachesEntry(h, Leaf, rr);
    } else {
      var d := Find(Ents(h), Subtree, path[0]);
      if d.Zero? { AtENothing(path[1..], rr); }
      ReachesSet(d, path[1..], rr);
      ReachesEntry(h, Subtree, path[0]);
      ClosureTransitive(At(d, path[1..], rr), d, h);
    }
  }

  // ---------- what holding it all gives ----------

  ghost predicate Has(objs: Objs, h: Hash) {
    Closure(h) <= objs.Keys
  }

  /** Every node and every record set of the zone is held; a canonical tree
      loads node by node. */
  ghost predicate ZoneReadable(objs: Objs, tree: Hash) {
    && (forall path :: SubNode(tree, path).H? ==> Holds(objs, SubNode(tree, path)))
    && (forall path: seq<string>, rr: string :: At(tree, path, rr).H? ==> Holds(objs, At(tree, path, rr)))
    && (CanonRoot(tree) ==> RootIn(objs, tree))
  }

  /** Every commit below the tip is held, with its whole zone. */
  ghost predicate Readable(objs: Objs, tip: Hash) {
    forall x :: x in Ancs(tip) && x.H? ==>
      Holds(objs, x) && (x.obj.Commit? ==> ZoneReadable(objs, x.obj.tree))
  }

  lemma {:induction false} HeldNodesLoad(objs: Objs, es: Entries)
    requires CanonE(es)
    requires forall i, x :: 0 <= i < |es| && x in Closure(es[i].hash) ==> Holds(objs, x)
    ensures ClosedE(objs, es)
    decreases es
  {
    forall i | 0 <= i < |es| && es[i].kind.Subtree?
      ensures LoadTree(objs, es[i].hash).Ok? && ClosedE(objs, es[i].hash.obj.entries)
    {
      var h := es[i].hash;
      var below := h.obj.entries;
      assert h in Closure(h) && CanonE(below);
      AcceptedIffStrict(below);
      assert Holds(objs, h);
      assert LoadTree(objs, h).Ok?;
      forall j, x | 0 <= j < |below| && x in Closure(below[j].hash) ensures Holds(objs, x) {
        assert Children(h)[j] == below[j].hash;
        ChildInClosure(h, j, x);
      }
      HeldNodesLoad(objs, below);
    }
  }

  lemma HeldRootLoads(objs: Objs, tree: Hash)
    requires CanonRoot(tree)
    requires forall x :: x in Closure(tree) ==> Holds(objs, x)
    ensures RootIn(objs, tree)
  {
    if tree.H? {
      var es := tree.obj.entries;
      assert tree in Closure(tree);
      AcceptedIffStrict(es);
      forall i, x | 0 <= i < |es| && x in Closure(es[i].hash) ensures Holds(objs, x) {
        assert Children(tree)[i] == es[i].hash;
        ChildInClosure(tree, i, x);
      }
      HeldNodesLoad(objs, es);
    }
  }

  lemma HeldZoneReadable(objs: Objs, tree: Hash)
    requires forall x :: x in Closure(tree) ==> Holds(objs, x)
    ensures ZoneReadable(objs, tree)
  {
    forall path | SubNode(tree, path).H? ensures Holds(objs, SubNode(tree, path)) { ReachesNode(tree, path); }
    forall path: seq<string>, rr: string | At(tree, path, rr).H? ensures Holds(objs, At(tree, path, rr)) {
      ReachesSet(tree, path, rr);
    }
    if CanonRoot(tree) { HeldRootLoads(objs, tree); }
  }

  /** A store that holds what a tip reaches can read its whole history. */
  lemma HasMeansReadable(objs: Objs, tip: Hash)
    requires ContentAddressed(objs) && Has(objs, tip)
    ensures Readable(objs, tip)
  {
    forall x | x in Ancs(tip) && x.H?
      ensures Holds(objs, x) && (x.obj.Commit? ==> ZoneReadable(objs, x.obj.tree))
    {
      ReachesCommits(tip, x);
      if x.obj.Commit? {
        forall y | y in Closure(x.obj.tree) ensures Holds(objs, y) {
          ReachesRoot(x);
          ClosureTransitive(y, x.obj.tree, x);
          ClosureTransitive(y, x, tip);
        }
        HeldZoneReadable(objs, x.obj.tree);
      }
    }
  }
}
