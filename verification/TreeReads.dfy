/** The read-only walkers of pkg/object/treeops.go. */
module TreeReads {
  import opened Objects
  import opened TreeNode
  import opened MemStore
  import opened TreeOps
  import opened Sequences

  // ---------- WalkTree and NodeExists ----------

  lemma {:induction false} AtSubNode(h: Hash, path: seq<string>, more: seq<string>, rr: string)
    ensures At(h, path + more, rr) == At(SubNode(h, path), more, rr)
    decreases |path|
  {
    if path == [] {
      assert path + more == more;
    } else {
      assert (path + more)[1..] == path[1..] + more;
      AtSubNode(Find(Ents(h), Subtree, path[0]), path[1..], more, rr);
    }
  }

  lemma {:induction false} BelowNothing(path: seq<string>)
    ensures SubNode(Zero, path) == Zero
    decreases |path|
  {
    if path != [] { BelowNothing(path[1..]); }
  }

  lemma {:induction false} SubNodeSplit(h: Hash, path: seq<string>, more: seq<string>)
    ensures SubNode(h, path + more) == SubNode(SubNode(h, path), more)
    decreases |path|
  {
    if path == [] {
      assert path + more == more;
    } else {
      assert (path + more)[1..] == path[1..] + more;
      SubNodeSplit(Find(Ents(h), Subtree, path[0]), path[1..], more);
    }
  }

  /** One label further down; where there is nothing, the key has no value. */
  lemma WalkStep(root: Hash, path: seq<string>, i: nat, rr: string)
    requires i < |path|
    ensures SubNode(root, path[..i + 1]) == Find(Ents(SubNode(root, path[..i])), Subtree, path[i])
    ensures SubNode(root, path[..i]).Zero? || SubNode(root, path[..i + 1]).Zero? ==> At(root, path, rr) == Zero
  {
    assert path[..i + 1] == path[..i] + [path[i]];
    SubNodeSnoc(root, path[..i], path[i]);
    NoValueBelow(root, path, i, rr);
    NoValueBelow(root, path, i + 1, rr);
  }

  lemma NoValueBelow(root: Hash, path: seq<string>, i: nat, rr: string)
    requires i <= |path|
    ensures SubNode(root, path[..i]).Zero? ==> At(root, path, rr) == Zero
  {
    assert path == path[..i] + path[i..];
    AtSubNode(root, path[..i], path[i..], rr);
    AtENothing(path[i..], rr);
  }

  lemma WalkEnd(root: Hash, path: seq<string>, rr: string)
    ensures path[..|path|] == path
    ensures At(root, path, rr) == Find(Ents(SubNode(root, path)), Leaf, rr)
    ensures SubNode(root, path).Zero? ==> At(root, path, rr) == Zero
  {
    assert path[..|path|] == path && path + [] == path;
    AtSubNode(root, path, [], rr);
    NoValueBelow(root, path, |path|, rr);
  }

  /** Follows `path` label by label, then reads the leaf `rr`: the flat map's
      value, with NotFound for an absent key. */
  method WalkTree(s: Store, root: Hash, path: seq<string>, rr: string) returns (r: Result<Hash>)
    ensures ContentAddressed(s.objects) && CanonRoot(root) && SpineLoads(s.objects, root, path) ==>
              r == if At(root, path, rr).Zero? then Err(NotFound) else Ok(At(root, path, rr))
    ensures CanonRoot(root) && r.Ok? ==> r.value == At(root, path, rr) && r.value.H?
  {
    var cur := root;
    for i := 0 to |path|
      invariant cur == SubNode(root, path[..i])
    {
      WalkStep(root, path, i, rr);
      assert NodeLoads(s.objects, SubNode(root, path[..i])) ==> cur.Zero? || LoadTree(s.objects, cur).Ok?;
      var t := LoadTree(s.objects, cur);
      if t.Err? { return Err(t.error); }
      var e := Get(t.value, Subtree, path[i]);
      ScanIsFind(t.value, Subtree, path[i]);
      if e.None? { return Err(NotFound); }
      cur := e.value.hash;
    }
    WalkEnd(root, path, rr);
    var t := LoadTree(s.objects, cur);
    if t.Err? { return Err(t.error); }
    var e := Get(t.value, Leaf, rr);
    ScanIsFind(t.value, Leaf, rr);
    if CanonRoot(root) { CanonSubNode(root, path); }
    if e.None? { return Err(NotFound); }
    return Ok(e.value.hash);
  }

  /** Some record set lives at `path` or below it. */
  ghost predicate NameInZone(root: Hash, path: seq<string>) {
    exists more: seq<string>, rr: string :: At(root, path + more, rr) != Zero
  }

  lemma NodeIffName(root: Hash, path: seq<string>)
    requires CanonRoot(root) && path != []
    ensures SubNode(root, path) != Zero <==> NameInZone(root, path)
  {
    var d := SubNode(root, path);
    CanonSubNode(root, path);
    if d != Zero {
      var more, rr := Inhabited(Ents(d));
      AtSubNode(root, path, more, rr);
    }
    if NameInZone(root, path) {
      var more: seq<string>, rr: string :| At(root, path + more, rr) != Zero;
      AtSubNode(root, path, more, rr);
      AtENothing(more, rr);
    }
  }

  lemma NothingFurther(root: Hash, path: seq<string>, i: nat)
    requires i <= |path| && SubNode(root, path[..i]).Zero?
    ensures SubNode(root, path).Zero?
  {
    assert path == path[..i] + path[i..];
    SubNodeSplit(root, path[..i], path[i..]);
    BelowNothing(path[i..]);
  }

  /** Tells NODATA from NXDOMAIN: below the apex, a node exists exactly when
      the name or a descendant of it owns a record set. */
  method NodeExists(s: Store, root: Hash, path: seq<string>) returns (r: Result<bool>)
    ensures root.Zero? ==> r == Ok(false)
    ensures root.H? && path == [] ==> r == Ok(true)
    ensures root.H? && path != [] && CanonRoot(root) && r.Ok? ==> (r.value <==> NameInZone(root, path))
    ensures CanonRoot(root) && SpineLoads(s.objects, root, path) ==> r.Ok?
  {
    if root.Zero? { return Ok(false); }
    var cur := root;
    for i := 0 to |path|
      invariant cur == SubNode(root, path[..i])
      invariant cur.H? || !CanonRoot(root)
    {
      SubNodeSnoc(root, path[..i], path[i]);
      assert path[..i + 1] == path[..i] + [path[i]];
      if CanonRoot(root) { CanonSubNode(root, path[..i]); }
      assert NodeLoads(s.objects, SubNode(root, path[..i])) ==> cur.Zero? || LoadTree(s.objects, cur).Ok?;
      var t := LoadTree(s.objects, cur);
      if t.Err? { return Err(t.error); }
      var e := Get(t.value, Subtree, path[i]);
      ScanIsFind(t.value, Subtree, path[i]);
      if e.None? {
        NothingFurther(root, path, i + 1);
        if CanonRoot(root) { NodeIffName(root, path); }
        return Ok(false);
      }
      cur := e.value.hash;
    }
    assert path[..|path|] == path;
    if CanonRoot(root) && path != [] { NodeIffName(root, path); }
    return Ok(true);
  }

  // ---------- WalkAllLeaves ----------

  datatype LeafRec = LeafRec(path: seq<string>, rr: string, blob: Hash)

  /** The record sets below these entries, depth first in entry order. */
  function Leaves(path: seq<string>, es: Entries): seq<LeafRec>
    decreases es
  {
    if es == [] then []
    else
      (match es[0].kind
       case Leaf => [LeafRec(path, es[0].name, es[0].hash)]
       case Subtree =>
         if es[0].hash.H? && es[0].hash.obj.Tree? then Leaves(path + [es[0].name], es[0].hash.obj.entries) else [])
      + Leaves(path, es[1..])
  }

  /** The enumeration lists exactly the flat map. */
  lemma {:induction false} LeavesExact(path: seq<string>, es: Entries, x: LeafRec)
    requires CanonE(es)
    ensures x in Leaves(path, es) <==>
              path <= x.path && x.blob.H? && AtE(es, x.path[|path|..], x.rr) == x.blob
    decreases es
  {
    if es == [] {
      if path <= x.path { AtENothing(x.path[|path|..], x.rr); }
    } else {
      var e, rest := es[0], Leaves(path, es[1..]);
      LeavesExact(path, es[1..], x);
      if e.kind.Subtree? {
        LeavesExact(path + [e.name], e.hash.obj.entries, x);
        assert Leaves(path, es) == Leaves(path + [e.name], e.hash.obj.entries) + rest;
      } else {
        assert Leaves(path, es) == [LeafRec(path, e.name, e.hash)] + rest;
      }
      if path <= x.path {
        var p := x.path[|path|..];
        assert x.path == path + p;
        FindHead(es, FirstKind(p), FirstName(p, x.rr));
        AtEDown(es, p, x.rr);
        AtEDown(es[1..], p, x.rr);
        DownZero(p, x.rr);
        if e.kind.Subtree? {
          assert path + [e.name] <= x.path <==> p != [] && p[0] == e.name;
          if p != [] && p[0] == e.name {
            assert p[1..] == x.path[|path + [e.name]|..];
          }
        } else {
          assert x.path == path <==> p == [];
        }
      }
    }
  }

  ghost predicate DistinctLeaves(ls: seq<LeafRec>) {
    forall i, j :: 0 <= i < j < |ls| ==> !(ls[i].path == ls[j].path && ls[i].rr == ls[j].rr)
  }

  lemma LeavesConcat(first: seq<LeafRec>, rest: seq<LeafRec>)
    requires DistinctLeaves(first) && DistinctLeaves(rest)
    requires forall x, y :: x in first && y in rest ==> !(x.path == y.path && x.rr == y.rr)
    ensures DistinctLeaves(first + rest)
  {
    var ls := first + rest;
    forall i, j | 0 <= i < j < |ls| ensures !(ls[i].path == ls[j].path && ls[i].rr == ls[j].rr) {
      if i < |first| && j >= |first| { assert ls[i] in first && ls[j] in rest; }
    }
  }

  /** Below the first entry's key the rest of the list holds nothing. */
  lemma FirstKeyTaken(es: Entries, p: seq<string>, rr: string)
    requires CanonE(es) && es != []
    ensures FirstKind(p) == es[0].kind && FirstName(p, rr) == es[0].name ==> AtE(es[1..], p, rr) == Zero
  {
    FindHead(es, es[0].kind, es[0].name);
    AtEDown(es[1..], p, rr);
    DownZero(p, rr);
  }

  /** Each key is listed once. */
  lemma {:induction false} LeavesDistinct(path: seq<string>, es: Entries)
    requires CanonE(es)
    ensures DistinctLeaves(Leaves(path, es))
    decreases es
  {
    if es != [] {
      var e, rest := es[0], Leaves(path, es[1..]);
      LeavesDistinct(path, es[1..]);
      var first := Leaves(path, es)[..|Leaves(path, es)| - |rest|];
      if e.kind.Subtree? {
        LeavesDistinct(path + [e.name], e.hash.obj.entries);
        assert first == Leaves(path + [e.name], e.hash.obj.entries);
      }
      assert Leaves(path, es) == first + rest;
      forall x, y | x in first && y in rest ensures !(x.path == y.path && x.rr == y.rr) {
        LeavesExact(path, es[1..], y);
        if e.kind.Subtree? { LeavesExact(path + [e.name], e.hash.obj.entries, x); }
        if path <= y.path { FirstKeyTaken(es, y.path[|path|..], y.rr); }
      }
      LeavesConcat(first, rest);
    }
  }

  /** The callback walk, collecting what it is called with. */
  method WalkLeavesAt(s: Store, path: seq<string>, h: Hash, acc: seq<LeafRec>) returns (r: Result<seq<LeafRec>>)
    ensures r.Ok? ==> h.H? && h.obj.Tree? && r.value == acc + Leaves(path, Ents(h))
    ensures h.H? && RootIn(s.objects, h) ==> r.Ok?
    decreases h
  {
    var t := LoadTree(s.objects, h);
    if t.Err? { return Err(t.error); }
    var es := t.value;
    var out := acc;
    assert es[0..] == es;
    for i := 0 to |es|
      invariant out + Leaves(path, es[i..]) == acc + Leaves(path, es)
    {
      var e := es[i];
      assert es[i..][0] == e && es[i..][1..] == es[i + 1..];
      ghost var before, rest := out, Leaves(path, es[i + 1..]);
      match e.kind {
        case Leaf =>
          out := out + [LeafRec(path, e.name, e.hash)];
          ConcatAssoc(before, [LeafRec(path, e.name, e.hash)], rest);
        case Subtree =>
          assert e in es;
          var sub := WalkLeavesAt(s, path + [e.name], e.hash, out);
          if sub.Err? { return sub; }
          out := sub.value;
          assert e.hash.H? && e.hash.obj.Tree?;
          ConcatAssoc(before, Leaves(path + [e.name], Ents(e.hash)), rest);
      }
    }
    assert es[|es|..] == [] && out + [] == out;
    return Ok(out);
  }

  method WalkAllLeaves(s: Store, root: Hash) returns (r: Result<seq<LeafRec>>)
    ensures r.Ok? ==> r.value == Leaves([], Ents(root))
    ensures RootIn(s.objects, root) ==> r.Ok?
  {
    if root.Zero? { return Ok([]); }
    r := WalkLeavesAt(s, [], root, []);
    assert [] + Leaves([], Ents(root)) == Leaves([], Ents(root));
  }
}
