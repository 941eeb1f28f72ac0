/** Reading and rewriting label trees in a store (pkg/object/treeops.go). */
module TreeOps {
  import opened Objects
  import opened TreeNode
  import opened MemStore
  import opened Sequences
  import Sorting

  // ---------- loading ----------

  /** Fetch, check the kind, check the hash, decode. */
  function LoadTree(objs: Objs, h: Hash): (r: Result<Entries>)
    ensures r.Ok? ==> Holds(objs, h) && h.obj.Tree? && r.value == Ents(h) && WeakSorted(r.value)
  {
    if h !in objs then Err(NotFound)
    else if !objs[h].Tree? then Err(InvalidObject)
    else if H(objs[h]) != h then Err(Corrupt)
    else if !Accepted(objs[h].entries) then Err(InvalidObject)
    else AcceptedIffStrict(objs[h].entries); Ok(objs[h].entries)
  }

  /** Every tree node below these entries can be loaded. */
  ghost predicate ClosedE(objs: Objs, es: Entries)
    decreases es
  {
    forall i :: 0 <= i < |es| && es[i].kind.Subtree? ==>
      && LoadTree(objs, es[i].hash).Ok?
      && es[i].hash.H? && es[i].hash.obj.Tree? && ClosedE(objs, es[i].hash.obj.entries)
  }

  ghost predicate RootIn(objs: Objs, h: Hash) {
    h.Zero? || (LoadTree(objs, h).Ok? && ClosedE(objs, Ents(h)))
  }

  predicate NodeLoads(objs: Objs, h: Hash) {
    h.Zero? || LoadTree(objs, h).Ok?
  }

  /** The node reached by descending along `path`. */
  function SubNode(h: Hash, path: seq<string>): Hash
    decreases |path|
  {
    if path == [] then h else SubNode(Find(Ents(h), Subtree, path[0]), path[1..])
  }

  /** The nodes a descent along `path` visits can be loaded. */
  predicate SpineLoads(objs: Objs, h: Hash, path: seq<string>) {
    forall i :: 0 <= i <= |path| ==> NodeLoads(objs, SubNode(h, path[..i]))
  }

  lemma {:induction false} ClosedKept(a: Objs, b: Objs, es: Entries)
    requires Keeps(a, b) && ClosedE(a, es)
    ensures ClosedE(b, es)
    decreases es
  {
    forall i | 0 <= i < |es| && es[i].kind.Subtree?
      ensures LoadTree(b, es[i].hash).Ok? && es[i].hash.H? && es[i].hash.obj.Tree? && ClosedE(b, es[i].hash.obj.entries)
    {
      assert Holds(a, es[i].hash);
      ClosedKept(a, b, es[i].hash.obj.entries);
    }
  }

  lemma RootKept(a: Objs, b: Objs, h: Hash)
    requires Keeps(a, b) && RootIn(a, h)
    ensures RootIn(b, h)
  {
    if h.H? {
      assert Holds(a, h);
      ClosedKept(a, b, Ents(h));
    }
  }

  lemma {:induction false} RootSubNode(objs: Objs, h: Hash, path: seq<string>)
    requires RootIn(objs, h)
    ensures RootIn(objs, SubNode(h, path))
    decreases |path|
  {
    if path != [] {
      RootChild(objs, h, path[0]);
      RootSubNode(objs, Find(Ents(h), Subtree, path[0]), path[1..]);
    }
  }

  lemma RootSpine(objs: Objs, h: Hash, path: seq<string>)
    requires RootIn(objs, h)
    ensures SpineLoads(objs, h, path)
  {
    forall i | 0 <= i <= |path| ensures NodeLoads(objs, SubNode(h, path[..i])) { RootSubNode(objs, h, path[..i]); }
  }

  lemma RootChild(objs: Objs, h: Hash, n: string)
    requires RootIn(objs, h)
    ensures RootIn(objs, Find(Ents(h), Subtree, n))
  {
    if Find(Ents(h), Subtree, n) != Zero {
      var i := FindIndex(Ents(h), Subtree, n);
    }
  }

  // ---------- writing one node ----------

  predicate AllNamed(es: Entries) {
    forall i :: 0 <= i < |es| ==> ValidName(es[i].name)
  }

  /** Validates the entries, sorts them and stores the node. */
  method PutTree(s: Store, es: Entries) returns (r: Result<Hash>)
    modifies s`objects
    ensures r.Ok? <==> AllNamed(es)
    ensures r.Ok? ==> r.value == H(Tree(Sorting.Sort(EntryLe, es)))
    ensures s.objects == if r.Ok? then old(s.objects)[r.value := r.value.obj] else old(s.objects)
  {
    for i := 0 to |es|
      invariant AllNamed(es[..i])
    {
      if !ValidName(es[i].name) { return Err(InvalidObject); }
      assert es[..i + 1] == es[..i] + [es[i]];
    }
    assert es[..|es|] == es;
    var h := H(Tree(Sorting.Sort(EntryLe, es)));
    s.PutObject(h, h.obj);
    return Ok(h);
  }

  // ---------- setEntry ----------

  function SetRaw(es: Entries, k: Kind, n: string, h: Hash): Entries {
    if es == [] then []
    else
      (if !HasKey(es[0], k, n) then [es[0]] else if h.Zero? then [] else [Entry(k, n, h)])
      + SetRaw(es[1..], k, n, h)
  }

  function Amended(es: Entries, k: Kind, n: string, h: Hash): Entries {
    SetRaw(es, k, n, h) + (if Scan(es, k, n).None? && h.H? then [Entry(k, n, h)] else [])
  }

  /** The node with (k, n) set to `h`, or removed when `h` is zero. */
  function Put(es: Entries, k: Kind, n: string, h: Hash): Entries {
    Sorting.Sort(EntryLe, Amended(es, k, n, h))
  }

  lemma {:induction false} SetRawSnoc(es: Entries, e: Entry<Hash>, k: Kind, n: string, h: Hash)
    ensures SetRaw(es + [e], k, n, h) == SetRaw(es, k, n, h) + SetRaw([e], k, n, h)
    ensures Scan(es + [e], k, n).None? <==> Scan(es, k, n).None? && !HasKey(e, k, n)
    decreases |es|
  {
    if es == [] {
      assert [] + [e] == [e];
    } else {
      assert (es + [e])[1..] == es[1..] + [e];
      SetRawSnoc(es[1..], e, k, n, h);
      var first := if !HasKey(es[0], k, n) then [es[0]] else if h.Zero? then [] else [Entry(k, n, h)];
      ConcatAssoc(first, SetRaw(es[1..], k, n, h), SetRaw([e], k, n, h));
    }
  }

  method SetEntry(es: Entries, k: Kind, n: string, h: Hash) returns (r: Entries)
    ensures r == Put(es, k, n, h)
  {
    var out: Entries := [];
    var replaced := false;
    for i := 0 to |es|
      invariant out == SetRaw(es[..i], k, n, h)
      invariant replaced <==> Scan(es[..i], k, n).Some?
    {
      var e := es[i];
      SetRawSnoc(es[..i], e, k, n, h);
      assert es[..i + 1] == es[..i] + [e];
      assert SetRaw([e][1..], k, n, h) == [];
      if e.kind == k && e.name == n {
        if h.H? { out := out + [Entry(k, n, h)]; }
        replaced := true;
      } else {
        out := out + [e];
      }
    }
    assert es[..|es|] == es;
    if !replaced && h.H? { out := out + [Entry(k, n, h)]; }
    assert out == Amended(es, k, n, h);
    r := Sorting.Sort(EntryLe, out);
  }

  /** Every entry of the rewritten node is an untouched old one or the new one. */
  lemma {:induction false} SetRawMembers(es: Entries, k: Kind, n: string, h: Hash, e: Entry<Hash>)
    ensures e in SetRaw(es, k, n, h) <==>
              (e in es && !HasKey(e, k, n)) || (h.H? && e == Entry(k, n, h) && Scan(es, k, n).Some?)
    decreases |es|
  {
    if es != [] {
      SetRawMembers(es[1..], k, n, h, e);
      assert es == [es[0]] + es[1..];
    }
  }

  lemma PutMembers(es: Entries, k: Kind, n: string, h: Hash, e: Entry<Hash>)
    ensures e in Put(es, k, n, h) <==>
              (e in es && !HasKey(e, k, n)) || (h.H? && e == Entry(k, n, h))
  {
    SetRawMembers(es, k, n, h, e);
    Sorting.SortPermutes(EntryLe, Amended(es, k, n, h));
  }

  lemma {:induction false} FindNonZero(t: Entries, k: Kind, n: string, i: nat)
    requires i < |t| && HasKey(t[i], k, n)
    requires forall e :: e in t && HasKey(e, k, n) ==> e.hash.H?
    ensures Find(t, k, n) != Zero
    decreases |t|
  {
    if !HasKey(t[0], k, n) { FindNonZero(t[1..], k, n, i - 1); }
  }

  /** Lookup at the key just written. */
  lemma PutFindSame(es: Entries, k: Kind, n: string, h: Hash)
    ensures Find(Put(es, k, n, h), k, n) == h
  {
    var t := Put(es, k, n, h);
    forall e: Entry<Hash> | e in t && HasKey(e, k, n) ensures e.hash.H? && e.hash == h { PutMembers(es, k, n, h, e); }
    if Find(t, k, n) != Zero {
      var i := FindIndex(t, k, n);
    } else if h.H? {
      PutMembers(es, k, n, h, Entry(k, n, h));
      var i :| 0 <= i < |t| && t[i] == Entry(k, n, h);
      FindNonZero(t, k, n, i);
    }
  }

  lemma FindMember(es: Entries, k: Kind, n: string, x: Hash)
    requires Strict(es) && x.H?
    ensures Find(es, k, n) == x <==> Entry(k, n, x) in es
  {
    if Find(es, k, n) == x {
      var i := FindIndex(es, k, n);
    }
    if Entry(k, n, x) in es {
      var i :| 0 <= i < |es| && es[i] == Entry(k, n, x);
      FindAtIndex(es, i);
    }
  }

  lemma {:induction false} SetRawStrict(es: Entries, k: Kind, n: string, h: Hash)
    requires Strict(es)
    ensures Strict(SetRaw(es, k, n, h))
    decreases |es|
  {
    if es != [] {
      var t := SetRaw(es[1..], k, n, h);
      SetRawStrict(es[1..], k, n, h);
      forall i | 0 <= i < |t| ensures Below(es[0], t[i]) {
        SetRawMembers(es[1..], k, n, h, t[i]);
        if t[i] !in es[1..] {
          ScanIsFind(es[1..], k, n);
        }
      }
    }
  }

  lemma PutStrict(es: Entries, k: Kind, n: string, h: Hash)
    requires Strict(es)
    ensures Strict(Put(es, k, n, h))
  {
    var raw, all := SetRaw(es, k, n, h), Amended(es, k, n, h);
    SetRawStrict(es, k, n, h);
    forall i, j | 0 <= i < j < |all| ensures !SameKey(all[i], all[j]) {
      if j < |raw| {
        assert Below(raw[i], raw[j]);
        KeyLessOrder(raw[i].kind, raw[i].name, raw[j].kind, raw[j].name, k, n);
      } else {
        SetRawMembers(es, k, n, h, raw[i]);
      }
    }
    SortStrict(all);
  }

  /** Lookup at every other key. */
  lemma PutFindOther(es: Entries, k: Kind, n: string, h: Hash, k': Kind, n': string)
    requires Strict(es) && !(k == k' && n == n')
    ensures Find(Put(es, k, n, h), k', n') == Find(es, k', n')
  {
    var t := Put(es, k, n, h);
    PutStrict(es, k, n, h);
    var x, y := Find(es, k', n'), Find(t, k', n');
    PutMembers(es, k, n, h, Entry(k', n', x));
    PutMembers(es, k, n, h, Entry(k', n', y));
    if x.H? {
      FindMember(es, k', n', x);
      FindMember(t, k', n', x);
    }
    if y.H? {
      FindMember(es, k', n', y);
      FindMember(t, k', n', y);
    }
  }

  // ---------- UpdateTree ----------

  /** A node's hash as its parent stores it: an emptied node is dropped. */
  function Link(es: Entries): Hash {
    if es == [] then Zero else H(Tree(es))
  }

  /** The rewritten node at `h` after setting (path, rr) below it to `leaf`. */
  function NewEnts(h: Hash, path: seq<string>, rr: string, leaf: Hash): Entries
    decreases |path|
  {
    if path == [] then Put(Ents(h), Leaf, rr, leaf)
    else
      var child := NewEnts(Find(Ents(h), Subtree, path[0]), path[1..], rr, leaf);
      Put(Ents(h), Subtree, path[0], Link(child))
  }

  /** The new root: written even when it became empty. */
  function Update(root: Hash, path: seq<string>, rr: string, leaf: Hash): Hash {
    H(Tree(NewEnts(root, path, rr, leaf)))
  }

  /** The tree objects on the spine from `h` along `path`. */
  function SpineObjs(h: Hash, path: seq<string>): (m: Objs)
    ensures forall x :: x in m ==> x.H? && m[x] == x.obj
    decreases |path|
  {
    if h.Zero? then map[]
    else map[h := h.obj] + (if path == [] then map[] else SpineObjs(Find(Ents(h), Subtree, path[0]), path[1..]))
  }

  lemma {:induction false} SubNodeSnoc(h: Hash, path: seq<string>, n: string)
    ensures SubNode(h, path + [n]) == Find(Ents(SubNode(h, path)), Subtree, n)
    decreases |path|
  {
    if path == [] {
      assert ([] + [n])[1..] == [];
    } else {
      assert (path + [n])[1..] == path[1..] + [n];
      SubNodeSnoc(Find(Ents(h), Subtree, path[0]), path[1..], n);
    }
  }

  lemma {:induction false} CanonSubNode(h: Hash, path: seq<string>)
    requires CanonRoot(h)
    ensures CanonRoot(SubNode(h, path))
    ensures path != [] && SubNode(h, path).H? ==> Ents(SubNode(h, path)) != []
    decreases |path|
  {
    if path != [] {
      CanonFind(Ents(h), path[0]);
      CanonSubNode(Find(Ents(h), Subtree, path[0]), path[1..]);
    }
  }

  lemma SortIdempotent(es: Entries)
    ensures Sorting.Sort(EntryLe, Sorting.Sort(EntryLe, es)) == Sorting.Sort(EntryLe, es)
  {
    EntryLePreorder<Hash>();
    Sorting.SortSorts(EntryLe, es);
    Sorting.SortOfSorted(EntryLe, Sorting.Sort(EntryLe, es));
  }

  predicate NamesOk(path: seq<string>, rr: string) {
    ValidName(rr) && forall i :: 0 <= i < |path| ==> ValidName(path[i])
  }

  lemma CanonPut(es: Entries, k: Kind, n: string, h: Hash)
    requires CanonE(es)
    requires h.H? ==> ValidName(n)
    requires h.H? && k.Subtree? ==> h.obj.Tree? && h.obj.entries != [] && CanonE(h.obj.entries)
    ensures CanonE(Put(es, k, n, h))
  {
    var t := Put(es, k, n, h);
    PutStrict(es, k, n, h);
    forall i | 0 <= i < |t|
      ensures ValidName(t[i].name) && t[i].hash.H?
      ensures t[i].kind.Subtree? ==> t[i].hash.obj.Tree? && t[i].hash.obj.entries != [] && CanonE(t[i].hash.obj.entries)
    {
      PutMembers(es, k, n, h, t[i]);
    }
  }

  lemma {:induction false} RemoveFromNothing(path: seq<string>, rr: string)
    ensures NewEnts(Zero, path, rr, Zero) == []
    decreases |path|
  {
    if path != [] { RemoveFromNothing(path[1..], rr); }
  }

  /** The tree invariant survives an update. */
  lemma {:induction false} UpdateCanon(h: Hash, path: seq<string>, rr: string, leaf: Hash)
    requires CanonRoot(h)
    requires leaf.H? ==> NamesOk(path, rr)
    ensures CanonE(NewEnts(h, path, rr, leaf))
    ensures CanonRoot(Update(h, path, rr, leaf))
    decreases |path|
  {
    if path == [] {
      CanonPut(Ents(h), Leaf, rr, leaf);
    } else {
      var c := Find(Ents(h), Subtree, path[0]);
      CanonFind(Ents(h), path[0]);
      UpdateCanon(c, path[1..], rr, leaf);
      if leaf.Zero? && c.Zero? {
        RemoveFromNothing(path[1..], rr);
      } else if leaf.Zero? {
        var i := FindIndex(Ents(h), Subtree, path[0]);
      }
      CanonPut(Ents(h), Subtree, path[0], Link(NewEnts(c, path[1..], rr, leaf)));
    }
  }

  /** An update changes the flat map at its own key and nowhere else. */
  lemma {:induction false} UpdateAt(h: Hash, path: seq<string>, rr: string, leaf: Hash, path': seq<string>, rr': string)
    requires CanonRoot(h)
    ensures At(Update(h, path, rr, leaf), path', rr') ==
            if path' == path && rr' == rr then leaf else At(h, path', rr')
    decreases |path|
  {
    var es := Ents(h);
    if path == [] {
      PutFindSame(es, Leaf, rr, leaf);
      if FirstKind(path') == Leaf && FirstName(path', rr') == rr {
      } else {
        PutFindOther(es, Leaf, rr, leaf, FirstKind(path'), FirstName(path', rr'));
      }
    } else {
      var c := Find(es, Subtree, path[0]);
      CanonFind(es, path[0]);
      var x := Link(NewEnts(c, path[1..], rr, leaf));
      PutFindSame(es, Subtree, path[0], x);
      if path' != [] && path'[0] == path[0] {
        UpdateAt(c, path[1..], rr, leaf, path'[1..], rr');
        assert path' == path <==> path'[1..] == path[1..] by {
          assert path' == [path'[0]] + path'[1..] && path == [path[0]] + path[1..];
        }
      } else {
        PutFindOther(es, Subtree, path[0], x, FirstKind(path'), FirstName(path', rr'));
      }
    }
  }

  /** Names the PutTree validation rejects anywhere along the new spine. */
  lemma {:induction false} UpdateNeedsNames(h: Hash, path: seq<string>, rr: string, leaf: Hash, i: nat)
    requires leaf.H? && i <= |path|
    ensures i < |path| ==> exists e :: e in NewEnts(SubNode(h, path[..i]), path[i..], rr, leaf) && e.name == path[i]
    ensures i == |path| ==> exists e :: e in NewEnts(SubNode(h, path[..i]), path[i..], rr, leaf) && e.name == rr
    decreases |path| - i
  {
    var d := SubNode(h, path[..i]);
    if i == |path| {
      PutMembers(Ents(d), Leaf, rr, leaf, Entry(Leaf, rr, leaf));
    } else {
      UpdateNeedsNames(h, path, rr, leaf, i + 1);
      SubNodeSnoc(h, path[..i], path[i]);
      assert path[..i + 1] == path[..i] + [path[i]] && path[i..][1..] == path[i + 1..];
      var x := Link(NewEnts(SubNode(h, path[..i + 1]), path[i + 1..], rr, leaf));
      PutMembers(Ents(d), Subtree, path[i], x, Entry(Subtree, path[i], x));
    }
  }

  /** The rewritten node at depth `i` of the spine. */
  function Level(root: Hash, path: seq<string>, rr: string, leaf: Hash, i: nat): Entries
    requires i <= |path|
  {
    NewEnts(SubNode(root, path[..i]), path[i..], rr, leaf)
  }

  lemma LevelBottom(root: Hash, path: seq<string>, rr: string, leaf: Hash)
    ensures Level(root, path, rr, leaf, |path|) == Put(Ents(SubNode(root, path)), Leaf, rr, leaf)
    ensures Level(root, path, rr, leaf, 0) == NewEnts(root, path, rr, leaf)
  {
    assert path[..|path|] == path && path[|path|..] == [] && path[..0] == [] && path[0..] == path;
  }

  /** How one level of the spine is built from the one below it. */
  lemma LevelStep(root: Hash, path: seq<string>, rr: string, leaf: Hash, i: nat)
    requires i < |path|
    ensures
      var es, below := Level(root, path, rr, leaf, i), Link(Level(root, path, rr, leaf, i + 1));
      && es == Put(Ents(SubNode(root, path[..i])), Subtree, path[i], below)
      && Find(es, Subtree, path[i]) == below
  {
    SubNodeSnoc(root, path[..i], path[i]);
    assert path[..i + 1] == path[..i] + [path[i]];
    assert path[i..][1..] == path[i + 1..] && path[i..][0] == path[i];
    PutFindSame(Ents(SubNode(root, path[..i])), Subtree, path[i], Link(Level(root, path, rr, leaf, i + 1)));
  }

  lemma LevelSorted(root: Hash, path: seq<string>, rr: string, leaf: Hash, i: nat)
    requires i <= |path|
    ensures Sorting.Sort(EntryLe, Level(root, path, rr, leaf, i)) == Level(root, path, rr, leaf, i)
  {
    if i < |path| {
      LevelStep(root, path, rr, leaf, i);
      var child := Link(Level(root, path, rr, leaf, i + 1));
      SortIdempotent(Amended(Ents(SubNode(root, path[..i])), Subtree, path[i], child));
    } else {
      LevelBottom(root, path, rr, leaf);
      SortIdempotent(Amended(Ents(SubNode(root, path)), Leaf, rr, leaf));
    }
  }

  lemma LevelNamed(root: Hash, path: seq<string>, rr: string, leaf: Hash, i: nat)
    requires i <= |path| && CanonRoot(root) && (leaf.H? ==> NamesOk(path, rr))
    ensures AllNamed(Level(root, path, rr, leaf, i))
  {
    CanonSubNode(root, path[..i]);
    UpdateCanon(SubNode(root, path[..i]), path[i..], rr, leaf);
  }

  /** The j-th list of a chain is the loaded node at that depth. */
  ghost predicate LoadedAt(objs: Objs, root: Hash, path: seq<string>, chain: seq<Entries>, j: nat)
    requires j <= |path| && j < |chain|
  {
    var h := SubNode(root, path[..j]);
    chain[j] == Ents(h) && WeakSorted(chain[j]) && NodeLoads(objs, h)
  }

  /** The entry lists from the root down to the deepest label; a missing label
      contributes an empty node. */
  method LoadChain(s: Store, root: Hash, path: seq<string>) returns (chain: seq<Entries>, ok: bool)
    ensures ok ==> |chain| == |path| + 1
    ensures ok ==> forall j :: 0 <= j <= |path| ==> chain[j] == Ents(SubNode(root, path[..j]))
    ensures ok ==> SpineLoads(s.objects, root, path)
    ensures CanonRoot(root) && SpineLoads(s.objects, root, path) ==> ok
  {
    assert SubNode(root, path[..0]) == root;
    if root.Zero? {
      chain := [[]];
    } else {
      var t := LoadTree(s.objects, root);
      if t.Err? { assert !NodeLoads(s.objects, SubNode(root, path[..0])); return [], false; }
      chain := [t.value];
    }
    for k := 0 to |path|
      invariant |chain| == k + 1
      invariant forall j :: 0 <= j <= k ==> LoadedAt(s.objects, root, path, chain, j)
    {
      assert LoadedAt(s.objects, root, path, chain, k);
      var parent := chain[k];
      var e := Get(parent, Subtree, path[k]);
      ScanIsFind(parent, Subtree, path[k]);
      SubNodeSnoc(root, path[..k], path[k]);
      assert path[..k + 1] == path[..k] + [path[k]];
      if e.Some? {
        var t := LoadTree(s.objects, e.value.hash);
        if t.Err? {
          if CanonRoot(root) {
            CanonSubNode(root, path[..k]);
            assert !NodeLoads(s.objects, SubNode(root, path[..k + 1]));
          }
          return [], false;
        }
        chain := chain + [t.value];
      } else {
        chain := chain + [[]];
      }
      assert LoadedAt(s.objects, root, path, chain, k + 1);
      assert forall j :: 0 <= j <= k && LoadedAt(s.objects, root, path, chain[..k + 1], j) ==>
                           LoadedAt(s.objects, root, path, chain, j);
    }
    ok := true;
    forall j | 0 <= j <= |path|
      ensures chain[j] == Ents(SubNode(root, path[..j])) && NodeLoads(s.objects, SubNode(root, path[..j]))
    {
      assert LoadedAt(s.objects, root, path, chain, j);
    }
  }

  /** All levels of the new spine, root first. */
  ghost function Levels(root: Hash, path: seq<string>, rr: string, leaf: Hash): seq<Entries> {
    seq(|path| + 1, i requires 0 <= i <= |path| => Level(root, path, rr, leaf, i))
  }

  /** The objects a list of levels, from depth `i` down, leaves in the store. */
  function Written(lv: seq<Entries>, i: nat): (m: Objs)
    ensures forall x :: x in m ==> x.H? && m[x] == x.obj
    decreases |lv| - i
  {
    if i >= |lv| then map[]
    else if lv[i] == [] && i != 0 then Written(lv, i + 1)
    else map[H(Tree(lv[i])) := Tree(lv[i])] + Written(lv, i + 1)
  }

  lemma MapUnder(was: Objs, lower: Objs, h: Hash)
    requires h.H? && (h in lower ==> lower[h] == h.obj)
    ensures (was + lower)[h := h.obj] == was + (map[h := h.obj] + lower)
  {
  }

  /** Level j is the loaded node with its child put in place. */
  predicate RebuiltAt(lv: seq<Entries>, loaded: seq<Entries>, path: seq<string>, j: nat)
    requires |lv| == |loaded| == |path| + 1 && j < |path|
  {
    lv[j] == Put(loaded[j], Subtree, path[j], Link(lv[j + 1]))
  }

  /** Level j points at level j + 1, and is empty only if that is. */
  predicate LinkedAt(lv: seq<Entries>, path: seq<string>, j: nat)
    requires |lv| == |path| + 1 && j < |path|
  {
    (lv[j] == [] ==> lv[j + 1] == []) && Find(lv[j], Subtree, path[j]) == Link(lv[j + 1])
  }

  /** Levels chained as LevelStep says leave exactly the spine of the result. */
  lemma {:induction false} WrittenChain(lv: seq<Entries>, path: seq<string>, i: nat)
    requires |lv| == |path| + 1 && i <= |path|
    requires forall j :: 0 <= j < |path| ==> LinkedAt(lv, path, j)
    ensures Written(lv, i) == SpineObjs(if i == 0 then H(Tree(lv[0])) else Link(lv[i]), path[i..])
    decreases |path| - i
  {
    if i < |path| {
      WrittenChain(lv, path, i + 1);
      assert LinkedAt(lv, path, i);
      assert path[i..][1..] == path[i + 1..] && path[i..][0] == path[i];
      assert Written(lv, i + 1) == SpineObjs(Link(lv[i + 1]), path[i + 1..]);
    } else {
      assert Written(lv, i + 1) == map[];
    }
  }

  /** Writes one node, or drops it when it is empty and not the root. */
  method WriteNode(s: Store, t: Entries, isRoot: bool) returns (r: Result<Hash>)
    requires Sorting.Sort(EntryLe, t) == t
    modifies s`objects
    ensures r.Ok? <==> AllNamed(t)
    ensures r.Ok? ==> r.value == if isRoot then H(Tree(t)) else Link(t)
    ensures s.objects == if r.Ok? && r.value.H? then old(s.objects)[r.value := r.value.obj] else old(s.objects)
  {
    if t == [] && !isRoot { return Ok(Zero); }
    r := PutTree(s, t);
  }

  /** All names from level i down are valid. */
  predicate NamedFrom(lv: seq<Entries>, i: nat) {
    forall j :: i <= j < |lv| ==> AllNamed(lv[j])
  }

  /** The level above i has been rebuilt, those above it are as loaded. */
  predicate Pending(chain: seq<Entries>, loaded: seq<Entries>, lv: seq<Entries>, i: nat)
    requires i <= |chain| == |loaded| == |lv|
  {
    i > 0 ==> chain[i - 1] == lv[i - 1] && forall j :: 0 <= j < i - 1 ==> chain[j] == loaded[j]
  }

  ghost predicate SortedLevels(lv: seq<Entries>) {
    forall j :: 0 <= j < |lv| ==> Sorting.Sort(EntryLe, lv[j]) == lv[j]
  }

  /** One turn of the backward loop: level i on top of those below it. */
  method WriteLevel(s: Store, t: Entries, i: nat, ghost lv: seq<Entries>, ghost was: Objs) returns (r: Result<Hash>)
    requires i < |lv| && t == lv[i] && SortedLevels(lv) && NamedFrom(lv, i + 1)
    requires s.objects == was + Written(lv, i + 1)
    modifies s`objects
    ensures r.Ok? <==> NamedFrom(lv, i)
    ensures r.Ok? ==> r.value == if i == 0 then H(Tree(lv[0])) else Link(lv[i])
    ensures s.objects == was + Written(lv, if r.Ok? then i else i + 1)
  {
    r := WriteNode(s, t, i == 0);
    if r.Ok? && r.value.H? { MapUnder(was, Written(lv, i + 1), r.value); }
  }

  /** The backward loop: writes each level and points its parent at it. */
  method WriteSpine(s: Store, path: seq<string>, loaded: seq<Entries>, ghost lv: seq<Entries>) returns (r: Result<Hash>)
    requires |loaded| == |lv| == |path| + 1
    requires loaded[|path|] == lv[|path|]
    requires forall j :: 0 <= j < |path| ==> RebuiltAt(lv, loaded, path, j)
    requires SortedLevels(lv)
    modifies s`objects
    ensures r.Ok? <==> NamedFrom(lv, 0)
    ensures r.Ok? ==> r.value == H(Tree(lv[0])) && s.objects == old(s.objects) + Written(lv, 0)
    ensures Grows(old(s.objects), s.objects)
  {
    var chain := loaded;
    var lastHash := Zero;
    var i := |chain|;
    while i > 0
      invariant 0 <= i <= |chain| == |path| + 1
      invariant Pending(chain, loaded, lv, i)
      invariant NamedFrom(lv, i)
      invariant i == 0 ==> lastHash == H(Tree(lv[0]))
      invariant s.objects == old(s.objects) + Written(lv, i)
    {
      i := i - 1;
      var p := WriteLevel(s, chain[i], i, lv, old(s.objects));
      if p.Err? {
        WrittenGrows(old(s.objects), lv, i + 1);
        return Err(InvalidObject);
      }
      lastHash := p.value;
      if i != 0 {
        assert RebuiltAt(lv, loaded, path, i - 1);
        var parent := SetEntry(chain[i - 1], Subtree, path[i - 1], lastHash);
        chain := chain[i - 1 := parent];
      }
    }
    WrittenGrows(old(s.objects), lv, 0);
    return Ok(lastHash);
  }

  lemma WrittenGrows(was: Objs, lv: seq<Entries>, i: nat)
    ensures Grows(was, was + Written(lv, i))
  {
  }

  /** Loads the chain of nodes along `path`, amends the deepest one and writes
      the spine back bottom-up. */
  method UpdateTree(s: Store, root: Hash, path: seq<string>, rr: string, leaf: Hash) returns (r: Result<Hash>)
    modifies s`objects
    ensures r.Ok? ==> r.value == Update(root, path, rr, leaf)
    ensures r.Ok? ==> s.objects == old(s.objects) + SpineObjs(r.value, path)
    ensures Grows(old(s.objects), s.objects)
    ensures CanonRoot(root) ==>
              (r.Ok? <==> SpineLoads(old(s.objects), root, path) && (leaf.H? ==> NamesOk(path, rr)))
  {
    var chain, ok := LoadChain(s, root, path);
    if !ok { return Err(NotFound); }
    LevelBottom(root, path, rr, leaf);
    assert path[..|path|] == path && path[0..] == path;
    ghost var lv := Levels(root, path, rr, leaf);
    var deepest := SetEntry(chain[|path|], Leaf, rr, leaf);
    var loaded := chain[|path| := deepest];
    forall j | 0 <= j < |path| ensures RebuiltAt(lv, loaded, path, j) && LinkedAt(lv, path, j) {
      LevelStep(root, path, rr, leaf, j);
    }
    forall j | 0 <= j <= |path| ensures Sorting.Sort(EntryLe, lv[j]) == lv[j] { LevelSorted(root, path, rr, leaf, j); }
    r := WriteSpine(s, path, loaded, lv);
    WrittenChain(lv, path, 0);
    NamesExact(root, path, rr, leaf);
  }

  /** When the validation in PutTree lets the whole new spine through. */
  lemma NamesExact(root: Hash, path: seq<string>, rr: string, leaf: Hash)
    ensures
      var named := NamedFrom(Levels(root, path, rr, leaf), 0);
      CanonRoot(root) ==> (named <==> (leaf.H? ==> NamesOk(path, rr)))
  {
    var lv := Levels(root, path, rr, leaf);
    if CanonRoot(root) && (leaf.H? ==> NamesOk(path, rr)) {
      forall j | 0 <= j <= |path| ensures AllNamed(lv[j]) { LevelNamed(root, path, rr, leaf, j); }
    }
    if leaf.H? && forall j :: 0 <= j <= |path| ==> AllNamed(lv[j]) {
      forall j | 0 <= j < |path| ensures ValidName(path[j]) {
        UpdateNeedsNames(root, path, rr, leaf, j);
        assert AllNamed(lv[j]);
      }
      UpdateNeedsNames(root, path, rr, leaf, |path|);
      assert AllNamed(lv[|path|]);
    }
  }

  lemma PutClosed(objs: Objs, es: Entries, k: Kind, n: string, x: Hash)
    requires ClosedE(objs, es)
    requires k.Subtree? && x.H? ==> RootIn(objs, x)
    ensures ClosedE(objs, Put(es, k, n, x))
  {
    var t := Put(es, k, n, x);
    forall i | 0 <= i < |t| && t[i].kind.Subtree?
      ensures LoadTree(objs, t[i].hash).Ok? && t[i].hash.H? && t[i].hash.obj.Tree?
      ensures ClosedE(objs, t[i].hash.obj.entries)
    {
      PutMembers(es, k, n, x, t[i]);
      if t[i] in es {
        var j :| 0 <= j < |es| && es[j] == t[i];
      }
    }
  }

  /** After an update the whole new tree is loadable. */
  lemma {:induction false} UpdateRootIn(was: Objs, now: Objs, h: Hash, path: seq<string>, rr: string, leaf: Hash)
    requires RootIn(was, h) && CanonRoot(h) && (leaf.H? ==> NamesOk(path, rr))
    requires Keeps(was, now)
    requires forall x :: x in SpineObjs(Update(h, path, rr, leaf), path) ==> Holds(now, x)
    ensures RootIn(now, Update(h, path, rr, leaf))
    decreases |path|
  {
    RootKept(was, now, h);
    if path == [] {
      PutClosed(now, Ents(h), Leaf, rr, leaf);
    } else {
      UpdateChildIn(was, now, h, path, rr, leaf);
      var c := Find(Ents(h), Subtree, path[0]);
      PutClosed(now, Ents(h), Subtree, path[0], Link(NewEnts(c, path[1..], rr, leaf)));
    }
    UpdateCanon(h, path, rr, leaf);
    AcceptedIffStrict(NewEnts(h, path, rr, leaf));
    assert Holds(now, Update(h, path, rr, leaf));
  }

  lemma {:induction false} UpdateChildIn(was: Objs, now: Objs, h: Hash, path: seq<string>, rr: string, leaf: Hash)
    requires RootIn(was, h) && CanonRoot(h) && (leaf.H? ==> NamesOk(path, rr)) && path != []
    requires Keeps(was, now)
    requires forall x :: x in SpineObjs(Update(h, path, rr, leaf), path) ==> Holds(now, x)
    ensures RootIn(now, Link(NewEnts(Find(Ents(h), Subtree, path[0]), path[1..], rr, leaf)))
    decreases |path|, 0
  {
    var c := Find(Ents(h), Subtree, path[0]);
    var x := Link(NewEnts(c, path[1..], rr, leaf));
    PutFindSame(Ents(h), Subtree, path[0], x);
    if x.H? {
      CanonFind(Ents(h), path[0]);
      RootChild(was, h, path[0]);
      forall y | y in SpineObjs(x, path[1..]) ensures Holds(now, y) {
        assert y in SpineObjs(Update(h, path, rr, leaf), path);
      }
      UpdateRootIn(was, now, c, path[1..], rr, leaf);
    }
  }
}
