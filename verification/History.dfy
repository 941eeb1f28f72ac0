/** The two-way tree diff (pkg/history/diff.go). */
module History {
  import opened Objects
  import opened Ordering
  import opened MemStore
  import opened TreeOps
  import opened Cursors
  import opened Canonical
  import opened Sequences
  import Names
  import Sorting

  datatype Op = Added | Removed | Modified

  datatype Change = Change(path: seq<string>, rr: string, op: Op, oldBlob: Hash, newBlob: Hash)

  function OpOf(x: Hash, y: Hash): Op {
    if x.Zero? then Added else if y.Zero? then Removed else Modified
  }

  function MkChange(path: seq<string>, rr: string, x: Hash, y: Hash): Change {
    Change(path, rr, OpOf(x, y), x, y)
  }

  // ---------- the walk as a function ----------

  /** The smaller of the two pending keys. */
  function NextEntry(oa: Entries, na: Entries): Entry<Hash>
    requires oa != [] || na != []
  {
    if oa == [] then na[0]
    else if na == [] then oa[0]
    else if Below(na[0], oa[0]) then na[0] else oa[0]
  }

  lemma NextIsLeast(oa: Entries, na: Entries)
    requires oa != [] || na != []
    ensures
      var e := NextEntry(oa, na);
      && NotPast(oa, e.kind, e.name) && NotPast(na, e.kind, e.name)
      && ((oa != [] && HasKey(oa[0], e.kind, e.name)) || (na != [] && HasKey(na[0], e.kind, e.name)))
  {
    var e := NextEntry(oa, na);
    KeyLessOrder(e.kind, e.name, e.kind, e.name, e.kind, e.name);
    if oa != [] && na != [] {
      KeyLessOrder(oa[0].kind, oa[0].name, na[0].kind, na[0].name, e.kind, e.name);
      KeyLessOrder(na[0].kind, na[0].name, oa[0].kind, oa[0].name, e.kind, e.name);
    }
  }

  /** Changes at or below one key whose two sides are `x` and `y`. */
  function KeyChanges(path: seq<string>, k: Kind, n: string, x: Hash, y: Hash): seq<Change>
    decreases Weight(Ents(x)) + Weight(Ents(y)), 1
  {
    if x == y then []
    else if k.Leaf? then [MkChange(path, n, x, y)]
    else Changes(path + [n], Ents(x), Ents(y))
  }

  /** The changes between two entry lists, in walk order. */
  function Changes(path: seq<string>, oa: Entries, na: Entries): seq<Change>
    decreases Weight(oa) + Weight(na), 0
  {
    if oa == [] && na == [] then []
    else
      var e := NextEntry(oa, na);
      NextIsLeast(oa, na);
      AdvanceWeight(oa, e.kind, e.name);
      AdvanceWeight(na, e.kind, e.name);
      KeyChanges(path, e.kind, e.name, HeadHash(oa, e.kind, e.name), HeadHash(na, e.kind, e.name))
      + Changes(path, Advance(oa, e.kind, e.name), Advance(na, e.kind, e.name))
  }

  // ---------- exactness ----------

  /** `c` records a key below `path` whose values differ, with both values. */
  predicate IsChange(c: Change, path: seq<string>, oa: Entries, na: Entries) {
    && path <= c.path
    && var p := c.path[|path|..];
       var x, y := AtE(oa, p, c.rr), AtE(na, p, c.rr);
       x != y && c == MkChange(c.path, c.rr, x, y)
  }

  predicate KeyHit(c: Change, path: seq<string>, k: Kind, n: string) {
    && path <= c.path
    && FirstKind(c.path[|path|..]) == k && FirstName(c.path[|path|..], c.rr) == n
  }

  lemma {:induction false} KeyChangesExact(path: seq<string>, k: Kind, n: string, x: Hash, y: Hash, c: Change)
    requires k.Subtree? ==> CanonRoot(x) && CanonRoot(y)
    ensures c in KeyChanges(path, k, n, x, y) <==>
              && KeyHit(c, path, k, n)
              && var u, v := Down(x, c.path[|path|..], c.rr), Down(y, c.path[|path|..], c.rr);
                 u != v && c == MkChange(c.path, c.rr, u, v)
    decreases Weight(Ents(x)) + Weight(Ents(y)), 1
  {
    if x != y {
      if k.Leaf? {
        assert c.path == path <==> path <= c.path && c.path[|path|..] == [];
      } else {
        ChangesExact(path + [n], Ents(x), Ents(y), c);
        if path <= c.path {
          var p := c.path[|path|..];
          assert c.path == path + p;
          assert path + [n] <= c.path <==> p != [] && p[0] == n;
          if p != [] && p[0] == n { assert p[1..] == c.path[|path + [n]|..]; }
        }
      }
    }
  }

  /** The list holds exactly the differing keys, with the right sides. */
  lemma {:induction false} ChangesExact(path: seq<string>, oa: Entries, na: Entries, c: Change)
    requires CanonE(oa) && CanonE(na)
    ensures c in Changes(path, oa, na) <==> IsChange(c, path, oa, na)
    decreases Weight(oa) + Weight(na), 0
  {
    if oa == [] && na == [] {
      if path <= c.path { AtENothing(c.path[|path|..], c.rr); }
    } else {
      var e := NextEntry(oa, na);
      var k, n := e.kind, e.name;
      NextIsLeast(oa, na);
      AdvanceWeight(oa, k, n);
      AdvanceWeight(na, k, n);
      CursorCanon(oa, k, n);
      CursorCanon(na, k, n);
      KeyChangesExact(path, k, n, HeadHash(oa, k, n), HeadHash(na, k, n), c);
      ChangesExact(path, Advance(oa, k, n), Advance(na, k, n), c);
      if path <= c.path {
        CursorAt(oa, k, n, c.path[|path|..], c.rr);
        CursorAt(na, k, n, c.path[|path|..], c.rr);
      }
    }
  }

  predicate SameKey(c: Change, d: Change) {
    c.path == d.path && c.rr == d.rr
  }

  ghost predicate DistinctChanges(cs: seq<Change>) {
    Sorting.Apart(SameKey, cs)
  }

  lemma {:induction false} ChangesDistinct(path: seq<string>, oa: Entries, na: Entries)
    requires CanonE(oa) && CanonE(na)
    ensures DistinctChanges(Changes(path, oa, na))
    decreases Weight(oa) + Weight(na)
  {
    if oa != [] || na != [] {
      var e := NextEntry(oa, na);
      var k, n := e.kind, e.name;
      NextIsLeast(oa, na);
      AdvanceWeight(oa, k, n);
      AdvanceWeight(na, k, n);
      CursorCanon(oa, k, n);
      CursorCanon(na, k, n);
      var x, y := HeadHash(oa, k, n), HeadHash(na, k, n);
      var first, rest := KeyChanges(path, k, n, x, y), Changes(path, Advance(oa, k, n), Advance(na, k, n));
      if k.Subtree? { ChangesDistinct(path + [n], Ents(x), Ents(y)); }
      ChangesDistinct(path, Advance(oa, k, n), Advance(na, k, n));
      forall c, d | c in first && d in rest ensures !SameKey(c, d) {
        KeyChangesExact(path, k, n, x, y, c);
        ChangesExact(path, Advance(oa, k, n), Advance(na, k, n), d);
        CursorAt(oa, k, n, d.path[|path|..], d.rr);
        CursorAt(na, k, n, d.path[|path|..], d.rr);
      }
    }
  }

  // ---------- output order ----------

  function FQDN(path: seq<string>): string {
    if path == [] then "@" else Names.JoinDots(path)
  }

  /** The order of two (name, type) pairs. */
  predicate NameTypeLe(f1: string, t1: string, f2: string, t2: string) {
    if f1 != f2 then StrLess(f1, f2) else StrLeq(t1, t2)
  }

  lemma NameTypeOrder(f1: string, t1: string, f2: string, t2: string, f3: string, t3: string)
    ensures NameTypeLe(f1, t1, f2, t2) || NameTypeLe(f2, t2, f1, t1)
    ensures NameTypeLe(f1, t1, f2, t2) && NameTypeLe(f2, t2, f3, t3) ==> NameTypeLe(f1, t1, f3, t3)
    ensures NameTypeLe(f1, t1, f2, t2) && NameTypeLe(f2, t2, f1, t1) ==> f1 == f2 && t1 == t2
  {
    StrLessTotal(f1, f2);
    StrLessTotal(t1, t2);
    if StrLess(f1, f2) {
      StrLessAsymmetric(f1, f2);
      if StrLess(f2, f3) { StrLessTransitive(f1, f2, f3); StrLessIrreflexive(f1); StrLessAsymmetric(f2, f3); }
    }
    if StrLess(t1, t2) {
      StrLessAsymmetric(t1, t2);
      if StrLess(t2, t3) { StrLessTransitive(t1, t2, t3); }
    }
  }

  predicate ChangeLe(a: Change, b: Change) {
    NameTypeLe(FQDN(a.path), a.rr, FQDN(b.path), b.rr)
  }

  lemma ChangeLePreorder()
    ensures Sorting.TotalPreorder(ChangeLe)
  {
    forall a, b ensures ChangeLe(a, b) || ChangeLe(b, a) {
      NameTypeOrder(FQDN(a.path), a.rr, FQDN(b.path), b.rr, "", "");
    }
    forall a, b, c | ChangeLe(a, b) && ChangeLe(b, c) ensures ChangeLe(a, c) {
      NameTypeOrder(FQDN(a.path), a.rr, FQDN(b.path), b.rr, FQDN(c.path), c.rr);
    }
  }

  /** What Diff returns. */
  function DiffList(a: Hash, b: Hash): seq<Change> {
    if a == b then [] else Sorting.Sort(ChangeLe, Changes([], Ents(a), Ents(b)))
  }

  lemma DiffMembers(a: Hash, b: Hash)
    requires CanonRoot(a) && CanonRoot(b)
    ensures forall c: Change :: c in DiffList(a, b) <==>
              && At(a, c.path, c.rr) != At(b, c.path, c.rr)
              && c == MkChange(c.path, c.rr, At(a, c.path, c.rr), At(b, c.path, c.rr))
    ensures DistinctChanges(DiffList(a, b))
    ensures Sorting.SortedBy(ChangeLe, DiffList(a, b))
  {
    ChangeLePreorder();
    var cs := Changes([], Ents(a), Ents(b));
    Sorting.SortSorts(ChangeLe, cs);
    Sorting.SortPermutes(ChangeLe, cs);
    ChangesDistinct([], Ents(a), Ents(b));
    Sorting.SortApart(ChangeLe, SameKey, cs);
    forall c: Change
      ensures c in DiffList(a, b) <==>
              && At(a, c.path, c.rr) != At(b, c.path, c.rr)
              && c == MkChange(c.path, c.rr, At(a, c.path, c.rr), At(b, c.path, c.rr))
    {
      ChangesExact([], Ents(a), Ents(b), c);
      assert c.path[0..] == c.path;
    }
  }

  /** The two-way diff: one change for each key whose values differ, carrying
      the two values; it is an addition exactly where there was none before, a
      removal exactly where there is none after, and a modification otherwise.
      Skipping hash-equal subtrees hides nothing. */
  lemma DiffExact(a: Hash, b: Hash)
    requires CanonRoot(a) && CanonRoot(b)
    ensures forall c: Change :: c in DiffList(a, b) <==>
              && c.oldBlob == At(a, c.path, c.rr) && c.newBlob == At(b, c.path, c.rr) && c.oldBlob != c.newBlob
              && (c.op == Added <==> c.oldBlob == Zero) && (c.op == Removed <==> c.newBlob == Zero)
    ensures forall c, d :: c in DiffList(a, b) && d in DiffList(a, b) && c.path == d.path && c.rr == d.rr ==> c == d
    ensures forall i, j :: 0 <= i < j < |DiffList(a, b)| ==> DiffList(a, b)[i] != DiffList(a, b)[j]
    ensures forall i, j :: 0 <= i < j < |DiffList(a, b)| ==>
              var x, y := DiffList(a, b)[i], DiffList(a, b)[j];
              StrLess(FQDN(x.path), FQDN(y.path)) || (FQDN(x.path) == FQDN(y.path) && StrLeq(x.rr, y.rr))
  {
    DiffMembers(a, b);
    forall i, j | 0 <= i < j < |DiffList(a, b)| ensures DiffList(a, b)[i] != DiffList(a, b)[j] {
      assert !SameKey(DiffList(a, b)[i], DiffList(a, b)[j]);
    }
  }

  // ---------- the walk over a store ----------

  lemma OnlyUnfold(path: seq<string>, es: Entries, removed: bool)
    requires es != []
    ensures
      var e := es[0];
      OnlySide(path, es, removed) == EntryChanges(path, e, removed) + OnlySide(path, es[1..], removed)
  {
    KeyLessOrder(es[0].kind, es[0].name, es[0].kind, es[0].name, es[0].kind, es[0].name);
  }

  /** The changes when all of `es` is present on one side only. */
  function OnlySide(path: seq<string>, es: Entries, removed: bool): seq<Change> {
    if removed then Changes(path, es, []) else Changes(path, [], es)
  }

  function EntryChanges(path: seq<string>, e: Entry<Hash>, removed: bool): seq<Change> {
    if removed then KeyChanges(path, e.kind, e.name, e.hash, Zero) else KeyChanges(path, e.kind, e.name, Zero, e.hash)
  }

  /** Records an entry present on one side only, enumerating a subtree. */
  method EmitOnlySide(s: Store, path: seq<string>, e: Entry<Hash>, removed: bool, acc: seq<Change>)
      returns (r: Result<seq<Change>>)
    requires e.hash.H? && (e.kind.Subtree? ==> CanonRoot(e.hash))
    ensures r.Ok? ==> r.value == acc + EntryChanges(path, e, removed)
    ensures e.kind.Leaf? || RootIn(s.objects, e.hash) ==> r.Ok?
    decreases e.hash
  {
    if e.kind.Leaf? {
      var ch := if removed then Change(path, e.name, Removed, e.hash, Zero)
                else Change(path, e.name, Added, Zero, e.hash);
      return Ok(acc + [ch]);
    }
    var t := LoadTree(s.objects, e.hash);
    if t.Err? { return Err(t.error); }
    var es := t.value;
    var sub := path + [e.name];
    var out := acc;
    assert es[0..] == es;
    for i := 0 to |es|
      invariant out + OnlySide(sub, es[i..], removed) == acc + OnlySide(sub, es, removed)
    {
      var child := es[i];
      assert child in es;
      OnlyUnfold(sub, es[i..], removed);
      assert es[i..][1..] == es[i + 1..];
      ghost var before := out;
      var more := EmitOnlySide(s, sub, child, removed, out);
      if more.Err? { return more; }
      out := more.value;
      ConcatAssoc(before, EntryChanges(sub, child, removed), OnlySide(sub, es[i + 1..], removed));
    }
    assert es[|es|..] == [] && out + [] == out;
    return Ok(out);
  }

  /** The changes between two trees that may share their hash. */
  function TreeChanges(path: seq<string>, x: Hash, y: Hash): seq<Change> {
    if x == y then [] else Changes(path, Ents(x), Ents(y))
  }

  function LoadOrEmpty(objs: Objs, h: Hash): (r: Result<Entries>)
    ensures r.Ok? ==> r.value == Ents(h)
    ensures RootIn(objs, h) ==> r.Ok?
  {
    if h.Zero? then Ok([]) else LoadTree(objs, h)
  }

  /** Entries on a cursor are canonical and their subtrees loadable. */
  lemma CursorReady(objs: Objs, es: Entries, k: Kind, n: string)
    requires CanonE(es)
    ensures CanonE(Advance(es, k, n))
    ensures k.Subtree? ==> CanonRoot(HeadHash(es, k, n))
    ensures ClosedE(objs, es) ==> ClosedE(objs, Advance(es, k, n))
    ensures ClosedE(objs, es) && k.Subtree? ==> RootIn(objs, HeadHash(es, k, n))
  {
    CursorCanon(es, k, n);
  }

  lemma OldFirst(oa: Entries, na: Entries)
    requires oa != [] && (na == [] || Below(oa[0], na[0]))
    ensures NextEntry(oa, na) == oa[0]
    ensures HeadHash(na, oa[0].kind, oa[0].name) == Zero && Advance(na, oa[0].kind, oa[0].name) == na
  {
    if na != [] {
      KeyLessOrder(oa[0].kind, oa[0].name, na[0].kind, na[0].name, oa[0].kind, oa[0].name);
    }
  }

  lemma NewFirst(oa: Entries, na: Entries)
    requires na != [] && (oa == [] || Below(na[0], oa[0]))
    ensures NextEntry(oa, na) == na[0]
    ensures HeadHash(oa, na[0].kind, na[0].name) == Zero && Advance(oa, na[0].kind, na[0].name) == oa
  {
    if oa != [] {
      KeyLessOrder(na[0].kind, na[0].name, oa[0].kind, oa[0].name, na[0].kind, na[0].name);
    }
  }

  lemma BothFirst(oa: Entries, na: Entries)
    requires oa != [] && na != [] && !Below(oa[0], na[0]) && !Below(na[0], oa[0])
    ensures HasKey(na[0], oa[0].kind, oa[0].name) && NextEntry(oa, na) == oa[0]
  {
    KeyLessOrder(oa[0].kind, oa[0].name, na[0].kind, na[0].name, oa[0].kind, oa[0].name);
  }

  /** One turn of the lockstep loop: handles the smallest pending key and
      moves the cursors that hold it. */
  method DiffStep(s: Store, path: seq<string>, oa: Entries, na: Entries, acc: seq<Change>)
      returns (r: Result<seq<Change>>, oa': Entries, na': Entries)
    requires CanonE(oa) && CanonE(na) && (oa != [] || na != [])
    ensures
      var e := NextEntry(oa, na);
      && oa' == Advance(oa, e.kind, e.name) && na' == Advance(na, e.kind, e.name)
      && (r.Ok? ==>
            var x, y := HeadHash(oa, e.kind, e.name), HeadHash(na, e.kind, e.name);
            r.value == acc + KeyChanges(path, e.kind, e.name, x, y))
    ensures ClosedE(s.objects, oa) && ClosedE(s.objects, na) ==> r.Ok?
    decreases Weight(oa) + Weight(na), 0
  {
    oa', na' := oa, na;
    if na == [] || (oa != [] && Below(oa[0], na[0])) {
      OldFirst(oa, na);
      oa' := oa[1..];
      r := EmitOnlySide(s, path, oa[0], true, acc);
    } else if oa == [] || Below(na[0], oa[0]) {
      NewFirst(oa, na);
      na' := na[1..];
      r := EmitOnlySide(s, path, na[0], false, acc);
    } else {
      BothFirst(oa, na);
      oa', na' := oa[1..], na[1..];
      if oa[0].hash == na[0].hash {
        return Ok(acc), oa', na';
      } else if oa[0].kind.Leaf? {
        return Ok(acc + [Change(path, oa[0].name, Modified, oa[0].hash, na[0].hash)]), oa', na';
      }
      AdvanceWeight(oa, oa[0].kind, oa[0].name);
      AdvanceWeight(na, oa[0].kind, oa[0].name);
      r := DiffWalk(s, path + [oa[0].name], oa[0].hash, na[0].hash, acc);
    }
  }

  /** The lockstep walk: two cursors, one accumulator. */
  method DiffWalk(s: Store, path: seq<string>, oldH: Hash, newH: Hash, acc: seq<Change>)
      returns (r: Result<seq<Change>>)
    requires CanonRoot(oldH) && CanonRoot(newH)
    ensures r.Ok? ==> r.value == acc + TreeChanges(path, oldH, newH)
    ensures RootIn(s.objects, oldH) && RootIn(s.objects, newH) ==> r.Ok?
    decreases Weight(Ents(oldH)) + Weight(Ents(newH)), 1
  {
    if oldH == newH { return Ok(acc); }
    var o := LoadOrEmpty(s.objects, oldH);
    if o.Err? { return Err(o.error); }
    var n := LoadOrEmpty(s.objects, newH);
    if n.Err? { return Err(n.error); }
    var oa, na, out := o.value, n.value, acc;
    while oa != [] || na != []
      invariant CanonE(oa) && CanonE(na)
      invariant RootIn(s.objects, oldH) && RootIn(s.objects, newH) ==> ClosedE(s.objects, oa) && ClosedE(s.objects, na)
      invariant out + Changes(path, oa, na) == acc + Changes(path, Ents(oldH), Ents(newH))
      invariant Weight(oa) + Weight(na) <= Weight(Ents(oldH)) + Weight(Ents(newH))
      decreases Weight(oa) + Weight(na)
    {
      ghost var e := NextEntry(oa, na);
      NextIsLeast(oa, na);
      AdvanceWeight(oa, e.kind, e.name);
      AdvanceWeight(na, e.kind, e.name);
      CursorReady(s.objects, oa, e.kind, e.name);
      CursorReady(s.objects, na, e.kind, e.name);
      ghost var step := KeyChanges(path, e.kind, e.name, HeadHash(oa, e.kind, e.name), HeadHash(na, e.kind, e.name));
      var more, oa', na' := DiffStep(s, path, oa, na, out);
      if more.Err? { return more; }
      ConcatAssoc(out, step, Changes(path, oa', na'));
      out, oa, na := more.value, oa', na';
    }
    assert out + [] == out;
    return Ok(out);
  }

  method Diff(s: Store, oldTree: Hash, newTree: Hash) returns (r: Result<seq<Change>>)
    requires CanonRoot(oldTree) && CanonRoot(newTree)
    ensures r.Ok? ==> r.value == DiffList(oldTree, newTree)
    ensures RootIn(s.objects, oldTree) && RootIn(s.objects, newTree) ==> r.Ok?
  {
    if oldTree == newTree { return Ok([]); }
    var w := DiffWalk(s, [], oldTree, newTree, []);
    if w.Err? { return w; }
    assert w.value == Changes([], Ents(oldTree), Ents(newTree));
    return Ok(Sorting.Sort(ChangeLe, w.value));
  }

  // ---------- replaying a diff ----------

  /** The edit that carries a change out, or (inverse) takes it back. */
  function EditOf(c: Change, inverse: bool): Edit {
    Edit(c.path, c.rr, if inverse then c.oldBlob else c.newBlob)
  }

  function EditsOf(cs: seq<Change>, inverse: bool): (es: seq<Edit>)
    ensures |es| == |cs| && forall i :: 0 <= i < |cs| ==> es[i] == EditOf(cs[i], inverse)
  {
    seq(|cs|, i requires 0 <= i < |cs| => EditOf(cs[i], inverse))
  }

  /** Only well-formed names occur in a canonical tree. */
  lemma {:induction false} AtNamed(h: Hash, path: seq<string>, rr: string)
    requires CanonRoot(h) && At(h, path, rr) != Zero
    ensures NamesOk(path, rr)
    decreases |path|
  {
    if path == [] {
      var i := FindIndex(Ents(h), Leaf, rr);
    } else {
      var c := Find(Ents(h), Subtree, path[0]);
      AtENothing(path[1..], rr);
      var i := FindIndex(Ents(h), Subtree, path[0]);
      CanonFind(Ents(h), path[0]);
      AtNamed(c, path[1..], rr);
      forall j | 0 <= j < |path| ensures ValidName(path[j]) {
        if j > 0 { assert path[j] == path[1..][j - 1]; }
      }
    }
  }

  lemma ReplayEdits(a: Hash, b: Hash, cs: seq<Change>, inverse: bool)
    requires CanonRoot(a) && CanonRoot(b) && multiset(cs) == multiset(DiffList(a, b))
    ensures EditsOk(EditsOf(cs, inverse)) && DistinctEdits(EditsOf(cs, inverse))
  {
    DiffMembers(a, b);
    var es := EditsOf(cs, inverse);
    forall i | 0 <= i < |es| ensures EditOk(es[i]) {
      assert cs[i] in multiset(cs);
      if es[i].leaf.H? { AtNamed(if inverse then a else b, es[i].path, es[i].rr); }
    }
    forall i, j | 0 <= i < j < |es| ensures !(es[i].path == es[j].path && es[i].rr == es[j].rr) {
      if es[i].path == es[j].path && es[i].rr == es[j].rr {
        assert cs[i] in multiset(cs) && cs[j] in multiset(cs);
        assert cs[i] == cs[j];
        TwiceInSeq(cs, i, j);
        OnceInDistinct(DiffList(a, b), cs[i]);
      }
    }
  }

  lemma TwiceInSeq<T>(s: seq<T>, i: nat, j: nat)
    requires i < j < |s| && s[i] == s[j]
    ensures multiset(s)[s[i]] >= 2
  {
    assert s == s[..j] + s[j..];
    assert s[i] in s[..j] && s[j] in s[j..];
  }

  lemma {:induction false} OnceInDistinct(cs: seq<Change>, c: Change)
    requires DistinctChanges(cs)
    ensures multiset(cs)[c] <= 1
    decreases |cs|
  {
    if cs != [] {
      OnceInDistinct(cs[1..], c);
      assert cs == [cs[0]] + cs[1..];
      if cs[0] == c {
        assert c !in cs[1..];
        assert c !in multiset(cs[1..]);
      }
    }
  }

  lemma ChangedKeyEdited(a: Hash, b: Hash, cs: seq<Change>, inverse: bool, path: seq<string>, rr: string)
    requires CanonRoot(a) && CanonRoot(b) && multiset(cs) == multiset(DiffList(a, b))
    requires At(a, path, rr) != At(b, path, rr)
    ensures Edit(path, rr, At(if inverse then a else b, path, rr)) in EditsOf(cs, inverse)
  {
    var c := MkChange(path, rr, At(a, path, rr), At(b, path, rr));
    DiffMembers(a, b);
    assert c in DiffList(a, b);
    assert c in multiset(cs);
    var i :| 0 <= i < |cs| && cs[i] == c;
    assert EditsOf(cs, inverse)[i] == EditOf(c, inverse);
  }

  lemma EditChangesKey(a: Hash, b: Hash, cs: seq<Change>, inverse: bool, e: Edit)
    requires CanonRoot(a) && CanonRoot(b) && multiset(cs) == multiset(DiffList(a, b))
    requires e in EditsOf(cs, inverse)
    ensures At(a, e.path, e.rr) != At(b, e.path, e.rr)
  {
    var i :| 0 <= i < |cs| && EditsOf(cs, inverse)[i] == e;
    DiffMembers(a, b);
    assert cs[i] in multiset(cs);
    assert cs[i] in DiffList(a, b);
  }

  /** The value of a key after applying a diff, or its inverse, to any tree:
      the chosen side where the two trees differ, the old value elsewhere. */
  lemma ReplayAt(root: Hash, a: Hash, b: Hash, cs: seq<Change>, inverse: bool, path: seq<string>, rr: string)
    requires CanonRoot(root) && CanonRoot(a) && CanonRoot(b) && multiset(cs) == multiset(DiffList(a, b))
    ensures CanonRoot(Apply(root, EditsOf(cs, inverse)))
    ensures At(Apply(root, EditsOf(cs, inverse)), path, rr) ==
            if At(a, path, rr) == At(b, path, rr) then At(root, path, rr)
            else At(if inverse then a else b, path, rr)
  {
    var es := EditsOf(cs, inverse);
    ReplayEdits(a, b, cs, inverse);
    ApplyAt(root, es, path, rr);
    OverrideDistinct(es, path, rr, At(root, path, rr));
    var x, y := At(a, path, rr), At(b, path, rr);
    if x != y {
      ChangedKeyEdited(a, b, cs, inverse, path, rr);
    } else {
      forall e | e in es ensures !(e.path == path && e.rr == rr) { EditChangesKey(a, b, cs, inverse, e); }
    }
  }

  /** Replaying a diff, in any order, turns the old tree into the new one. */
  lemma ReplayGivesNew(a: Hash, b: Hash, cs: seq<Change>)
    requires CanonRoot(a) && CanonRoot(b) && multiset(cs) == multiset(DiffList(a, b))
    ensures SameMap(Apply(a, EditsOf(cs, false)), b)
    ensures !EmptyMap(b) ==> Apply(a, EditsOf(cs, false)) == b
  {
    var r := Apply(a, EditsOf(cs, false));
    forall path: seq<string>, rr: string ensures At(r, path, rr) == At(b, path, rr) {
      ReplayAt(a, a, b, cs, false, path, rr);
    }
    ReplayAt(a, a, b, cs, false, [], "");
    HashIsCanonical(b, r);
  }
}
