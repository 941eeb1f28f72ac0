/** The three-way structural merge (pkg/merge/merge.go). */
module TreeMerge {
  import opened Objects
  import opened Ordering
  import opened TreeNode
  import opened MemStore
  import opened TreeOps
  import opened Cursors
  import opened Canonical
  import opened Sequences
  import History
  import Sorting

  datatype Reason = BothModified | DeletedModified | AddAdd

  datatype Conflict = Conflict(path: seq<string>, rr: string, reason: Reason, base: Hash, ours: Hash, theirs: Hash)

  // ---------- one leaf ----------

  /** The winner at one leaf and, when all three differ, why they clash. */
  function ResolveLeaf(base: Hash, ours: Hash, theirs: Hash): (Hash, Option<Reason>) {
    if ours == theirs then (ours, None)
    else if ours == base then (theirs, None)
    else if theirs == base then (ours, None)
    else if base.Zero? then (ours, Some(AddAdd))
    else if ours.Zero? || theirs.Zero? then (ours, Some(DeletedModified))
    else (ours, Some(BothModified))
  }

  function Winner(base: Hash, ours: Hash, theirs: Hash): Hash {
    ResolveLeaf(base, ours, theirs).0
  }

  function Clash(base: Hash, ours: Hash, theirs: Hash): Option<Reason> {
    ResolveLeaf(base, ours, theirs).1
  }

  /** Changes made on one side win; a clash is exactly three different values. */
  lemma ResolveLeafMeaning(base: Hash, ours: Hash, theirs: Hash)
    ensures Clash(base, ours, theirs).Some? <==> ours != theirs && ours != base && theirs != base
    ensures theirs == base ==> Winner(base, ours, theirs) == ours
    ensures ours == base ==> Winner(base, ours, theirs) == theirs
    ensures Clash(base, ours, theirs).None? ==> Winner(base, ours, theirs) == Winner(base, theirs, ours)
    ensures Clash(base, ours, theirs).Some? ==> Winner(base, ours, theirs) == ours
    ensures Clash(base, ours, theirs) == Some(AddAdd) ==> base.Zero? && ours.H? && theirs.H?
    ensures Clash(base, ours, theirs) == Some(DeletedModified) ==> base.H? && (ours.Zero? <==> theirs.H?)
    ensures Clash(base, ours, theirs) == Some(BothModified) ==> base.H? && ours.H? && theirs.H?
  {
  }

  // ---------- the walk as a function ----------

  function Smaller(x: Option<Entry<Hash>>, y: Option<Entry<Hash>>): Option<Entry<Hash>> {
    if y.None? then x
    else if x.None? then y
    else if Below(y.value, x.value) then y else x
  }

  function HeadOf(es: Entries): Option<Entry<Hash>> {
    if es == [] then None else Some(es[0])
  }

  /** The smallest pending (kind, name) among three cursors. */
  function MinKey(b: Entries, o: Entries, t: Entries): Entry<Hash>
    requires b != [] || o != [] || t != []
  {
    Smaller(Smaller(HeadOf(b), HeadOf(o)), HeadOf(t)).value
  }

  predicate AtHead(es: Entries, k: Kind, n: string) {
    es != [] && HasKey(es[0], k, n)
  }

  lemma MinKeyIsLeast(b: Entries, o: Entries, t: Entries)
    requires b != [] || o != [] || t != []
    ensures
      var e := MinKey(b, o, t);
      && NotPast(b, e.kind, e.name) && NotPast(o, e.kind, e.name) && NotPast(t, e.kind, e.name)
      && (AtHead(b, e.kind, e.name) || AtHead(o, e.kind, e.name) || AtHead(t, e.kind, e.name))
  {
    var e := MinKey(b, o, t);
    var heads := [HeadOf(b), HeadOf(o), HeadOf(t)];
    forall i, j, m | 0 <= i < 3 && 0 <= j < 3 && 0 <= m < 3 && heads[i].Some? && heads[j].Some? && heads[m].Some?
      ensures !Below(heads[i].value, heads[i].value)
      ensures Below(heads[i].value, heads[j].value) && Below(heads[j].value, heads[m].value) ==>
                Below(heads[i].value, heads[m].value)
      ensures Below(heads[i].value, heads[j].value) ==> !Below(heads[j].value, heads[i].value)
      ensures Below(heads[i].value, heads[j].value) || Below(heads[j].value, heads[i].value)
              || HasKey(heads[i].value, heads[j].value.kind, heads[j].value.name)
    {
      var x, y, z := heads[i].value, heads[j].value, heads[m].value;
      KeyLessOrder(x.kind, x.name, y.kind, y.name, z.kind, z.name);
    }
    assert heads[0] == HeadOf(b) && heads[1] == HeadOf(o) && heads[2] == HeadOf(t);
  }

  lemma StepWeight(b: Entries, o: Entries, t: Entries)
    requires b != [] || o != [] || t != []
    ensures
      var e := MinKey(b, o, t);
      var k, n := e.kind, e.name;
      var all := Weight(b) + Weight(o) + Weight(t);
      && Weight(Ents(HeadHash(b, k, n))) + Weight(Ents(HeadHash(o, k, n))) + Weight(Ents(HeadHash(t, k, n))) < all
      && Weight(Advance(b, k, n)) + Weight(Advance(o, k, n)) + Weight(Advance(t, k, n)) < all
  {
    var e := MinKey(b, o, t);
    MinKeyIsLeast(b, o, t);
    AdvanceWeight(b, e.kind, e.name);
    AdvanceWeight(o, e.kind, e.name);
    AdvanceWeight(t, e.kind, e.name);
  }

  /** The merged hash of three trees, with the equal-hash fast paths. */
  function MergeH(b: Hash, o: Hash, t: Hash): Hash
    decreases Weight(Ents(b)) + Weight(Ents(o)) + Weight(Ents(t)), 1
  {
    if o == t then o
    else if b == o then t
    else if b == t then o
    else Link(MergeE(Ents(b), Ents(o), Ents(t)))
  }

  function KeyMerged(k: Kind, b: Hash, o: Hash, t: Hash): Hash
    decreases Weight(Ents(b)) + Weight(Ents(o)) + Weight(Ents(t)), 2
  {
    if k.Leaf? then Winner(b, o, t) else MergeH(b, o, t)
  }

  function Kept(k: Kind, n: string, x: Hash): Entries {
    if x.Zero? then [] else [Entry(k, n, x)]
  }

  function MergeE(b: Entries, o: Entries, t: Entries): Entries
    decreases Weight(b) + Weight(o) + Weight(t), 0
  {
    if b == [] && o == [] && t == [] then []
    else
      var e := MinKey(b, o, t);
      var k, n := e.kind, e.name;
      StepWeight(b, o, t);
      Kept(k, n, KeyMerged(k, HeadHash(b, k, n), HeadHash(o, k, n), HeadHash(t, k, n)))
      + MergeE(Advance(b, k, n), Advance(o, k, n), Advance(t, k, n))
  }

  /** The conflicts of the same walk, in walk order. */
  function ClashesH(path: seq<string>, b: Hash, o: Hash, t: Hash): seq<Conflict>
    decreases Weight(Ents(b)) + Weight(Ents(o)) + Weight(Ents(t)), 1
  {
    if o == t || b == o || b == t then [] else ClashesE(path, Ents(b), Ents(o), Ents(t))
  }

  function KeyClashes(path: seq<string>, k: Kind, n: string, b: Hash, o: Hash, t: Hash): seq<Conflict>
    decreases Weight(Ents(b)) + Weight(Ents(o)) + Weight(Ents(t)), 2
  {
    if k.Subtree? then ClashesH(path + [n], b, o, t)
    else match Clash(b, o, t)
      case None => []
      case Some(reason) => [Conflict(path, n, reason, b, o, t)]
  }

  function ClashesE(path: seq<string>, b: Entries, o: Entries, t: Entries): seq<Conflict>
    decreases Weight(b) + Weight(o) + Weight(t), 0
  {
    if b == [] && o == [] && t == [] then []
    else
      var e := MinKey(b, o, t);
      var k, n := e.kind, e.name;
      StepWeight(b, o, t);
      KeyClashes(path, k, n, HeadHash(b, k, n), HeadHash(o, k, n), HeadHash(t, k, n))
      + ClashesE(path, Advance(b, k, n), Advance(o, k, n), Advance(t, k, n))
  }

  // ---------- the merged tree is the pointwise merge ----------

  ghost predicate AllAbove(es: Entries, k: Kind, n: string) {
    forall i :: 0 <= i < |es| ==> KeyLess(k, n, es[i].kind, es[i].name)
  }

  lemma AdvanceAbove(es: Entries, k: Kind, n: string)
    requires Strict(es) && NotPast(es, k, n)
    ensures AllAbove(Advance(es, k, n), k, n)
  {
    if es != [] {
      KeyLessOrder(k, n, es[0].kind, es[0].name, k, n);
      forall i | 1 <= i < |es| ensures KeyLess(k, n, es[i].kind, es[i].name) {
        assert Below(es[0], es[i]);
        KeyLessOrder(k, n, es[0].kind, es[0].name, es[i].kind, es[i].name);
      }
    }
  }

  lemma {:induction false} MergeAbove(b: Entries, o: Entries, t: Entries, k: Kind, n: string)
    requires AllAbove(b, k, n) && AllAbove(o, k, n) && AllAbove(t, k, n)
    ensures AllAbove(MergeE(b, o, t), k, n)
    decreases Weight(b) + Weight(o) + Weight(t)
  {
    if b != [] || o != [] || t != [] {
      var e := MinKey(b, o, t);
      StepWeight(b, o, t);
      var x := KeyMerged(e.kind, HeadHash(b, e.kind, e.name), HeadHash(o, e.kind, e.name), HeadHash(t, e.kind, e.name));
      var rest := MergeE(Advance(b, e.kind, e.name), Advance(o, e.kind, e.name), Advance(t, e.kind, e.name));
      LeastIsAbove(b, o, t, k, n);
      MergeAbove(Advance(b, e.kind, e.name), Advance(o, e.kind, e.name), Advance(t, e.kind, e.name), k, n);
      KeptAbove(e.kind, e.name, x, rest, k, n);
    }
  }

  lemma LeastIsAbove(b: Entries, o: Entries, t: Entries, k: Kind, n: string)
    requires (b != [] || o != [] || t != []) && AllAbove(b, k, n) && AllAbove(o, k, n) && AllAbove(t, k, n)
    ensures
      var e := MinKey(b, o, t);
      && KeyLess(k, n, e.kind, e.name)
      && AllAbove(Advance(b, e.kind, e.name), k, n) && AllAbove(Advance(o, e.kind, e.name), k, n)
      && AllAbove(Advance(t, e.kind, e.name), k, n)
  {
    MinKeyIsLeast(b, o, t);
  }

  lemma KeptAbove(k': Kind, n': string, x: Hash, rest: Entries, k: Kind, n: string)
    requires KeyLess(k, n, k', n') && AllAbove(rest, k, n)
    ensures AllAbove(Kept(k', n', x) + rest, k, n)
  {
  }

  lemma {:induction false} MergeHCanon(b: Hash, o: Hash, t: Hash)
    requires CanonRoot(b) && CanonRoot(o) && CanonRoot(t)
    ensures CanonRoot(MergeH(b, o, t))
    ensures (o.H? ==> Ents(o) != []) && (t.H? ==> Ents(t) != []) ==> MergeH(b, o, t).H? ==> Ents(MergeH(b, o, t)) != []
    decreases Weight(Ents(b)) + Weight(Ents(o)) + Weight(Ents(t)), 1
  {
    if !(o == t || b == o || b == t) { MergeECanon(Ents(b), Ents(o), Ents(t)); }
  }

  /** The merge keeps the tree invariant. */
  lemma {:induction false} MergeECanon(b: Entries, o: Entries, t: Entries)
    requires CanonE(b) && CanonE(o) && CanonE(t)
    ensures CanonE(MergeE(b, o, t))
    decreases Weight(b) + Weight(o) + Weight(t), 0
  {
    if b != [] || o != [] || t != [] {
      var e := MinKey(b, o, t);
      var k, n := e.kind, e.name;
      StepWeight(b, o, t);
      MinKeyIsLeast(b, o, t);
      CursorCanon(b, k, n);
      CursorCanon(o, k, n);
      CursorCanon(t, k, n);
      AdvanceAbove(b, k, n);
      AdvanceAbove(o, k, n);
      AdvanceAbove(t, k, n);
      MergeECanon(Advance(b, k, n), Advance(o, k, n), Advance(t, k, n));
      MergeAbove(Advance(b, k, n), Advance(o, k, n), Advance(t, k, n), k, n);
      if k.Subtree? { MergeHCanon(HeadHash(b, k, n), HeadHash(o, k, n), HeadHash(t, k, n)); }
      CanonCons(k, n, KeyMerged(k, HeadHash(b, k, n), HeadHash(o, k, n), HeadHash(t, k, n)),
        MergeE(Advance(b, k, n), Advance(o, k, n), Advance(t, k, n)));
    }
  }

  lemma CanonCons(k: Kind, n: string, x: Hash, rest: Entries)
    requires CanonE(rest) && AllAbove(rest, k, n) && ValidName(n)
    requires k.Subtree? && x.H? ==> CanonRoot(x) && Ents(x) != []
    ensures CanonE(Kept(k, n, x) + rest)
  {
    if x.Zero? { assert [] + rest == rest; }
  }

  lemma {:induction false} MergeHAt(b: Hash, o: Hash, t: Hash, path: seq<string>, rr: string)
    requires CanonRoot(b) && CanonRoot(o) && CanonRoot(t)
    ensures At(MergeH(b, o, t), path, rr) == Winner(At(b, path, rr), At(o, path, rr), At(t, path, rr))
    decreases Weight(Ents(b)) + Weight(Ents(o)) + Weight(Ents(t)), 1
  {
    if !(o == t || b == o || b == t) {
      MergeEAt(Ents(b), Ents(o), Ents(t), path, rr);
    }
  }

  /** At every key the merged tree holds the leaf rule's winner. */
  lemma {:induction false} MergeEAt(b: Entries, o: Entries, t: Entries, path: seq<string>, rr: string)
    requires CanonE(b) && CanonE(o) && CanonE(t)
    ensures AtE(MergeE(b, o, t), path, rr) == Winner(AtE(b, path, rr), AtE(o, path, rr), AtE(t, path, rr))
    decreases Weight(b) + Weight(o) + Weight(t), 0
  {
    if b == [] && o == [] && t == [] {
      AtENothing(path, rr);
    } else {
      var e := MinKey(b, o, t);
      var k, n := e.kind, e.name;
      StepWeight(b, o, t);
      MinKeyIsLeast(b, o, t);
      CursorCanon(b, k, n);
      CursorCanon(o, k, n);
      CursorCanon(t, k, n);
      CursorAt(b, k, n, path, rr);
      CursorAt(o, k, n, path, rr);
      CursorAt(t, k, n, path, rr);
      AdvanceAbove(b, k, n);
      AdvanceAbove(o, k, n);
      AdvanceAbove(t, k, n);
      var bx, ox, tx := HeadHash(b, k, n), HeadHash(o, k, n), HeadHash(t, k, n);
      var rest := MergeE(Advance(b, k, n), Advance(o, k, n), Advance(t, k, n));
      MergeEAt(Advance(b, k, n), Advance(o, k, n), Advance(t, k, n), path, rr);
      MergeAbove(Advance(b, k, n), Advance(o, k, n), Advance(t, k, n), k, n);
      ConsAt(k, n, KeyMerged(k, bx, ox, tx), rest, path, rr);
      if FirstKind(path) == k && FirstName(path, rr) == n && k.Subtree? {
        MergeHAt(bx, ox, tx, path[1..], rr);
      }
    }
  }

  lemma ConsAt(k: Kind, n: string, x: Hash, rest: Entries, path: seq<string>, rr: string)
    requires AllAbove(rest, k, n)
    ensures AtE(Kept(k, n, x) + rest, path, rr) ==
            if FirstKind(path) == k && FirstName(path, rr) == n then Down(x, path, rr) else AtE(rest, path, rr)
  {
    var es := Kept(k, n, x) + rest;
    AtEDown(es, path, rr);
    AtEDown(rest, path, rr);
    DownZero(path, rr);
    FindAbove(rest, k, n);
    if x.H? {
      assert es[1..] == rest;
    } else {
      assert es == rest;
    }
  }

  // ---------- conflicts ----------

  /** `c` records a key below `path` at which the three values clash. */
  predicate IsConflict(c: Conflict, x: Hash, y: Hash, z: Hash) {
    Clash(x, y, z).Some? && c == Conflict(c.path, c.rr, Clash(x, y, z).value, x, y, z)
  }

  lemma {:induction false} ClashesHExact(path: seq<string>, b: Hash, o: Hash, t: Hash, c: Conflict)
    requires CanonRoot(b) && CanonRoot(o) && CanonRoot(t)
    ensures c in ClashesH(path, b, o, t) <==>
              && path <= c.path
              && var p := c.path[|path|..]; IsConflict(c, At(b, p, c.rr), At(o, p, c.rr), At(t, p, c.rr))
    decreases Weight(Ents(b)) + Weight(Ents(o)) + Weight(Ents(t)), 1
  {
    if !(o == t || b == o || b == t) { ClashesEExact(path, Ents(b), Ents(o), Ents(t), c); }
  }

  lemma {:induction false} KeyClashesExact(path: seq<string>, k: Kind, n: string, b: Hash, o: Hash, t: Hash,
      c: Conflict)
    requires k.Subtree? ==> CanonRoot(b) && CanonRoot(o) && CanonRoot(t)
    ensures c in KeyClashes(path, k, n, b, o, t) <==>
              && path <= c.path
              && FirstKind(c.path[|path|..]) == k && FirstName(c.path[|path|..], c.rr) == n
              && var p := c.path[|path|..]; IsConflict(c, Down(b, p, c.rr), Down(o, p, c.rr), Down(t, p, c.rr))
    decreases Weight(Ents(b)) + Weight(Ents(o)) + Weight(Ents(t)), 2
  {
    if k.Leaf? {
      assert c.path == path <==> path <= c.path && c.path[|path|..] == [];
    } else {
      ClashesHExact(path + [n], b, o, t, c);
      if path <= c.path {
        var p := c.path[|path|..];
        assert c.path == path + p;
        assert path + [n] <= c.path <==> p != [] && p[0] == n;
        if p != [] && p[0] == n { assert p[1..] == c.path[|path + [n]|..]; }
      }
    }
  }

  /** The conflicts are exactly the clashing keys, with the right reason. */
  lemma {:induction false} ClashesEExact(path: seq<string>, b: Entries, o: Entries, t: Entries, c: Conflict)
    requires CanonE(b) && CanonE(o) && CanonE(t)
    ensures c in ClashesE(path, b, o, t) <==>
              && path <= c.path
              && var p := c.path[|path|..]; IsConflict(c, AtE(b, p, c.rr), AtE(o, p, c.rr), AtE(t, p, c.rr))
    decreases Weight(b) + Weight(o) + Weight(t), 0
  {
    if b == [] && o == [] && t == [] {
      if path <= c.path { AtENothing(c.path[|path|..], c.rr); }
    } else {
      var e := MinKey(b, o, t);
      var k, n := e.kind, e.name;
      StepWeight(b, o, t);
      MinKeyIsLeast(b, o, t);
      CursorCanon(b, k, n);
      CursorCanon(o, k, n);
      CursorCanon(t, k, n);
      KeyClashesExact(path, k, n, HeadHash(b, k, n), HeadHash(o, k, n), HeadHash(t, k, n), c);
      ClashesEExact(path, Advance(b, k, n), Advance(o, k, n), Advance(t, k, n), c);
      if path <= c.path {
        CursorAt(b, k, n, c.path[|path|..], c.rr);
        CursorAt(o, k, n, c.path[|path|..], c.rr);
        CursorAt(t, k, n, c.path[|path|..], c.rr);
      }
    }
  }

  predicate SameKey(c: Conflict, d: Conflict) {
    c.path == d.path && c.rr == d.rr
  }

  ghost predicate DistinctConflicts(cs: seq<Conflict>) {
    Sorting.Apart(SameKey, cs)
  }

  lemma {:induction false} ClashesHDistinct(path: seq<string>, b: Hash, o: Hash, t: Hash)
    requires CanonRoot(b) && CanonRoot(o) && CanonRoot(t)
    ensures DistinctConflicts(ClashesH(path, b, o, t))
    decreases Weight(Ents(b)) + Weight(Ents(o)) + Weight(Ents(t)), 1
  {
    if !(o == t || b == o || b == t) { ClashesEDistinct(path, Ents(b), Ents(o), Ents(t)); }
  }

  lemma DistinctConcat(first: seq<Conflict>, rest: seq<Conflict>)
    requires DistinctConflicts(first) && DistinctConflicts(rest)
    requires forall c, d :: c in first && d in rest ==> !SameKey(c, d)
    ensures DistinctConflicts(first + rest)
  {
    var all := first + rest;
    forall i, j | 0 <= i < j < |all| ensures !SameKey(all[i], all[j]) {
      if i < |first| && j >= |first| { assert all[i] in first && all[j] in rest; }
    }
  }

  lemma LaterKeyDiffers(path: seq<string>, b: Entries, o: Entries, t: Entries, k: Kind, n: string, c: Conflict,
      d: Conflict)
    requires CanonE(b) && CanonE(o) && CanonE(t) && NotPast(b, k, n) && NotPast(o, k, n) && NotPast(t, k, n)
    requires c in KeyClashes(path, k, n, HeadHash(b, k, n), HeadHash(o, k, n), HeadHash(t, k, n))
    requires d in ClashesE(path, Advance(b, k, n), Advance(o, k, n), Advance(t, k, n))
    ensures !SameKey(c, d)
  {
    CursorCanon(b, k, n);
    CursorCanon(o, k, n);
    CursorCanon(t, k, n);
    KeyClashesExact(path, k, n, HeadHash(b, k, n), HeadHash(o, k, n), HeadHash(t, k, n), c);
    ClashesEExact(path, Advance(b, k, n), Advance(o, k, n), Advance(t, k, n), d);
    CursorAt(b, k, n, d.path[|path|..], d.rr);
    CursorAt(o, k, n, d.path[|path|..], d.rr);
    CursorAt(t, k, n, d.path[|path|..], d.rr);
  }

  lemma {:induction false} ClashesEDistinct(path: seq<string>, b: Entries, o: Entries, t: Entries)
    requires CanonE(b) && CanonE(o) && CanonE(t)
    ensures DistinctConflicts(ClashesE(path, b, o, t))
    decreases Weight(b) + Weight(o) + Weight(t), 0
  {
    if b != [] || o != [] || t != [] {
      var e := MinKey(b, o, t);
      var k, n := e.kind, e.name;
      StepWeight(b, o, t);
      MinKeyIsLeast(b, o, t);
      CursorCanon(b, k, n);
      CursorCanon(o, k, n);
      CursorCanon(t, k, n);
      var bx, ox, tx := HeadHash(b, k, n), HeadHash(o, k, n), HeadHash(t, k, n);
      var first := KeyClashes(path, k, n, bx, ox, tx);
      var rest := ClashesE(path, Advance(b, k, n), Advance(o, k, n), Advance(t, k, n));
      if k.Subtree? { ClashesHDistinct(path + [n], bx, ox, tx); }
      ClashesEDistinct(path, Advance(b, k, n), Advance(o, k, n), Advance(t, k, n));
      forall c, d | c in first && d in rest ensures !SameKey(c, d) {
        LaterKeyDiffers(path, b, o, t, k, n, c, d);
      }
      DistinctConcat(first, rest);
    }
  }

  predicate ConflictLe(a: Conflict, b: Conflict) {
    History.NameTypeLe(History.FQDN(a.path), a.rr, History.FQDN(b.path), b.rr)
  }

  /** What MergeTrees reports. */
  function Conflicts(b: Hash, o: Hash, t: Hash): seq<Conflict> {
    Sorting.Sort(ConflictLe, ClashesH([], b, o, t))
  }

  /** The whole three-way merge: pointwise winners in a canonical tree, and
      one conflict per clashing key, in name and type order. */
  lemma MergeExact(b: Hash, o: Hash, t: Hash)
    requires CanonRoot(b) && CanonRoot(o) && CanonRoot(t)
    ensures CanonRoot(MergeH(b, o, t))
    ensures forall path: seq<string>, rr: string ::
              At(MergeH(b, o, t), path, rr) == Winner(At(b, path, rr), At(o, path, rr), At(t, path, rr))
    ensures forall c: Conflict ::
              c in Conflicts(b, o, t) <==> IsConflict(c, At(b, c.path, c.rr), At(o, c.path, c.rr), At(t, c.path, c.rr))
    ensures DistinctConflicts(Conflicts(b, o, t))
    ensures forall i, j :: 0 <= i < j < |Conflicts(b, o, t)| ==>
              var x, y := Conflicts(b, o, t)[i], Conflicts(b, o, t)[j];
              || StrLess(History.FQDN(x.path), History.FQDN(y.path))
              || (History.FQDN(x.path) == History.FQDN(y.path) && StrLeq(x.rr, y.rr))
  {
    MergeHCanon(b, o, t);
    var cs := ClashesH([], b, o, t);
    ClashesHDistinct([], b, o, t);
    Sorting.SortApart(ConflictLe, SameKey, cs);
    ConflictLePreorder();
    Sorting.SortSorts(ConflictLe, cs);
    Sorting.SortPermutes(ConflictLe, cs);
    forall path: seq<string>, rr: string
      ensures At(MergeH(b, o, t), path, rr) == Winner(At(b, path, rr), At(o, path, rr), At(t, path, rr))
    {
      MergeHAt(b, o, t, path, rr);
    }
    forall c: Conflict
      ensures c in Conflicts(b, o, t) <==> IsConflict(c, At(b, c.path, c.rr), At(o, c.path, c.rr), At(t, c.path, c.rr))
    {
      ClashesHExact([], b, o, t, c);
      assert c.path[0..] == c.path;
    }
  }

  lemma ConflictLePreorder()
    ensures Sorting.TotalPreorder(ConflictLe)
  {
    forall a, b ensures ConflictLe(a, b) || ConflictLe(b, a) {
      History.NameTypeOrder(History.FQDN(a.path), a.rr, History.FQDN(b.path), b.rr, "", "");
    }
    forall a, b, c | ConflictLe(a, b) && ConflictLe(b, c) ensures ConflictLe(a, c) {
      History.NameTypeOrder(History.FQDN(a.path), a.rr, History.FQDN(b.path), b.rr, History.FQDN(c.path), c.rr);
    }
  }

  ghost predicate ClashFree(b: Hash, o: Hash, t: Hash) {
    forall path: seq<string>, rr: string :: Clash(At(b, path, rr), At(o, path, rr), At(t, path, rr)).None?
  }

  lemma NoConflictsIffClashFree(b: Hash, o: Hash, t: Hash)
    requires CanonRoot(b) && CanonRoot(o) && CanonRoot(t)
    ensures Conflicts(b, o, t) == [] <==> ClashFree(b, o, t)
  {
    MergeExact(b, o, t);
    forall path: seq<string>, rr: string
      ensures Clash(At(b, path, rr), At(o, path, rr), At(t, path, rr)).Some? ==> Conflicts(b, o, t) != []
    {
      var u, v, w := At(b, path, rr), At(o, path, rr), At(t, path, rr);
      if Clash(u, v, w).Some? {
        assert Conflict(path, rr, Clash(u, v, w).value, u, v, w) in Conflicts(b, o, t);
      }
    }
    if Conflicts(b, o, t) != [] {
      var c := Conflicts(b, o, t)[0];
      assert c in Conflicts(b, o, t);
      assert Clash(At(b, c.path, c.rr), At(o, c.path, c.rr), At(t, c.path, c.rr)).Some?;
    }
  }

  /** Without conflicts the merge does not care which side is called ours. */
  lemma MergeCommutes(b: Hash, o: Hash, t: Hash)
    requires CanonRoot(b) && CanonRoot(o) && CanonRoot(t)
    requires Conflicts(b, o, t) == []
    ensures MergeH(b, o, t) == MergeH(b, t, o)
    ensures Conflicts(b, t, o) == []
  {
    NoConflictsIffClashFree(b, o, t);
    SwappedMerge(b, o, t);
    NoConflictsIffClashFree(b, t, o);
    MergeHCanon(b, o, t);
    MergeHCanon(b, t, o);
    SameMapSameEntries(MergeH(b, o, t), MergeH(b, t, o));
    SameFormSwapped(b, o, t);
  }

  lemma SwappedMerge(b: Hash, o: Hash, t: Hash)
    requires CanonRoot(b) && CanonRoot(o) && CanonRoot(t) && ClashFree(b, o, t)
    ensures ClashFree(b, t, o) && SameMap(MergeH(b, o, t), MergeH(b, t, o))
  {
    forall path: seq<string>, rr: string
      ensures At(MergeH(b, o, t), path, rr) == At(MergeH(b, t, o), path, rr)
      ensures Clash(At(b, path, rr), At(t, path, rr), At(o, path, rr)).None?
    {
      MergeHAt(b, o, t, path, rr);
      MergeHAt(b, t, o, path, rr);
      assert Clash(At(b, path, rr), At(o, path, rr), At(t, path, rr)).None?;
      ResolveLeafMeaning(At(b, path, rr), At(o, path, rr), At(t, path, rr));
    }
  }

  /** The fast paths do not tell the sides apart, and otherwise the result is a
      link to its entries. */
  lemma SameFormSwapped(b: Hash, o: Hash, t: Hash)
    requires Ents(MergeH(b, o, t)) == Ents(MergeH(b, t, o))
    ensures MergeH(b, o, t) == MergeH(b, t, o)
  {
  }

  // ---------- the walk over a store ----------

  /** One turn of the three-cursor loop. */
  method MergeStep(s: Store, path: seq<string>, b: Entries, o: Entries, t: Entries, acc: seq<Conflict>)
      returns (r: Result<(Hash, seq<Conflict>)>, k: Kind, n: string, b': Entries, o': Entries, t': Entries)
    requires CanonE(b) && CanonE(o) && CanonE(t) && (b != [] || o != [] || t != [])
    modifies s`objects
    ensures k == MinKey(b, o, t).kind && n == MinKey(b, o, t).name
    ensures b' == Advance(b, k, n) && o' == Advance(o, k, n) && t' == Advance(t, k, n)
    ensures r.Ok? ==> r.value.0 == KeyMerged(k, HeadHash(b, k, n), HeadHash(o, k, n), HeadHash(t, k, n))
    ensures r.Ok? ==> r.value.1 == acc + KeyClashes(path, k, n, HeadHash(b, k, n), HeadHash(o, k, n), HeadHash(t, k, n))
    ensures Grows(old(s.objects), s.objects)
    ensures ClosedE(old(s.objects), b) && ClosedE(old(s.objects), o) && ClosedE(old(s.objects), t) ==>
              r.Ok? && (k.Subtree? ==> RootIn(s.objects, r.value.0))
    decreases Weight(b) + Weight(o) + Weight(t), 0
  {
    var e := MinKey(b, o, t);
    k, n, b', o', t' := e.kind, e.name, b, o, t;
    StepWeight(b, o, t);
    CursorCanon(b, k, n);
    CursorCanon(o, k, n);
    CursorCanon(t, k, n);
    var bh, oh, th := Zero, Zero, Zero;
    if b != [] && b[0].kind == k && b[0].name == n { bh, b' := b[0].hash, b[1..]; }
    if o != [] && o[0].kind == k && o[0].name == n { oh, o' := o[0].hash, o[1..]; }
    if t != [] && t[0].kind == k && t[0].name == n { th, t' := t[0].hash, t[1..]; }
    if k.Leaf? {
      var (resolved, reason) := ResolveLeaf(bh, oh, th);
      LeafClashes(path, n, bh, oh, th, acc);
      r := Ok((resolved, if reason.Some? then acc + [Conflict(path, n, reason.value, bh, oh, th)] else acc));
    } else {
      r := MergeTreesAt(s, path + [n], bh, oh, th, acc);
    }
  }

  lemma LeafClashes(path: seq<string>, n: string, b: Hash, o: Hash, t: Hash, acc: seq<Conflict>)
    ensures
      var reason := Clash(b, o, t);
      acc + KeyClashes(path, Leaf, n, b, o, t) ==
      if reason.Some? then acc + [Conflict(path, n, reason.value, b, o, t)] else acc
  {
    assert acc + [] == acc;
  }

  /** The three-cursor loop. */
  method MergeLoop(s: Store, path: seq<string>, b0: Entries, o0: Entries, t0: Entries, acc: seq<Conflict>)
      returns (r: Result<(Entries, seq<Conflict>)>)
    requires CanonE(b0) && CanonE(o0) && CanonE(t0)
    modifies s`objects
    ensures r.Ok? ==> r.value.0 == MergeE(b0, o0, t0)
    ensures r.Ok? ==> r.value.1 == acc + ClashesE(path, b0, o0, t0)
    ensures Grows(old(s.objects), s.objects)
    ensures ClosedE(old(s.objects), b0) && ClosedE(old(s.objects), o0) && ClosedE(old(s.objects), t0) ==>
              r.Ok? && ClosedE(s.objects, r.value.0)
    decreases Weight(b0) + Weight(o0) + Weight(t0), 1
  {
    var b, o, t := b0, o0, t0;
    var merged: Entries, out := [], acc;
    ghost var ready := ClosedE(s.objects, b0) && ClosedE(s.objects, o0) && ClosedE(s.objects, t0);
    assert [] + MergeE(b, o, t) == MergeE(b, o, t);
    while b != [] || o != [] || t != []
      invariant CanonE(b) && CanonE(o) && CanonE(t)
      invariant Weight(b) + Weight(o) + Weight(t) <= Weight(b0) + Weight(o0) + Weight(t0)
      invariant Grows(old(s.objects), s.objects)
      invariant ready ==> ClosedE(s.objects, b) && ClosedE(s.objects, o) && ClosedE(s.objects, t)
      invariant ready ==> ClosedE(s.objects, merged)
      invariant merged + MergeE(b, o, t) == MergeE(b0, o0, t0)
      invariant out + ClashesE(path, b, o, t) == acc + ClashesE(path, b0, o0, t0)
      decreases Weight(b) + Weight(o) + Weight(t)
    {
      StepWeight(b, o, t);
      ghost var was := s.objects;
      var step, k, n, b', o', t' := MergeStep(s, path, b, o, t, out);
      if step.Err? { return Err(step.error); }
      var x := step.value.0;
      MergeUnfold(path, b, o, t, merged, out);
      StepCanon(b, o, t, k, n);
      if ready { StepReady(was, s.objects, b, o, t, k, n, merged, x); }
      if x.H? { merged := merged + [Entry(k, n, x)]; } else { assert merged + [] == merged; }
      out, b, o, t := step.value.1, b', o', t';
    }
    assert merged + [] == merged && out + [] == out;
    return Ok((merged, out));
  }

  lemma StepCanon(b: Entries, o: Entries, t: Entries, k: Kind, n: string)
    requires CanonE(b) && CanonE(o) && CanonE(t)
    ensures CanonE(Advance(b, k, n)) && CanonE(Advance(o, k, n)) && CanonE(Advance(t, k, n))
  {
    CursorCanon(b, k, n);
    CursorCanon(o, k, n);
    CursorCanon(t, k, n);
  }

  lemma MergeUnfold(path: seq<string>, b: Entries, o: Entries, t: Entries, merged: Entries, out: seq<Conflict>)
    requires b != [] || o != [] || t != []
    ensures
      var k, n := MinKey(b, o, t).kind, MinKey(b, o, t).name;
      var bh, oh, th := HeadHash(b, k, n), HeadHash(o, k, n), HeadHash(t, k, n);
      var b', o', t' := Advance(b, k, n), Advance(o, k, n), Advance(t, k, n);
      && merged + MergeE(b, o, t) == (merged + Kept(k, n, KeyMerged(k, bh, oh, th))) + MergeE(b', o', t')
      && out + ClashesE(path, b, o, t) == (out + KeyClashes(path, k, n, bh, oh, th)) + ClashesE(path, b', o', t')
  {
    var k, n := MinKey(b, o, t).kind, MinKey(b, o, t).name;
    var bh, oh, th := HeadHash(b, k, n), HeadHash(o, k, n), HeadHash(t, k, n);
    var b', o', t' := Advance(b, k, n), Advance(o, k, n), Advance(t, k, n);
    ConcatAssoc(merged, Kept(k, n, KeyMerged(k, bh, oh, th)), MergeE(b', o', t'));
    ConcatAssoc(out, KeyClashes(path, k, n, bh, oh, th), ClashesE(path, b', o', t'));
  }

  method MergeTreesAt(s: Store, path: seq<string>, base: Hash, ours: Hash, theirs: Hash, acc: seq<Conflict>)
      returns (r: Result<(Hash, seq<Conflict>)>)
    requires CanonRoot(base) && CanonRoot(ours) && CanonRoot(theirs)
    modifies s`objects
    ensures r.Ok? ==> r.value.0 == MergeH(base, ours, theirs)
    ensures r.Ok? ==> r.value.1 == acc + ClashesH(path, base, ours, theirs)
    ensures Grows(old(s.objects), s.objects)
    ensures RootIn(old(s.objects), base) && RootIn(old(s.objects), ours) && RootIn(old(s.objects), theirs) ==>
              r.Ok? && RootIn(s.objects, r.value.0)
    decreases Weight(Ents(base)) + Weight(Ents(ours)) + Weight(Ents(theirs)), 2
  {
    assert acc + [] == acc;
    if ours == theirs { return Ok((ours, acc)); }
    if base == ours { return Ok((theirs, acc)); }
    if base == theirs { return Ok((ours, acc)); }
    var bl := History.LoadOrEmpty(s.objects, base);
    if bl.Err? { return Err(bl.error); }
    var ol := History.LoadOrEmpty(s.objects, ours);
    if ol.Err? { return Err(ol.error); }
    var tl := History.LoadOrEmpty(s.objects, theirs);
    if tl.Err? { return Err(tl.error); }
    var m := MergeLoop(s, path, bl.value, ol.value, tl.value, acc);
    if m.Err? { return Err(m.error); }
    var merged := m.value.0;
    if merged == [] { return Ok((Zero, m.value.1)); }
    MergeECanon(bl.value, ol.value, tl.value);
    var h := PutMerged(s, merged);
    return Ok((h, m.value.1));
  }

  /** Stores the merged node, whose entries are already in order. */
  method PutMerged(s: Store, merged: Entries) returns (h: Hash)
    requires CanonE(merged)
    modifies s`objects
    ensures h == H(Tree(merged)) && Grows(old(s.objects), s.objects)
    ensures ClosedE(old(s.objects), merged) ==> RootIn(s.objects, h)
  {
    SortOfStrict(merged);
    AcceptedIffStrict(merged);
    var p := PutTree(s, merged);
    h := p.value;
    if ClosedE(old(s.objects), merged) { ClosedKept(old(s.objects), s.objects, merged); }
  }

  lemma StepReady(was: Objs, now: Objs, b: Entries, o: Entries, t: Entries, k: Kind, n: string, merged: Entries,
      x: Hash)
    requires Keeps(was, now)
    requires ClosedE(was, b) && ClosedE(was, o) && ClosedE(was, t) && ClosedE(was, merged)
    requires k.Subtree? ==> RootIn(now, x)
    ensures ClosedE(now, Advance(b, k, n)) && ClosedE(now, Advance(o, k, n)) && ClosedE(now, Advance(t, k, n))
    ensures ClosedE(now, merged + Kept(k, n, x))
  {
    ClosedKept(was, now, b);
    ClosedKept(was, now, o);
    ClosedKept(was, now, t);
    ClosedKept(was, now, merged);
  }

  method MergeTrees(s: Store, base: Hash, ours: Hash, theirs: Hash) returns (r: Result<(Hash, seq<Conflict>)>)
    requires CanonRoot(base) && CanonRoot(ours) && CanonRoot(theirs)
    modifies s`objects
    ensures r.Ok? ==> r.value == (MergeH(base, ours, theirs), Conflicts(base, ours, theirs))
    ensures Grows(old(s.objects), s.objects)
    ensures RootIn(old(s.objects), base) && RootIn(old(s.objects), ours) && RootIn(old(s.objects), theirs) ==>
              r.Ok? && RootIn(s.objects, r.value.0)
  {
    var m := MergeTreesAt(s, [], base, ours, theirs, []);
    if m.Err? { return m; }
    assert m.value.1 == ClashesH([], base, ours, theirs);
    return Ok((m.value.0, Sorting.Sort(ConflictLe, m.value.1)));
  }
}
