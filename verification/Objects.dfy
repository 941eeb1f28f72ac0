/** Content-addressed objects and the flat map a label tree stands for.

    The hash is ideal: a non-zero hash carries the object it names, so equal
    hashes mean equal content and no object can contain its own hash. Stores
    stay explicit maps, so a lookup can still fail. */
module Objects {
  import opened Ordering

  datatype Error = NotFound | InvalidObject | Corrupt | CasConflict | Refused

  datatype Result<+T> = Ok(value: T) | Err(error: Error)

  datatype Option<+T> = None | Some(value: T)

  datatype Kind = Subtree | Leaf

  datatype Entry<+H> = Entry(kind: Kind, name: string, hash: H)

  /** A resource record, down to the fields that the modelled operations look
      into; an ideal signature carries the records it is over. */
  datatype RR =
    | SOA(serial: nat, rest: string)
    | NSEC(next: string, types: seq<nat>)
    | RRSIG(owner: string, covered: string, ksk: bool, over: seq<RR>)
    | Data(text: string)

  /** Everything else a commit says, as written, and whether that reads back: a
      commit whose identity lines do not parse is stored all the same. */
  datatype Meta = Meta(text: string, legible: bool)

  datatype Object =
    | Blob(rrs: seq<RR>)
    | Tree(entries: seq<Entry<Hash>>)
    | Commit(tree: Hash, parents: seq<Hash>, meta: Meta)
    | Symref(target: string)
    | Raw(payload: string)

  datatype Hash = Zero | H(obj: Object)

  type Entries = seq<Entry<Hash>>

  // ---------- the (kind, name) order ----------

  /** Subtrees sort before leaves, then by name. */
  predicate KeyLess(k1: Kind, n1: string, k2: Kind, n2: string) {
    if k1 != k2 then k1.Subtree? else StrLess(n1, n2)
  }

  predicate Below<A>(a: Entry<A>, b: Entry<A>) {
    KeyLess(a.kind, a.name, b.kind, b.name)
  }

  predicate HasKey<A>(e: Entry<A>, k: Kind, n: string) {
    e.kind == k && e.name == n
  }

  ghost predicate Strict<A>(es: seq<Entry<A>>) {
    forall i, j :: 0 <= i < j < |es| ==> Below(es[i], es[j])
  }

  lemma KeyLessOrder(k1: Kind, n1: string, k2: Kind, n2: string, k3: Kind, n3: string)
    ensures !KeyLess(k1, n1, k1, n1)
    ensures (k1 == k2 && n1 == n2) || KeyLess(k1, n1, k2, n2) || KeyLess(k2, n2, k1, n1)
    ensures KeyLess(k1, n1, k2, n2) ==> !KeyLess(k2, n2, k1, n1) && !(k1 == k2 && n1 == n2)
    ensures KeyLess(k1, n1, k2, n2) && KeyLess(k2, n2, k3, n3) ==> KeyLess(k1, n1, k3, n3)
  {
    StrLessIrreflexive(n1);
    StrLessTotal(n1, n2);
    if k1 == k2 && StrLess(n1, n2) {
      StrLessAsymmetric(n1, n2);
      if k2 == k3 && StrLess(n2, n3) { StrLessTransitive(n1, n2, n3); }
    }
  }

  // ---------- the flat map ----------

  /** The entries behind a tree hash; an absent tree has none. */
  function Ents(h: Hash): Entries {
    if h.H? && h.obj.Tree? then h.obj.entries else []
  }

  /** Linear scan for (k, n); `Zero` when absent. */
  function Find(es: Entries, k: Kind, n: string): Hash {
    if es == [] then Zero
    else if HasKey(es[0], k, n) then es[0].hash
    else Find(es[1..], k, n)
  }

  /** The blob at owner `path` (apex-nearest label first) and type `rr` below
      these entries, or `Zero`: the flat map the tree stands for. */
  function AtE(es: Entries, path: seq<string>, rr: string): Hash
    decreases |path|
  {
    if path == [] then Find(es, Leaf, rr)
    else AtE(Ents(Find(es, Subtree, path[0])), path[1..], rr)
  }

  function At(h: Hash, path: seq<string>, rr: string): Hash {
    AtE(Ents(h), path, rr)
  }

  /** The number of entries in the whole tree, the measure of every walk. */
  function Weight(es: Entries): nat
    decreases es
  {
    if es == [] then 0
    else
      1 + (if es[0].hash.H? && es[0].hash.obj.Tree? then Weight(es[0].hash.obj.entries) else 0)
        + Weight(es[1..])
  }

  // ---------- the tree invariant ----------

  predicate ValidName(n: string) {
    1 <= |n| <= 255
  }

  /** Strictly sorted, names of 1 to 255 bytes, no zero child hash, and no
      empty tree below the root. */
  ghost predicate CanonE(es: Entries)
    decreases es
  {
    && Strict(es)
    && forall i :: 0 <= i < |es| ==>
         && ValidName(es[i].name)
         && es[i].hash.H?
         && (es[i].kind.Subtree? ==>
               && es[i].hash.obj.Tree?
               && es[i].hash.obj.entries != []
               && CanonE(es[i].hash.obj.entries))
  }

  /** A zone root: absent, or a canonical tree that may itself be empty. */
  ghost predicate CanonRoot(h: Hash) {
    h.Zero? || (h.obj.Tree? && CanonE(h.obj.entries))
  }

  /** A canonical node lists its subtrees first, then its record sets, each in
      name order and no name twice. */
  lemma CanonOrder(es: Entries, i: nat, j: nat)
    requires CanonE(es) && i < j < |es|
    ensures es[i].kind == Leaf ==> es[j].kind == Leaf
    ensures es[i].kind == es[j].kind ==> StrLess(es[i].name, es[j].name) && es[i].name != es[j].name
  {
    assert Below(es[i], es[j]);
    StrLessIrreflexive(es[i].name);
  }

  // ---------- facts about Find ----------

  /** What the head of a strictly sorted list says about a lookup. */
  lemma FindHead(es: Entries, k: Kind, n: string)
    requires Strict(es) && es != []
    ensures HasKey(es[0], k, n) ==> Find(es, k, n) == es[0].hash && Find(es[1..], k, n) == Zero
    ensures !HasKey(es[0], k, n) ==> Find(es, k, n) == Find(es[1..], k, n)
    ensures KeyLess(k, n, es[0].kind, es[0].name) ==> Find(es, k, n) == Zero
    ensures Strict(es[1..])
  {
    if HasKey(es[0], k, n) {
      FindAbove(es[1..], k, n);
    }
    if KeyLess(k, n, es[0].kind, es[0].name) {
      forall i | 0 <= i < |es| ensures KeyLess(k, n, es[i].kind, es[i].name) {
        if i > 0 {
          assert Below(es[0], es[i]);
          KeyLessOrder(k, n, es[0].kind, es[0].name, es[i].kind, es[i].name);
        }
      }
      FindAbove(es, k, n);
    }
  }

  lemma {:induction false} FindAbove(es: Entries, k: Kind, n: string)
    requires forall i :: 0 <= i < |es| ==> KeyLess(k, n, es[i].kind, es[i].name)
    ensures Find(es, k, n) == Zero
    decreases |es|
  {
    if es != [] {
      KeyLessOrder(k, n, es[0].kind, es[0].name, k, n);
      FindAbove(es[1..], k, n);
    }
  }

  /** A found hash belongs to some entry with that key. */
  lemma {:induction false} FindIndex(es: Entries, k: Kind, n: string) returns (i: nat)
    requires Find(es, k, n) != Zero
    ensures i < |es| && HasKey(es[i], k, n) && es[i].hash == Find(es, k, n)
    decreases |es|
  {
    if HasKey(es[0], k, n) {
      i := 0;
    } else {
      var j := FindIndex(es[1..], k, n);
      i := j + 1;
    }
  }

  lemma {:induction false} FindAtIndex(es: Entries, i: nat)
    requires Strict(es) && i < |es|
    ensures Find(es, es[i].kind, es[i].name) == es[i].hash
    decreases |es|
  {
    if i > 0 {
      assert Below(es[0], es[i]);
      KeyLessOrder(es[0].kind, es[0].name, es[i].kind, es[i].name, es[i].kind, es[i].name);
      FindAtIndex(es[1..], i - 1);
    }
  }

  /** Strictly sorted lists without zero hashes are determined by lookups. */
  lemma {:induction false} FindDetermines(a: Entries, b: Entries)
    requires Strict(a) && Strict(b)
    requires forall i :: 0 <= i < |a| ==> a[i].hash.H?
    requires forall i :: 0 <= i < |b| ==> b[i].hash.H?
    requires forall k, n :: Find(a, k, n) == Find(b, k, n)
    ensures a == b
    decreases |a|
  {
    if a == [] {
      if b != [] { FindAtIndex(b, 0); assert false; }
    } else {
      assert Find(a, a[0].kind, a[0].name) == Find(b, a[0].kind, a[0].name);
      if b == [] { assert false; }
      assert Find(a, b[0].kind, b[0].name) == Find(b, b[0].kind, b[0].name);
      KeyLessOrder(a[0].kind, a[0].name, b[0].kind, b[0].name, a[0].kind, a[0].name);
      FindHead(a, b[0].kind, b[0].name);
      FindHead(b, a[0].kind, a[0].name);
      assert a[0] == b[0];
      forall k, n ensures Find(a[1..], k, n) == Find(b[1..], k, n) {
        assert Find(a, k, n) == Find(b, k, n);
        FindHead(a, k, n);
        FindHead(b, k, n);
      }
      FindDetermines(a[1..], b[1..]);
      assert a == [a[0]] + a[1..] && b == [b[0]] + b[1..];
    }
  }

  // ---------- facts about the flat map ----------

  function FirstKind(path: seq<string>): Kind {
    if path == [] then Leaf else Subtree
  }

  function FirstName(path: seq<string>, rr: string): string {
    if path == [] then rr else path[0]
  }

  /** What a key reads once its first step has led to `x`. */
  function Down(x: Hash, path: seq<string>, rr: string): Hash {
    if path == [] then x else At(x, path[1..], rr)
  }

  lemma AtEDown(es: Entries, path: seq<string>, rr: string)
    ensures AtE(es, path, rr) == Down(Find(es, FirstKind(path), FirstName(path, rr)), path, rr)
  {
  }

  lemma {:induction false} AtENothing(path: seq<string>, rr: string)
    ensures AtE([], path, rr) == Zero
    decreases |path|
  {
    if path != [] { AtENothing(path[1..], rr); }
  }

  lemma DownZero(path: seq<string>, rr: string)
    ensures Down(Zero, path, rr) == Zero
  {
    if path != [] { AtENothing(path[1..], rr); }
  }

  /** Every canonical non-empty tree holds at least one record set. */
  lemma {:induction false} Inhabited(es: Entries) returns (path: seq<string>, rr: string)
    requires CanonE(es) && es != []
    ensures AtE(es, path, rr) != Zero
    decreases es
  {
    FindAtIndex(es, 0);
    if es[0].kind.Leaf? {
      path, rr := [], es[0].name;
    } else {
      var p, r := Inhabited(es[0].hash.obj.entries);
      path, rr := [es[0].name] + p, r;
      assert path[1..] == p;
    }
  }

  /** A subtree found in a canonical list is a canonical non-empty tree. */
  lemma CanonFind(es: Entries, n: string)
    requires CanonE(es)
    ensures CanonRoot(Find(es, Subtree, n))
    ensures Find(es, Subtree, n) != Zero ==> Ents(Find(es, Subtree, n)) != []
  {
    if Find(es, Subtree, n) != Zero {
      var i := FindIndex(es, Subtree, n);
    }
  }
}
