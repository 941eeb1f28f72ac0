/** One tree node as a list of entries (pkg/object/tree.go): the acceptance
    test a decoded node must pass, and binary-search lookup. */
module TreeNode {
  import opened Objects
  import Sorting

  // ---------- acceptance of a decoded node ----------

  ghost predicate WeakSorted<A>(es: seq<Entry<A>>) {
    forall i, j :: 0 <= i < j < |es| ==> !Below(es[j], es[i])
  }

  predicate AdjacentSorted<A>(es: seq<Entry<A>>) {
    forall i :: 1 <= i < |es| ==> !Below(es[i], es[i - 1])
  }

  predicate Twin<A>(es: seq<Entry<A>>, i: nat)
    requires 1 <= i < |es|
  {
    HasKey(es[i - 1], es[i].kind, es[i].name)
  }

  /** The name of the first entry that repeats its predecessor's key, with
      the empty string standing for "none". */
  function FirstDuplicate<A>(es: seq<Entry<A>>, i: nat): string
    requires i >= 1
    decreases |es| - i
  {
    if i >= |es| then ""
    else if Twin(es, i) then es[i].name
    else FirstDuplicate(es, i + 1)
  }

  /** The two checks that end DecodeTree. */
  predicate Accepted<A>(es: seq<Entry<A>>) {
    AdjacentSorted(es) && FirstDuplicate(es, 1) == ""
  }

  lemma {:induction false} AdjacentIsWeak<A>(es: seq<Entry<A>>, i: nat, j: nat)
    requires AdjacentSorted(es) && i < j < |es|
    ensures !Below(es[j], es[i])
    decreases j - i
  {
    if i + 1 < j {
      AdjacentIsWeak(es, i, j - 1);
      assert !Below(es[j], es[j - 1]);
      KeyLessOrder(es[j - 1].kind, es[j - 1].name, es[j].kind, es[j].name, es[i].kind, es[i].name);
      KeyLessOrder(es[j].kind, es[j].name, es[i].kind, es[i].name, es[j - 1].kind, es[j - 1].name);
    }
  }

  lemma {:induction false} FirstDuplicateSound<A>(es: seq<Entry<A>>, i: nat)
    requires i >= 1
    requires forall j :: i <= j < |es| && Twin(es, j) ==> es[j].name != ""
    ensures FirstDuplicate(es, i) == "" ==> forall j :: i <= j < |es| ==> !Twin(es, j)
    decreases |es| - i
  {
    if i < |es| && !Twin(es, i) { FirstDuplicateSound(es, i + 1); }
  }

  lemma {:induction false} FirstDuplicateComplete<A>(es: seq<Entry<A>>, i: nat)
    requires i >= 1
    requires forall j :: i <= j < |es| ==> !Twin(es, j)
    ensures FirstDuplicate(es, i) == ""
    decreases |es| - i
  {
    if i < |es| { FirstDuplicateComplete(es, i + 1); }
  }

  /** Strictly sorted nodes are accepted; an accepted node is strictly sorted
      exactly when it does not repeat an unnamed entry. The condition cannot be
      dropped: a repeated unnamed entry silences the duplicate test. */
  lemma AcceptedIffStrict<A>(es: seq<Entry<A>>)
    ensures Strict(es) ==> Accepted(es)
    ensures Accepted(es) ==> WeakSorted(es)
    ensures Accepted(es) ==>
              (Strict(es) <==> forall i :: 1 <= i < |es| ==> !(Twin(es, i) && es[i].name == ""))
  {
    if Strict(es) {
      forall i | 1 <= i < |es| ensures !Below(es[i], es[i - 1]) && !Twin(es, i) {
        assert Below(es[i - 1], es[i]);
        KeyLessOrder(es[i - 1].kind, es[i - 1].name, es[i].kind, es[i].name, es[i].kind, es[i].name);
      }
      FirstDuplicateComplete(es, 1);
    }
    if Accepted(es) {
      forall i, j | 0 <= i < j < |es| ensures !Below(es[j], es[i]) { AdjacentIsWeak(es, i, j); }
      if forall i :: 1 <= i < |es| ==> !(Twin(es, i) && es[i].name == "") {
        FirstDuplicateSound(es, 1);
        forall i, j | 0 <= i < j < |es| ensures Below(es[i], es[j]) { AdjacentIsStrict(es, i, j); }
      }
    }
  }

  lemma {:induction false} AdjacentIsStrict<A>(es: seq<Entry<A>>, i: nat, j: nat)
    requires AdjacentSorted(es) && i < j < |es|
    requires forall k :: 1 <= k < |es| ==> !Twin(es, k)
    ensures Below(es[i], es[j])
    decreases j - i
  {
    assert !Twin(es, j) && !Below(es[j], es[j - 1]);
    KeyLessOrder(es[j - 1].kind, es[j - 1].name, es[j].kind, es[j].name, es[i].kind, es[i].name);
    if i + 1 < j {
      AdjacentIsStrict(es, i, j - 1);
      KeyLessOrder(es[i].kind, es[i].name, es[j - 1].kind, es[j - 1].name, es[j].kind, es[j].name);
    }
  }

  /** Two unnamed subtree entries hide the repeated "a" behind them. */
  lemma DuplicateGoesUnreported()
    ensures
      var e, f := Entry(Subtree, "", 0), Entry(Subtree, "a", 0);
      Accepted([e, e, f, f]) && !Strict([e, e, f, f])
  {
    var e, f := Entry(Subtree, "", 0), Entry(Subtree, "a", 0);
    var es := [e, e, f, f];
    assert Twin(es, 1) && FirstDuplicate(es, 1) == "";
    KeyLessOrder(Subtree, "a", Subtree, "a", Subtree, "a");
    assert !Below(es[2], es[3]);
  }

  // ---------- lookup ----------

  /** Linear scan, the specification of Get. */
  function Scan<A>(es: seq<Entry<A>>, k: Kind, n: string): Option<Entry<A>> {
    if es == [] then None
    else if HasKey(es[0], k, n) then Some(es[0])
    else Scan(es[1..], k, n)
  }

  lemma {:induction false} ScanFirst<A>(es: seq<Entry<A>>, k: Kind, n: string, i: nat)
    requires i <= |es|
    requires forall j :: 0 <= j < i ==> !HasKey(es[j], k, n)
    ensures Scan(es, k, n) == Scan(es[i..], k, n)
    decreases i
  {
    if i == 0 {
      assert es[0..] == es;
    } else {
      ScanFirst(es[1..], k, n, i - 1);
      assert es[1..][i - 1..] == es[i..];
    }
  }

  lemma {:induction false} ScanNone<A>(es: seq<Entry<A>>, k: Kind, n: string)
    requires forall j :: 0 <= j < |es| ==> !HasKey(es[j], k, n)
    ensures Scan(es, k, n) == None
    decreases |es|
  {
    if es != [] { ScanNone(es[1..], k, n); }
  }

  lemma {:induction false} ScanIsFind(es: Entries, k: Kind, n: string)
    ensures Find(es, k, n) == if Scan(es, k, n).Some? then Scan(es, k, n).value.hash else Zero
    ensures Scan(es, k, n).Some? ==> Scan(es, k, n).value in es && HasKey(Scan(es, k, n).value, k, n)
    decreases |es|
  {
    if es != [] && !HasKey(es[0], k, n) { ScanIsFind(es[1..], k, n); }
  }

  /** Binary search for the first entry not below (k, n), then an equality
      test; agrees with a linear scan on every accepted node. */
  method Get<A>(es: seq<Entry<A>>, k: Kind, n: string) returns (r: Option<Entry<A>>)
    requires WeakSorted(es)
    ensures r == Scan(es, k, n)
  {
    var lo, hi := 0, |es|;
    while lo < hi
      invariant 0 <= lo <= hi <= |es|
      invariant forall i :: 0 <= i < lo ==> KeyLess(es[i].kind, es[i].name, k, n)
      invariant forall i :: hi <= i < |es| ==> !KeyLess(es[i].kind, es[i].name, k, n)
    {
      var mid := (lo + hi) / 2;
      if KeyLess(es[mid].kind, es[mid].name, k, n) {
        forall i | 0 <= i <= mid ensures KeyLess(es[i].kind, es[i].name, k, n) {
          if i < mid {
            assert !Below(es[mid], es[i]);
            KeyLessOrder(es[mid].kind, es[mid].name, es[i].kind, es[i].name, k, n);
            KeyLessOrder(es[i].kind, es[i].name, es[mid].kind, es[mid].name, k, n);
          }
        }
        lo := mid + 1;
      } else {
        forall i | mid <= i < |es| ensures !KeyLess(es[i].kind, es[i].name, k, n) {
          if mid < i {
            assert !Below(es[i], es[mid]);
            KeyLessOrder(es[i].kind, es[i].name, es[mid].kind, es[mid].name, k, n);
            KeyLessOrder(es[mid].kind, es[mid].name, es[i].kind, es[i].name, k, n);
          }
        }
        hi := mid;
      }
    }
    forall i | 0 <= i < lo ensures !HasKey(es[i], k, n) {
      KeyLessOrder(es[i].kind, es[i].name, k, n, k, n);
    }
    ScanFirst(es, k, n, lo);
    if lo < |es| && HasKey(es[lo], k, n) {
      return Some(es[lo]);
    }
    forall i | lo <= i < |es| ensures !HasKey(es[i], k, n) {
      if lo < i && HasKey(es[i], k, n) {
        assert !Below(es[i], es[lo]);
        KeyLessOrder(es[lo].kind, es[lo].name, k, n, k, n);
        assert false;
      }
    }
    ScanNone(es[lo..], k, n);
    return None;
  }

  // ---------- the canonical entry order ----------

  /** `a` may stand before `b`. */
  predicate EntryLe<A>(a: Entry<A>, b: Entry<A>) {
    !Below(b, a)
  }

  predicate SameKey<A>(a: Entry<A>, b: Entry<A>) {
    HasKey(a, b.kind, b.name)
  }

  lemma EntryLePreorder<A(!new)>()
    ensures Sorting.TotalPreorder<Entry<A>>(EntryLe)
  {
    forall x: Entry<A>, y: Entry<A> ensures EntryLe(x, y) || EntryLe(y, x) {
      KeyLessOrder(x.kind, x.name, y.kind, y.name, x.kind, x.name);
    }
    forall x: Entry<A>, y: Entry<A>, z: Entry<A> | EntryLe(x, y) && EntryLe(y, z) ensures EntryLe(x, z) {
      KeyLessOrder(z.kind, z.name, x.kind, x.name, y.kind, y.name);
      KeyLessOrder(z.kind, z.name, y.kind, y.name, x.kind, x.name);
      KeyLessOrder(y.kind, y.name, x.kind, x.name, z.kind, z.name);
    }
  }

  lemma SortOfStrict<A>(es: seq<Entry<A>>)
    requires Strict(es)
    ensures Sorting.Sort(EntryLe, es) == es
  {
    forall i, j | 0 <= i < j < |es| ensures EntryLe(es[i], es[j]) {
      assert Below(es[i], es[j]);
      KeyLessOrder(es[i].kind, es[i].name, es[j].kind, es[j].name, es[i].kind, es[i].name);
    }
    Sorting.SortOfSorted(EntryLe, es);
  }

  /** Sorting entries with different keys sorts them strictly. */
  lemma SortStrict<A(!new)>(es: seq<Entry<A>>)
    requires Sorting.Apart(SameKey, es)
    ensures Strict(Sorting.Sort(EntryLe, es))
  {
    var t := Sorting.Sort(EntryLe, es);
    EntryLePreorder<A>();
    Sorting.SortSorts(EntryLe, es);
    Sorting.SortApart(EntryLe, SameKey, es);
    forall i, j | 0 <= i < j < |t| ensures Below(t[i], t[j]) {
      assert EntryLe(t[i], t[j]) && !SameKey(t[i], t[j]);
      KeyLessOrder(t[i].kind, t[i].name, t[j].kind, t[j].name, t[i].kind, t[i].name);
    }
  }
}
