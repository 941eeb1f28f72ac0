/** The order of the NSEC chain and its type bitmaps (pkg/zonesign/zonesign.go).
    Names compare byte by byte, which is not the canonical order of section 6.1
    of RFC 4034. */
module NsecChain {
  import opened Ordering
  import Names
  import Sorting
  import History

  // ---------- the sorted owner list ----------

  ghost predicate Ascending(names: seq<string>) {
    forall i, j :: 0 <= i < j < |names| ==> StrLess(names[i], names[j])
  }

  /** Every owner once, in byte order. */
  ghost predicate Listing(owners: set<string>, names: seq<string>) {
    Ascending(names) && forall x :: x in names <==> x in owners
  }

  lemma StrLeqOrder()
    ensures Sorting.TotalPreorder(StrLeq)
  {
    forall a, b ensures StrLeq(a, b) || StrLeq(b, a) { StrLessTotal(a, b); }
    forall a, b, c | StrLeq(a, b) && StrLeq(b, c) ensures StrLeq(a, c) {
      if a != b && b != c { StrLessTransitive(a, b, c); }
    }
  }

  lemma SortedSetIsListing(owners: set<string>, names: seq<string>)
    requires multiset(names) == multiset(owners) && Sorting.SortedBy(StrLeq, names)
    ensures Listing(owners, names)
  {
    forall x ensures x in names <==> x in owners { assert x in names <==> x in multiset(names); }
    forall i, j | 0 <= i < j < |names| ensures StrLess(names[i], names[j]) {
      assert StrLeq(names[i], names[j]);
      if names[i] == names[j] { History.TwiceInSeq(names, i, j); }
    }
  }

  /** Collects the owners in whatever order the map yields them, then sorts. */
  method SortedNames(owners: set<string>) returns (names: seq<string>)
    ensures Listing(owners, names)
  {
    var out: seq<string>, left := [], owners;
    while left != {}
      invariant left <= owners && multiset(out) + multiset(left) == multiset(owners)
      decreases left
    {
      var n :| n in left;
      out, left := out + [n], left - {n};
    }
    StrLeqOrder();
    Sorting.SortPermutes(StrLeq, out);
    Sorting.SortSorts(StrLeq, out);
    names := Sorting.Sort(StrLeq, out);
    SortedSetIsListing(owners, names);
  }

  lemma ListingSize(owners: set<string>, names: seq<string>)
    requires Listing(owners, names)
    ensures |owners| == |names|
  {
    forall i, j | 0 <= i < j < |names| ensures names[i] != names[j] { DistinctNames(names, i, j); }
    SetSize(owners, names);
  }

  // ---------- the chain ----------

  function Next(names: seq<string>, i: nat): string
    requires i < |names|
  {
    names[(i + 1) % |names|]
  }

  /** The owner reached after k records of the chain. */
  function Follow(next: map<string, string>, owner: string, k: nat): string {
    if k == 0 then owner
    else
      var p := Follow(next, owner, k - 1);
      if p in next then next[p] else p
  }

  predicate LinkAt(names: seq<string>, next: map<string, string>, i: nat)
    requires i < |names|
  {
    names[i] in next && next[names[i]] == Next(names, i)
  }

  ghost predicate LinksUp(names: seq<string>, next: map<string, string>) {
    forall i :: 0 <= i < |names| ==> LinkAt(names, next, i)
  }

  /** The chain from `owner` meets p within n records. */
  predicate Meets(next: map<string, string>, owner: string, n: nat, p: string) {
    n > 0 && (Follow(next, owner, n - 1) == p || Meets(next, owner, n - 1, p))
  }

  lemma {:induction false} MeetsAfter(next: map<string, string>, owner: string, n: nat, p: string, k: nat)
    requires k < n && Follow(next, owner, k) == p
    ensures Meets(next, owner, n, p)
    decreases n
  {
    if k < n - 1 { MeetsAfter(next, owner, n - 1, p, k); }
  }

  function Around(n: nat, i: nat): nat
    requires i < 2 * n
    ensures Around(n, i) < n
  {
    if i < n then i else i - n
  }

  lemma NextAround(names: seq<string>, i: nat)
    requires i < |names|
    ensures Next(names, i) == names[Around(|names|, i + 1)]
  {
    var n := |names|;
    if i + 1 < n { assert (i + 1) % n == i + 1; } else { assert n % n == 0; }
  }

  lemma {:induction false} FollowAround(names: seq<string>, next: map<string, string>, i: nat, k: nat)
    requires LinksUp(names, next) && i < |names| && k <= |names|
    ensures Follow(next, names[i], k) == names[Around(|names|, i + k)]
    decreases k
  {
    if k > 0 {
      FollowAround(names, next, i, k - 1);
      var at := Around(|names|, i + k - 1);
      NextAround(names, at);
      assert LinkAt(names, next, at);
    }
  }

  /** The records form one cycle: from any owner the chain comes back after
      exactly as many records as there are owners, having met every owner. */
  lemma OneCycle(owners: set<string>, names: seq<string>, next: map<string, string>, owner: string)
    requires Listing(owners, names) && LinksUp(names, next) && owner in owners
    ensures Follow(next, owner, |names|) == owner
    ensures forall k :: 0 < k < |names| ==> Follow(next, owner, k) != owner
    ensures forall p :: p in owners ==> Meets(next, owner, |names|, p)
  {
    var i :| 0 <= i < |names| && names[i] == owner;
    FollowAround(names, next, i, |names|);
    forall k | 0 < k < |names| ensures Follow(next, owner, k) != owner {
      FollowAround(names, next, i, k);
      DistinctNames(names, i, Around(|names|, i + k));
    }
    forall p | p in owners ensures Meets(next, owner, |names|, p) {
      var j :| 0 <= j < |names| && names[j] == p;
      var k := if i <= j then j - i else j + |names| - i;
      FollowAround(names, next, i, k);
      MeetsAfter(next, owner, |names|, p, k);
    }
  }

  lemma DistinctNames(names: seq<string>, i: nat, j: nat)
    requires Ascending(names) && i < |names| && j < |names| && i != j
    ensures names[i] != names[j]
  {
    StrLessIrreflexive(names[i]);
    assert if i < j then StrLess(names[i], names[j]) else StrLess(names[j], names[i]);
  }

  // ---------- the canonical order ----------

  /** The order of section 6.1 of RFC 4034 on labels, most significant first. */
  predicate LabelsLess(a: seq<string>, b: seq<string>) {
    if b == [] then false
    else if a == [] then true
    else if a[0] != b[0] then StrLess(a[0], b[0])
    else LabelsLess(a[1..], b[1..])
  }

  /** The same on names in lower case. */
  predicate CanonLess(x: string, y: string) {
    LabelsLess(Names.Reverse(Names.SplitDots(x)), Names.Reverse(Names.SplitDots(y)))
  }

  lemma {:induction false} LabelsLessIrreflexive(a: seq<string>)
    ensures !LabelsLess(a, a)
    decreases |a|
  {
    if a != [] { LabelsLessIrreflexive(a[1..]); }
  }

  /** Every owner once, in canonical order. */
  ghost predicate CanonListing(owners: set<string>, names: seq<string>) {
    && (forall i, j :: 0 <= i < j < |names| ==> CanonLess(names[i], names[j]))
    && forall x :: x in names <==> x in owners
  }

  lemma CanonListingApart(owners: set<string>, names: seq<string>)
    requires CanonListing(owners, names)
    ensures forall i, j :: 0 <= i < j < |names| ==> names[i] != names[j]
  {
    forall i, j | 0 <= i < j < |names| ensures names[i] != names[j] {
      LabelsLessIrreflexive(Names.Reverse(Names.SplitDots(names[i])));
      assert CanonLess(names[i], names[j]);
    }
  }

  /** The second list is the first one started elsewhere. */
  ghost predicate IsRotation(names: seq<string>, other: seq<string>) {
    |other| == |names| && exists r :: 0 <= r < |names| && RotatedBy(names, other, r)
  }

  predicate RotatedBy(names: seq<string>, other: seq<string>, r: nat)
    requires |other| == |names| && r < |names|
  {
    forall k :: 0 <= k < |names| ==> other[k] == names[Around(|names|, r + k)]
  }

  /** Records that chain the byte-sorted owners also chain the owners in another
      order, as they must in the canonical one, exactly when that order is the
      byte order up to where it starts. */
  lemma OtherChainIff(owners: set<string>, names: seq<string>, other: seq<string>, next: map<string, string>)
    requires Listing(owners, names) && LinksUp(names, next) && names != []
    requires |other| == |names| && forall x :: x in other <==> x in owners
    ensures LinksUp(other, next) <==> IsRotation(names, other)
  {
    var n := |names|;
    if LinksUp(other, next) {
      assert other[0] in other;
      var r :| 0 <= r < n && names[r] == other[0];
      forall k | 0 <= k < n ensures other[k] == names[Around(n, r + k)] {
        FollowAround(names, next, r, k);
        FollowAround(other, next, 0, k);
      }
      assert RotatedBy(names, other, r);
    }
    if IsRotation(names, other) {
      var r :| 0 <= r < n && RotatedBy(names, other, r);
      forall k | 0 <= k < n ensures LinkAt(other, next, k) { RotatedLink(names, other, next, r, k); }
    }
  }

  lemma RotatedLink(names: seq<string>, other: seq<string>, next: map<string, string>, r: nat, k: nat)
    requires |other| == |names| && r < |names| && k < |names| && RotatedBy(names, other, r) && LinksUp(names, next)
    ensures LinkAt(other, next, k)
  {
    var n := |names|;
    var at := Around(n, r + k);
    assert LinkAt(names, next, at);
    NextAround(names, at);
    NextAround(other, k);
    assert Around(n, at + 1) == Around(n, r + Around(n, k + 1));
  }

  /** The committed order is a canonical one iff the canonical listing is the
      byte listing up to where it starts. */
  lemma CanonicalChainIff(owners: set<string>, names: seq<string>, canon: seq<string>, next: map<string, string>)
    requires Listing(owners, names) && LinksUp(names, next) && names != [] && CanonListing(owners, canon)
    ensures LinksUp(canon, next) <==> IsRotation(names, canon)
  {
    CanonListingApart(owners, canon);
    SetSize(owners, canon);
    ListingSize(owners, names);
    OtherChainIff(owners, names, canon, next);
  }

  lemma {:induction false} SetSize(owners: set<string>, names: seq<string>)
    requires forall i, j :: 0 <= i < j < |names| ==> names[i] != names[j]
    requires forall x :: x in names <==> x in owners
    ensures |owners| == |names|
    decreases |names|
  {
    if names == [] {
      assert owners == {};
    } else {
      var n := |names| - 1;
      assert names == names[..n] + [names[n]];
      assert names[n] in owners;
      SetSize(owners - {names[n]}, names[..n]);
    }
  }

  /** An apex between its own children in byte order: the canonical order puts it
      first, and the two cycles differ. */
  lemma ByteOrderIsNotCanonical(next: map<string, string>)
    requires LinksUp(["a.f.", "f.", "w.f."], next)
    ensures
      var owners := {"f.", "a.f.", "w.f."};
      && Listing(owners, ["a.f.", "f.", "w.f."]) && CanonListing(owners, ["f.", "a.f.", "w.f."])
      && !LinksUp(["f.", "a.f.", "w.f."], next)
  {
    var names, canon := ["a.f.", "f.", "w.f."], ["f.", "a.f.", "w.f."];
    var owners := {"f.", "a.f.", "w.f."};
    assert StrLess("a.f.", "f.") && StrLess("f.", "w.f.") && StrLess("a.f.", "w.f.");
    SmallNames();
    NextAround(canon, 0);
    NextAround(names, 1);
    assert LinkAt(names, next, 1);
    assert Next(canon, 0) == "a.f." && Next(names, 1) == "w.f.";
    assert "a.f."[0] != "w.f."[0];
    assert !LinkAt(canon, next, 0);
  }

  lemma SmallNames()
    ensures CanonLess("f.", "a.f.") && CanonLess("a.f.", "w.f.") && CanonLess("f.", "w.f.")
  {
    assert "a.f." == "a" + "." + "f." && "w.f." == "w" + "." + "f.";
    ApexBeforeChild("a");
    ApexBeforeChild("w");
    ChildrenInOrder("a", "w");
  }

  lemma ApexBeforeChild(x: string)
    requires '.' !in x
    ensures CanonLess("f.", x + "." + "f.")
  {
    SmallLabels(x);
    SamePrefix(["", "f"], [], [x]);
    assert ["", "f"] + [] == ["", "f"] && ["", "f"] + [x] == ["", "f", x];
  }

  lemma ChildrenInOrder(x: string, y: string)
    requires '.' !in x && '.' !in y && StrLess(x, y)
    ensures CanonLess(x + "." + "f.", y + "." + "f.")
  {
    SmallLabels(x);
    SmallLabels(y);
    StrLessIrreflexive(x);
    SamePrefix(["", "f"], [x], [y]);
    assert ["", "f"] + [x] == ["", "f", x] && ["", "f"] + [y] == ["", "f", y];
  }

  lemma SmallLabels(x: string)
    requires '.' !in x
    ensures Names.Reverse(Names.SplitDots("f.")) == ["", "f"]
    ensures Names.Reverse(Names.SplitDots(x + "." + "f.")) == ["", "f", x]
  {
    Names.SplitLabel("f", "");
    assert "f." == "f" + "." + "";
    Names.SplitLabel(x, "f.");
  }

  lemma {:induction false} SamePrefix(p: seq<string>, a: seq<string>, b: seq<string>)
    ensures LabelsLess(p + a, p + b) <==> LabelsLess(a, b)
    decreases |p|
  {
    if p == [] {
      assert p + a == a && p + b == b;
    } else {
      assert (p + a)[1..] == p[1..] + a && (p + b)[1..] == p[1..] + b;
      SamePrefix(p[1..], a, b);
    }
  }

  // ---------- the gaps ----------

  /** The names an NSEC record denies: strictly between its owner and the next
      name, or on either side of the wrap-around. */
  predicate Covers(owner: string, next: string, x: string) {
    if StrLess(owner, next) then StrLess(owner, x) && StrLess(x, next) else StrLess(owner, x) || StrLess(x, next)
  }

  /** Everything before p is below x and nothing from p on is. */
  ghost predicate SplitsAt(names: seq<string>, x: string, p: nat) {
    && p <= |names|
    && (forall i :: 0 <= i < p ==> StrLess(names[i], x))
    && (forall i :: p <= i < |names| ==> !StrLess(names[i], x))
  }

  lemma {:induction false} SplitExists(names: seq<string>, x: string) returns (p: nat)
    requires Ascending(names)
    ensures SplitsAt(names, x, p)
    decreases |names|
  {
    p := 0;
    if names != [] {
      var n := |names| - 1;
      p := SplitExists(names[..n], x);
      if StrLess(names[n], x) {
        p := n + 1;
        forall i | 0 <= i < n ensures StrLess(names[i], x) { StrLessTransitive(names[i], names[n], x); }
      }
    }
  }

  lemma MemberAtSplit(names: seq<string>, x: string, p: nat)
    requires Ascending(names) && SplitsAt(names, x, p)
    ensures x in names <==> p < |names| && names[p] == x
  {
    StrLessIrreflexive(x);
    assert forall k :: p < k < |names| ==> StrLess(names[p], names[k]);
  }

  /** The record at j denies x. */
  predicate Denies(names: seq<string>, j: nat, x: string)
    requires j < |names|
  {
    Covers(names[j], Next(names, j), x)
  }

  /** The record just before the split, cyclically. */
  function Before(n: nat, p: nat): int {
    if p == 0 then n - 1 else p - 1
  }

  lemma GapAt(names: seq<string>, x: string, p: nat, j: nat)
    requires Ascending(names) && SplitsAt(names, x, p) && j < |names|
    ensures Denies(names, j, x) <==> x !in names && j == Before(|names|, p)
  {
    MemberAtSplit(names, x, p);
    if j + 1 < |names| { InnerGap(names, x, p, j); } else { LastGap(names, x, p); }
  }

  lemma InnerGap(names: seq<string>, x: string, p: nat, j: nat)
    requires Ascending(names) && SplitsAt(names, x, p) && j + 1 < |names|
    ensures Denies(names, j, x) <==> p == j + 1 && names[p] != x
  {
    var next := names[j + 1];
    assert Next(names, j) == next && StrLess(names[j], next);
    StrLessTotal(next, x);
    if StrLess(x, next) { StrLessAsymmetric(x, next); }
    StrLessIrreflexive(x);
  }

  lemma LastGap(names: seq<string>, x: string, p: nat)
    requires Ascending(names) && SplitsAt(names, x, p) && names != []
    ensures Denies(names, |names| - 1, x) <==> p == |names| || (p == 0 && names[0] != x)
  {
    var j := |names| - 1;
    var first := names[0];
    assert Next(names, j) == first;
    if 0 < j { StrLessAsymmetric(first, names[j]); } else { StrLessIrreflexive(first); }
    StrLessTotal(first, x);
    if StrLess(x, first) { StrLessAsymmetric(x, first); }
    StrLessIrreflexive(x);
  }

  /** Every name that is no owner lies in exactly one gap of the chain, and no
      owner lies in any. */
  lemma ExactlyOneGap(owners: set<string>, names: seq<string>, x: string)
    requires Listing(owners, names) && names != []
    ensures x in owners ==> forall j :: 0 <= j < |names| ==> !Denies(names, j, x)
    ensures x !in owners ==> exists i :: 0 <= i < |names| && Denies(names, i, x)
                                         && forall j :: 0 <= j < |names| && Denies(names, j, x) ==> j == i
  {
    var p := SplitExists(names, x);
    forall j | 0 <= j < |names| ensures Denies(names, j, x) <==> x !in names && j == Before(|names|, p) {
      GapAt(names, x, p, j);
    }
    assert x !in owners ==> Denies(names, Before(|names|, p), x);
  }

  /** Binary search for the first name not below x. */
  method SearchStrings(names: seq<string>, x: string) returns (p: nat)
    requires Ascending(names)
    ensures SplitsAt(names, x, p)
    ensures x in names ==> p < |names| && names[p] == x
  {
    p := 0;
    var hi := |names|;
    while p < hi
      invariant 0 <= p <= hi <= |names|
      invariant forall i :: 0 <= i < p ==> StrLess(names[i], x)
      invariant forall i :: hi <= i < |names| ==> !StrLess(names[i], x)
    {
      var mid := (p + hi) / 2;
      if StrLess(names[mid], x) {
        forall i | p <= i < mid ensures StrLess(names[i], x) { StrLessTransitive(names[i], names[mid], x); }
        p := mid + 1;
      } else {
        forall i | mid < i < hi ensures !StrLess(names[i], x) {
          if StrLess(names[i], x) { StrLessTransitive(names[mid], names[i], x); }
        }
        hi := mid;
      }
    }
    MemberAtSplit(names, x, p);
  }

  // ---------- type bitmaps ----------

  method UniqStrings(ss: seq<string>) returns (out: seq<string>)
    ensures forall x :: x in out <==> x in ss
    ensures forall i, j :: 0 <= i < j < |out| ==> out[i] != out[j]
  {
    if |ss| <= 1 { return ss; }
    out := [];
    var seen := {};
    for i := 0 to |ss|
      invariant forall x :: x in out <==> x in seen
      invariant forall x :: x in seen <==> x in ss[..i]
      invariant forall k, j :: 0 <= k < j < |out| ==> out[k] != out[j]
    {
      assert ss[..i + 1] == ss[..i] + [ss[i]];
      if ss[i] !in seen {
        seen := seen + {ss[i]};
        out := out + [ss[i]];
      }
    }
    assert ss[..|ss|] == ss;
  }

  ghost predicate Rising(b: seq<nat>) {
    forall i, j :: 0 <= i < j < |b| ==> b[i] < b[j]
  }

  /** The ascending list of the codes of the known types. */
  ghost predicate IsBitmap(codes: map<string, nat>, types: set<string>, b: seq<nat>) {
    Rising(b) && forall c: nat :: c in b <==> exists t :: t in types && t in codes && codes[t] == c
  }

  lemma {:induction false} RisingUnique(a: seq<nat>, b: seq<nat>)
    requires Rising(a) && Rising(b) && forall c: nat :: c in a <==> c in b
    ensures a == b
    decreases |a|
  {
    assert a != [] ==> a[0] in b;
    assert b != [] ==> b[0] in a;
    if a != [] {
      forall c: nat ensures c in a[1..] <==> c in b[1..] {
        assert c in a[1..] <==> c in a && c != a[0];
        assert c in b[1..] <==> c in b && c != b[0];
      }
      RisingUnique(a[1..], b[1..]);
      assert a == [a[0]] + a[1..] && b == [b[0]] + b[1..];
    }
  }

  /** A set of types has one bitmap, whatever order the types come in. */
  lemma BitmapUnique(codes: map<string, nat>, types: set<string>, a: seq<nat>, b: seq<nat>)
    requires IsBitmap(codes, types, a) && IsBitmap(codes, types, b)
    ensures a == b
  {
    RisingUnique(a, b);
  }

  predicate NatLe(a: nat, b: nat) { a <= b }

  lemma SortRises(s: seq<nat>)
    requires forall i, j :: 0 <= i < j < |s| ==> s[i] != s[j]
    ensures Rising(Sorting.Sort(NatLe, s))
    ensures forall c: nat :: c in Sorting.Sort(NatLe, s) <==> c in s
  {
    Sorting.SortPermutes(NatLe, s);
    Sorting.SortSorts(NatLe, s);
    Sorting.SortApart(NatLe, (x: nat, y: nat) => x == y, s);
  }

  method TypesToBitmap(codes: map<string, nat>, types: seq<string>) returns (b: seq<nat>)
    ensures IsBitmap(codes, (set t | t in types), b)
  {
    var out: seq<nat>, seen: set<nat> := [], {};
    for i := 0 to |types|
      invariant forall c :: c in out <==> c in seen
      invariant forall c :: c in seen <==> exists k :: 0 <= k < i && types[k] in codes && codes[types[k]] == c
      invariant forall k, j :: 0 <= k < j < |out| ==> out[k] != out[j]
    {
      if types[i] in codes && codes[types[i]] !in seen {
        seen := seen + {codes[types[i]]};
        out := out + [codes[types[i]]];
      }
    }
    SortRises(out);
    b := Sorting.Sort(NatLe, out);
    forall c: nat
      ensures c in out <==> exists t :: t in (set t | t in types) && t in codes && codes[t] == c
    {
      if t :| t in types && t in codes && codes[t] == c {
        var k :| 0 <= k < |types| && types[k] == t;
      }
    }
  }
}
