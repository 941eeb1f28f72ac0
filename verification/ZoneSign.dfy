/** Staging a signed view of HEAD's zone (pkg/zonesign/zonesign.go). */
module ZoneSign {
  import opened Objects
  import opened MemStore
  import opened TreeReads
  import opened Ancestry
  import opened Canonical
  import opened Names
  import opened Refs
  import opened Staging
  import opened Repo
  import opened NsecChain
  import Transfer

  // ---------- owners ----------

  /** The types at each owner name. */
  type Owners = map<string, set<string>>

  predicate Listed(owners: Owners, o: string, t: string) {
    o in owners && t in owners[o]
  }

  function AddType(owners: Owners, o: string, t: string): Owners {
    owners[o := (if o in owners then owners[o] else {}) + {t}]
  }

  ghost predicate HasLeaf(zone: string, ls: seq<LeafRec>, o: string, t: string) {
    exists x :: x in ls && OwnerFQDN(zone, x.path) == o && x.rr == t
  }

  /** The owners and types of exactly these leaves. */
  ghost predicate OwnersOf(zone: string, ls: seq<LeafRec>, owners: Owners) {
    && (forall o, t :: Listed(owners, o, t) <==> HasLeaf(zone, ls, o, t))
    && (forall o :: o in owners ==> owners[o] != {})
  }

  lemma OwnersStep(zone: string, ls: seq<LeafRec>, owners: Owners, x: LeafRec)
    requires OwnersOf(zone, ls, owners)
    ensures OwnersOf(zone, ls + [x], AddType(owners, OwnerFQDN(zone, x.path), x.rr))
  {
    var owner := OwnerFQDN(zone, x.path);
    forall o, t
      ensures Listed(AddType(owners, owner, x.rr), o, t) <==> HasLeaf(zone, ls + [x], o, t)
    {
      assert x in ls + [x];
      assert HasLeaf(zone, ls + [x], o, t) <==> HasLeaf(zone, ls, o, t) || (owner == o && x.rr == t);
    }
  }

  method CollectOwners(zone: string, ls: seq<LeafRec>) returns (owners: Owners)
    ensures OwnersOf(zone, ls, owners)
  {
    owners := map[];
    for i := 0 to |ls|
      invariant OwnersOf(zone, ls[..i], owners)
    {
      var x := ls[i];
      assert ls[..i + 1] == ls[..i] + [x];
      OwnersStep(zone, ls[..i], owners, x);
      var owner := BuildOwner(zone, x.path);
      if owner !in owners { owners := owners[owner := {}]; }
      owners := owners[owner := owners[owner] + {x.rr}];
    }
    assert ls[..|ls|] == ls;
  }

  /** The owner name again, from the name it is staged under. */
  function OwnerOfName(zone: string, fqdn: string): string {
    if fqdn == "" then zone else fqdn + "." + zone
  }

  /** An owner spelled as the staging area wants it. */
  predicate SoundOwner(zone: string, o: string) {
    && FullOwner(o) == o
    && OwnerOfName(zone, StripZoneSuffix(o, zone)) == o
    && Normal(StripZoneSuffix(o, zone))
  }

  lemma PlainOwnerSound(zone: string, path: seq<string>)
    requires PlainPath(path) && CanonZone(zone) == zone && zone != ""
    ensures SoundOwner(zone, OwnerFQDN(zone, path))
  {
    OwnerRoundTrip(zone, path);
    assert Lower(zone) == zone && HasSuffix(zone, ".") by { CanonZoneDotted(zone); }
    if path != [] {
      PlainName(path);
      OwnerLabelsName(path);
      var n := NameOf(path);
      LowerConcat(n + ".", zone);
      LowerConcat(n, ".");
      assert Lower(".") == ".";
      DottedSuffix(n + ".", zone);
    } else {
      assert NameOf(path) == "";
    }
  }

  lemma CanonZoneDotted(zone: string)
    requires CanonZone(zone) == zone && zone != ""
    ensures Lower(zone) == zone && HasSuffix(zone, ".")
  {
    var l := Lower(zone);
    assert |l| == |zone|;
    assert HasSuffix(l, ".");
  }

  lemma DottedSuffix(a: string, b: string)
    requires b != "" && HasSuffix(b, ".")
    ensures HasSuffix(a + b, ".")
  {
    assert b[|b| - 1] == b[|b| - 1..][0];
    assert (a + b)[|a + b| - 1..] == [b[|b| - 1]];
  }

  // ---------- what is staged ----------

  type Values = map<StagingKey, seq<RR>>

  function Key(zone: string, o: string, rr: string): StagingKey {
    StagingKey(StripZoneSuffix(o, zone), rr)
  }

  function StagedValues(vals: Values): Staged {
    map k | k in vals :: Stage(H(Blob(vals[k])))
  }

  lemma StageOneMore(m: Staged, vals: Values, k: StagingKey, rrs: seq<RR>)
    ensures (m + StagedValues(vals))[k := Stage(H(Blob(rrs)))] == m + StagedValues(vals[k := rrs])
  {
  }

  lemma ExtendSum(a: Values, b: Values, k: StagingKey, rrs: seq<RR>)
    ensures (a + b)[k := rrs] == a + b[k := rrs]
  {
  }

  lemma EmptySum(a: Values)
    ensures a + map[] == a
  {
  }

  lemma KeysApart(zone: string, o: string, p: string, rr: string)
    requires SoundOwner(zone, o) && SoundOwner(zone, p) && o != p
    ensures Key(zone, o, rr) != Key(zone, p, rr)
  {
  }

  /** One call of Set, on top of the values staged so far. */
  method StageOne(r: Repo, owner: string, rr: string, rrs: seq<RR>, ghost base: Staged, ghost vals: Values)
    requires SoundOwner(r.activeZone, owner) && r.activeZone != "" && rrs != [] && OneOwner(owner, rrs)
    requires ContentAddressed(r.store.objects) && r.staging == base + StagedValues(vals)
    modifies r`staging, r.store`objects
    ensures r.staging == base + StagedValues(vals[Key(r.activeZone, owner, rr) := rrs])
    ensures ContentAddressed(r.store.objects) && Grows(old(r.store.objects), r.store.objects)
  {
    var res := r.Set(owner, rr, rrs);
    StageOneMore(base, vals, Key(r.activeZone, owner, rr), rrs);
  }

  // ---------- NSEC records ----------

  /** One NSEC record with this next name and the bitmap of these types. */
  ghost predicate IsNsec(codes: map<string, nat>, types: set<string>, next: string, rrs: seq<RR>) {
    |rrs| == 1 && rrs[0].NSEC? && rrs[0].next == next && IsBitmap(codes, types, rrs[0].types)
  }

  lemma NsecUnique(codes: map<string, nat>, types: set<string>, next: string, a: seq<RR>, b: seq<RR>)
    requires IsNsec(codes, types, next, a) && IsNsec(codes, types, next, b)
    ensures a == b
  {
    BitmapUnique(codes, types, a[0].types, b[0].types);
  }

  lemma NsecOneOwner(owner: string, rrs: seq<RR>)
    requires |rrs| == 1 && rrs[0].NSEC?
    ensures OneOwner(owner, rrs)
  {
    assert forall i :: 0 <= i < |rrs| ==> rrs[i] == rrs[0];
  }

  /** The types a signed owner carries. */
  function Signed(types: set<string>): set<string> {
    types + {"NSEC", "RRSIG"}
  }

  /** Lists the types in whatever order the map yields them, adds the two that
      signing brings, and encodes the bitmap. */
  method BuildNsec(codes: map<string, nat>, types: set<string>, next: string) returns (rrs: seq<RR>)
    ensures IsNsec(codes, Signed(types), next, rrs)
  {
    var list: seq<string>, left := [], types;
    while left != {}
      invariant left <= types && forall t :: t in types <==> t in list || t in left
      decreases left
    {
      var t :| t in left;
      list, left := list + [t], left - {t};
    }
    var all := UniqStrings(list + ["NSEC", "RRSIG"]);
    var bitmap := TypesToBitmap(codes, all);
    assert (set t | t in all) == Signed(types);
    return [NSEC(next, bitmap)];
  }

  ghost predicate NsecAt(zone: string, codes: map<string, nat>, owners: Owners, names: seq<string>, vals: Values,
      i: nat)
    requires i < |names|
  {
    var k := Key(zone, names[i], "NSEC");
    names[i] in owners && k in vals && IsNsec(codes, Signed(owners[names[i]]), Next(names, i), vals[k])
  }

  ghost predicate ChainRecords(zone: string, codes: map<string, nat>, owners: Owners, names: seq<string>, n: nat,
      vals: Values)
    requires n <= |names|
  {
    forall i :: 0 <= i < n ==> NsecAt(zone, codes, owners, names, vals, i)
  }

  ghost predicate ChainKeys(zone: string, names: seq<string>, n: nat, vals: Values)
    requires n <= |names|
  {
    forall k :: k in vals ==> ChainKeyUpTo(zone, names, n, k)
  }

  /** The values of the first n records of the chain. */
  ghost predicate ChainValues(zone: string, codes: map<string, nat>, owners: Owners, names: seq<string>, n: nat,
      vals: Values)
    requires n <= |names|
  {
    ChainRecords(zone, codes, owners, names, n, vals) && ChainKeys(zone, names, n, vals)
  }

  ghost predicate SoundOwners(zone: string, owners: Owners) {
    forall o :: o in owners ==> SoundOwner(zone, o)
  }

  lemma ChainStep(zone: string, codes: map<string, nat>, owners: Owners, names: seq<string>, n: nat, vals: Values,
      rrs: seq<RR>)
    requires n < |names| && Listing(owners.Keys, names) && SoundOwners(zone, owners)
    requires ChainValues(zone, codes, owners, names, n, vals)
    requires names[n] in owners && IsNsec(codes, Signed(owners[names[n]]), Next(names, n), rrs)
    ensures ChainValues(zone, codes, owners, names, n + 1, vals[Key(zone, names[n], "NSEC") := rrs])
  {
    RecordsStep(zone, codes, owners, names, n, vals, rrs);
    KeysStep(zone, names, n, vals, rrs);
  }

  lemma RecordsStep(zone: string, codes: map<string, nat>, owners: Owners, names: seq<string>, n: nat, vals: Values,
      rrs: seq<RR>)
    requires n < |names| && Listing(owners.Keys, names) && SoundOwners(zone, owners)
    requires ChainRecords(zone, codes, owners, names, n, vals)
    requires names[n] in owners && IsNsec(codes, Signed(owners[names[n]]), Next(names, n), rrs)
    ensures ChainRecords(zone, codes, owners, names, n + 1, vals[Key(zone, names[n], "NSEC") := rrs])
  {
    var vals' := vals[Key(zone, names[n], "NSEC") := rrs];
    forall i | 0 <= i < n + 1 ensures NsecAt(zone, codes, owners, names, vals', i) {
      if i < n {
        assert NsecAt(zone, codes, owners, names, vals, i);
        NsecAtKept(zone, codes, owners, names, n, vals, rrs, i);
      } else {
        NsecAtNew(zone, codes, owners, names, n, vals, rrs);
      }
    }
  }

  lemma NsecAtNew(zone: string, codes: map<string, nat>, owners: Owners, names: seq<string>, n: nat, vals: Values,
      rrs: seq<RR>)
    requires n < |names| && names[n] in owners
    requires IsNsec(codes, Signed(owners[names[n]]), Next(names, n), rrs)
    ensures NsecAt(zone, codes, owners, names, vals[Key(zone, names[n], "NSEC") := rrs], n)
  {
  }

  lemma KeysStep(zone: string, names: seq<string>, n: nat, vals: Values, rrs: seq<RR>)
    requires n < |names| && ChainKeys(zone, names, n, vals)
    ensures ChainKeys(zone, names, n + 1, vals[Key(zone, names[n], "NSEC") := rrs])
  {
    var vals' := vals[Key(zone, names[n], "NSEC") := rrs];
    forall k | k in vals' ensures ChainKeyUpTo(zone, names, n + 1, k) {
      MoreNames(zone, names, n, k);
    }
  }

  lemma NsecAtKept(zone: string, codes: map<string, nat>, owners: Owners, names: seq<string>, n: nat, vals: Values,
      rrs: seq<RR>, i: nat)
    requires i < n < |names| && Listing(owners.Keys, names) && SoundOwners(zone, owners)
    requires NsecAt(zone, codes, owners, names, vals, i) && names[n] in owners
    ensures NsecAt(zone, codes, owners, names, vals[Key(zone, names[n], "NSEC") := rrs], i)
  {
    DistinctNames(names, i, n);
    KeysApart(zone, names[i], names[n], "NSEC");
  }

  /** The key of one of the first n names. */
  ghost predicate ChainKeyUpTo(zone: string, names: seq<string>, n: nat, k: StagingKey)
    requires n <= |names|
  {
    exists o :: o in names[..n] && k == Key(zone, o, "NSEC")
  }

  lemma MoreNames(zone: string, names: seq<string>, n: nat, k: StagingKey)
    requires n < |names|
    ensures ChainKeyUpTo(zone, names, n, k) || k == Key(zone, names[n], "NSEC") ==> ChainKeyUpTo(zone, names, n + 1, k)
  {
    assert names[..n + 1] == names[..n] + [names[n]];
    assert names[n] in names[..n + 1];
    if ChainKeyUpTo(zone, names, n, k) {
      var o :| o in names[..n] && k == Key(zone, o, "NSEC");
      assert o in names[..n + 1];
    }
  }

  function WithNSEC(owners: Owners): Owners {
    map o | o in owners :: owners[o] + {"NSEC"}
  }

  /** The owners with the NSEC mark on the first n names. */
  ghost predicate MarkedUpTo(owners: Owners, names: seq<string>, n: nat, marked: Owners)
    requires n <= |names|
  {
    && marked.Keys == owners.Keys
    && forall o :: o in owners ==> marked[o] == owners[o] + if o in names[..n] then {"NSEC"} else {}
  }

  lemma MarkStep(owners: Owners, names: seq<string>, n: nat, marked: Owners)
    requires n < |names| && Listing(owners.Keys, names) && MarkedUpTo(owners, names, n, marked)
    ensures names[n] in marked && names[n] in owners && marked[names[n]] == owners[names[n]]
    ensures MarkedUpTo(owners, names, n + 1, marked[names[n] := marked[names[n]] + {"NSEC"}])
  {
    assert names[n] in names;
    FreshName(names, n);
  }

  lemma AllMarked(owners: Owners, names: seq<string>, marked: Owners)
    requires Listing(owners.Keys, names) && MarkedUpTo(owners, names, |names|, marked)
    ensures marked == WithNSEC(owners)
  {
    assert names[..|names|] == names;
  }

  /** Stages one NSEC record per owner and marks the owner as having one. */
  method StageChain(r: Repo, codes: map<string, nat>, owners: Owners, names: seq<string>, ghost base: Staged,
      ghost vals0: Values)
      returns (marked: Owners, ghost vals: Values)
    requires Listing(owners.Keys, names) && SoundOwners(r.activeZone, owners) && r.activeZone != ""
    requires ContentAddressed(r.store.objects) && r.staging == base + StagedValues(vals0)
    modifies r`staging, r.store`objects
    ensures marked == WithNSEC(owners)
    ensures r.staging == base + StagedValues(vals0 + vals)
    ensures ContentAddressed(r.store.objects) && Grows(old(r.store.objects), r.store.objects)
    ensures ChainValues(r.activeZone, codes, owners, names, |names|, vals)
  {
    vals := map[];
    marked := owners;
    ghost var zone := r.activeZone;
    EmptySum(vals0);
    for i := 0 to |names|
      invariant ContentAddressed(r.store.objects) && Grows(old(r.store.objects), r.store.objects)
      invariant r.staging == base + StagedValues(vals0 + vals)
      invariant ChainValues(zone, codes, owners, names, i, vals)
      invariant MarkedUpTo(owners, names, i, marked)
    {
      var owner := names[i];
      MarkStep(owners, names, i, marked);
      var rrs := BuildNsec(codes, marked[owner], Next(names, i));
      assert SoundOwner(zone, owner);
      NsecOneOwner(owner, rrs);
      StageOne(r, owner, "NSEC", rrs, base, vals0 + vals);
      ChainStep(zone, codes, owners, names, i, vals, rrs);
      ghost var k := Key(zone, owner, "NSEC");
      ExtendSum(vals0, vals, k, rrs);
      vals := vals[k := rrs];
      marked := marked[owner := marked[owner] + {"NSEC"}];
    }
    AllMarked(owners, names, marked);
  }

  lemma FreshName(names: seq<string>, i: nat)
    requires Ascending(names) && i < |names|
    ensures names[i] !in names[..i] && names[..i + 1] == names[..i] + [names[i]]
  {
    forall j | 0 <= j < i ensures names[j] != names[i] { DistinctNames(names, j, i); }
  }

  // ---------- signatures ----------

  /** The signer's own way to make an owner relative. */
  function StripZoneOwner(owner: string, zone: string): string {
    if owner == zone then "@"
    else if |owner| > |zone| + 1 && owner[|owner| - |zone| - 1..] == "." + zone then owner[..|owner| - |zone| - 1]
    else owner
  }

  function RelPath(zone: string, o: string): seq<string> {
    PathOf(StripZoneOwner(o, zone))
  }

  lemma RelPathOf(zone: string, path: seq<string>)
    requires PlainPath(path)
    ensures RelPath(zone, OwnerFQDN(zone, path)) == path
  {
    if path == [] {
      assert Lower("@") == "@" && !HasSuffix("@", ".");
    } else {
      PlainName(path);
      OwnerLabelsName(path);
      var n := NameOf(path);
      var owner := n + "." + zone;
      assert owner == n + ("." + zone) && |owner| == |n| + 1 + |zone|;
      assert owner[|n|..] == "." + zone && owner[..|n|] == n;
    }
  }

  /** The key records, which carry no owner name but the zone's. */
  predicate KeySet(dnskeys: seq<RR>) {
    dnskeys != [] && forall i :: 0 <= i < |dnskeys| ==> dnskeys[i].Data?
  }

  /** What is being signed: HEAD's tree, the zone and its key set. */
  datatype Signing = Signing(tree: Hash, zone: string, dnskeys: seq<RR>)

  /** The records the signature for type t at an owner is over. */
  function CoverOf(c: Signing, o: string, nsec: seq<RR>, t: string): seq<RR> {
    if t == "DNSKEY" then c.dnskeys
    else if t == "NSEC" then nsec
    else Transfer.Rrs(At(c.tree, RelPath(c.zone, o), Upper(t)))
  }

  /** The owner name a signature takes from the records it is over: the key set
      is always the apex one. */
  function SigOwner(c: Signing, o: string, t: string): string {
    if t == "DNSKEY" then c.zone else o
  }

  function SigOf(c: Signing, o: string, nsec: seq<RR>, t: string): RR {
    RRSIG(SigOwner(c, o, t), t, t == "DNSKEY", CoverOf(c, o, nsec, t))
  }

  /** One signature for each of these types except RRSIG, in any order. */
  ghost predicate SigSet(c: Signing, o: string, nsec: seq<RR>, types: set<string>, sigs: seq<RR>) {
    && (forall i, j :: 0 <= i < j < |sigs| ==> sigs[i] != sigs[j])
    && (forall x :: x in sigs <==>
          x.RRSIG? && x.covered in types && x.covered != "RRSIG" && x == SigOf(c, o, nsec, x.covered))
  }

  lemma SigStep(c: Signing, o: string, nsec: seq<RR>, types: set<string>, sigs: seq<RR>, t: string)
    requires SigSet(c, o, nsec, types, sigs) && t !in types
    ensures t == "RRSIG" ==> SigSet(c, o, nsec, types + {t}, sigs)
    ensures t != "RRSIG" ==> SigSet(c, o, nsec, types + {t}, sigs + [SigOf(c, o, nsec, t)])
  {
    var x := SigOf(c, o, nsec, t);
    assert x !in sigs;
  }

  /** The staged NSEC records belong to this owner's place in the chain. */
  ghost predicate NsecOf(codes: map<string, nat>, names: seq<string>, owner: string, types: set<string>,
      nsec: seq<RR>) {
    exists i :: 0 <= i < |names| && names[i] == owner && IsNsec(codes, Signed(types), Next(names, i), nsec)
  }

  ghost predicate Readable(s: Store, head: Hash, c: Signing)
    reads s
  {
    && ContentAddressed(s.objects) && Holds(s.objects, head) && IsCommit(head.obj)
    && c.tree == head.obj.tree && GoodTree(s.objects, c.tree)
  }

  /** Finds the records to sign; the NSEC record is built again from the chain
      and comes out as the staged one. */
  method CoveredRecords(s: Store, head: Hash, c: Signing, codes: map<string, nat>, names: seq<string>, owner: string,
      types: set<string>, t: string, ghost nsec: seq<RR>)
      returns (r: Result<seq<RR>>)
    requires Readable(s, head, c) && Ascending(names) && NsecOf(codes, names, owner, types, nsec)
    ensures r.Ok? ==> r.value == CoverOf(c, owner, nsec, t)
    ensures t in ["DNSKEY", "NSEC"] ==> r.Ok?
    ensures Transfer.LookupOf(s.objects, head, RelPath(c.zone, owner), Upper(t)).Ok? ==> r.Ok?
  {
    if t == "DNSKEY" { return Ok(c.dnskeys); }
    if t == "NSEC" {
      var idx := SearchStrings(names, owner);
      var rrs := BuildNsec(codes, types, Next(names, idx));
      RebuiltIsStaged(codes, names, owner, types, nsec, idx, rrs);
      return Ok(rrs);
    }
    r := Transfer.Lookup(s, head, RelPath(c.zone, owner), Upper(t));
  }

  lemma RebuiltIsStaged(codes: map<string, nat>, names: seq<string>, owner: string, types: set<string>, nsec: seq<RR>,
      idx: nat, rrs: seq<RR>)
    requires Ascending(names) && NsecOf(codes, names, owner, types, nsec)
    requires idx < |names| && names[idx] == owner && IsNsec(codes, Signed(types), Next(names, idx), rrs)
    ensures rrs == nsec
  {
    var i :| 0 <= i < |names| && names[i] == owner && IsNsec(codes, Signed(types), Next(names, i), nsec);
    if i != idx { DistinctNames(names, i, idx); }
    NsecUnique(codes, Signed(types), Next(names, i), rrs, nsec);
  }

  /** Every type but the signer's own three can be looked up. */
  ghost predicate AllFound(objs: Objs, head: Hash, zone: string, owner: string, types: set<string>) {
    forall t :: t in types && t !in ["DNSKEY", "NSEC", "RRSIG"] ==>
      Transfer.LookupOf(objs, head, RelPath(zone, owner), Upper(t)).Ok?
  }

  method SignOwner(s: Store, head: Hash, c: Signing, codes: map<string, nat>, names: seq<string>, owner: string,
      types: set<string>, ghost nsec: seq<RR>)
      returns (r: Result<seq<RR>>)
    requires Readable(s, head, c) && Ascending(names) && NsecOf(codes, names, owner, types, nsec)
    ensures r.Ok? ==> SigSet(c, owner, nsec, types, r.value)
    ensures AllFound(s.objects, head, c.zone, owner, types) ==> r.Ok?
  {
    var sigs, left := [], types;
    assert types - left == {};
    while left != {}
      invariant left <= types && SigSet(c, owner, nsec, types - left, sigs)
      decreases left
    {
      var t :| t in left;
      SigStep(c, owner, nsec, types - left, sigs, t);
      assert types - left + {t} == types - (left - {t});
      left := left - {t};
      if t == "RRSIG" { continue; }
      var covered := CoveredRecords(s, head, c, codes, names, owner, types, t, nsec);
      if covered.Err? { return Err(covered.error); }
      sigs := sigs + [RRSIG(SigOwner(c, owner, t), t, t == "DNSKEY", covered.value)];
    }
    assert types - left == types;
    return Ok(sigs);
  }

  type Sigs = map<string, seq<RR>>

  function NsecValue(zone: string, vals: Values, o: string): seq<RR> {
    var k := Key(zone, o, "NSEC");
    if k in vals then vals[k] else []
  }

  /** Each of these owners has the signatures of all its types. */
  ghost predicate AllSigned(c: Signing, vals: Values, owners: Owners, done: set<string>, sigs: Sigs) {
    && sigs.Keys == done
    && forall o :: o in done && o in owners ==> SigSet(c, o, NsecValue(c.zone, vals, o), owners[o], sigs[o])
  }

  ghost predicate ChainNsecs(c: Signing, codes: map<string, nat>, names: seq<string>, owners: Owners, vals: Values) {
    forall o :: o in owners ==> NsecOf(codes, names, o, owners[o], NsecValue(c.zone, vals, o))
  }

  /** Marking the owners does not change what their bitmaps must say. */
  lemma ChainCoversMarked(c: Signing, codes: map<string, nat>, owners: Owners, names: seq<string>, vals: Values)
    requires Listing(owners.Keys, names) && ChainValues(c.zone, codes, owners, names, |names|, vals)
    ensures ChainNsecs(c, codes, names, WithNSEC(owners), vals)
  {
    var marked := WithNSEC(owners);
    forall o | o in marked ensures NsecOf(codes, names, o, marked[o], NsecValue(c.zone, vals, o)) {
      assert o in names;
      var i :| 0 <= i < |names| && names[i] == o;
      assert NsecAt(c.zone, codes, owners, names, vals, i);
      assert Signed(marked[o]) == Signed(owners[o]);
    }
  }

  lemma SignedStep(c: Signing, vals: Values, owners: Owners, done: set<string>, sigs: Sigs, o: string, some: seq<RR>)
    requires AllSigned(c, vals, owners, done, sigs)
    requires o in owners && SigSet(c, o, NsecValue(c.zone, vals, o), owners[o], some)
    ensures AllSigned(c, vals, owners, done + {o}, sigs[o := some])
  {
  }

  ghost predicate OwnersFound(objs: Objs, head: Hash, zone: string, owners: Owners) {
    forall o :: o in owners ==> AllFound(objs, head, zone, o, owners[o])
  }

  method SignOwners(s: Store, head: Hash, c: Signing, codes: map<string, nat>, names: seq<string>, owners: Owners,
      ghost vals: Values)
      returns (r: Result<Sigs>)
    requires Readable(s, head, c) && Ascending(names) && ChainNsecs(c, codes, names, owners, vals)
    ensures r.Ok? ==> AllSigned(c, vals, owners, owners.Keys, r.value)
    ensures OwnersFound(s.objects, head, c.zone, owners) ==> r.Ok?
  {
    var sigs: Sigs, left := map[], owners.Keys;
    assert owners.Keys - left == {};
    while left != {}
      invariant left <= owners.Keys && AllSigned(c, vals, owners, owners.Keys - left, sigs)
      decreases left
    {
      var o :| o in left;
      var some := SignOwner(s, head, c, codes, names, o, owners[o], NsecValue(c.zone, vals, o));
      if some.Err? { return Err(some.error); }
      SignedStep(c, vals, owners, owners.Keys - left, sigs, o, some.value);
      LessLeft(owners.Keys, left, o);
      sigs, left := sigs[o := some.value], left - {o};
    }
    LessLeft(owners.Keys, {}, "");
    return Ok(sigs);
  }

  /** The key of one of these owners. */
  ghost predicate KeyAmong(zone: string, rr: string, done: set<string>, k: StagingKey) {
    exists o :: o in done && k == Key(zone, o, rr)
  }

  /** The signature sets of these owners, and nothing else. */
  ghost predicate SigValues(zone: string, sigs: Sigs, done: set<string>, vals: Values) {
    && (forall o :: o in done && o in sigs ==> Key(zone, o, "RRSIG") in vals && vals[Key(zone, o, "RRSIG")] == sigs[o])
    && (forall k :: k in vals ==> KeyAmong(zone, "RRSIG", done, k))
  }

  lemma SigValuesStep(zone: string, sigs: Sigs, done: set<string>, vals: Values, o: string)
    requires SigValues(zone, sigs, done, vals) && done <= sigs.Keys && o in sigs && o !in done
    requires forall p :: p in sigs ==> SoundOwner(zone, p)
    ensures SigValues(zone, sigs, done + {o}, vals[Key(zone, o, "RRSIG") := sigs[o]])
  {
    var vals' := vals[Key(zone, o, "RRSIG") := sigs[o]];
    forall p | p in done + {o} && p in sigs
      ensures Key(zone, p, "RRSIG") in vals' && vals'[Key(zone, p, "RRSIG")] == sigs[p]
    {
      if p != o { KeysApart(zone, p, o, "RRSIG"); }
    }
    forall k | k in vals' ensures KeyAmong(zone, "RRSIG", done + {o}, k) {
      KeyAmongMore(zone, "RRSIG", done, o, k);
    }
  }

  lemma KeyAmongMore(zone: string, rr: string, done: set<string>, o: string, k: StagingKey)
    ensures KeyAmong(zone, rr, done, k) || k == Key(zone, o, rr) ==> KeyAmong(zone, rr, done + {o}, k)
  {
    assert o in done + {o};
    if KeyAmong(zone, rr, done, k) {
      var p :| p in done && k == Key(zone, p, rr);
      assert p in done + {o};
    }
  }

  /** A set of signatures can be staged when all carry the first one's owner. */
  predicate Uniform(sigs: seq<RR>) {
    sigs != [] && sigs[0].RRSIG? && OneOwner(sigs[0].owner, sigs)
  }

  /** The set belongs to this owner: one of its signatures carries the name. */
  ghost predicate NamedFor(o: string, sigs: seq<RR>) {
    && sigs != [] && (forall i :: 0 <= i < |sigs| ==> sigs[i].RRSIG? && FullOwner(sigs[i].owner) == sigs[i].owner)
    && exists i :: 0 <= i < |sigs| && sigs[i].owner == o
  }

  lemma UniformIsOwn(o: string, sigs: seq<RR>)
    requires NamedFor(o, sigs) && Uniform(sigs)
    ensures sigs[0].owner == o
  {
    var i :| 0 <= i < |sigs| && sigs[i].owner == o;
  }

  ghost predicate SigsReady(zone: string, sigs: Sigs) {
    forall o :: o in sigs ==> SoundOwner(zone, o) && NamedFor(o, sigs[o])
  }

  ghost predicate AllUniform(sigs: Sigs, done: set<string>) {
    forall o :: o in done && o in sigs ==> Uniform(sigs[o])
  }

  /** One call of Set for the signatures of an owner. */
  method StageSigSet(r: Repo, ghost o: string, some: seq<RR>, ghost base: Staged, ghost vals: Values)
      returns (res: Result<()>)
    requires SoundOwner(r.activeZone, o) && NamedFor(o, some) && r.activeZone != ""
    requires ContentAddressed(r.store.objects) && r.staging == base + StagedValues(vals)
    modifies r`staging, r.store`objects
    ensures res.Ok? <==> Uniform(some)
    ensures r.staging == base + StagedValues(if res.Ok? then vals[Key(r.activeZone, o, "RRSIG") := some] else vals)
    ensures ContentAddressed(r.store.objects) && Grows(old(r.store.objects), r.store.objects)
  {
    res := r.Set(some[0].owner, "RRSIG", some);
    if res.Ok? {
      UniformIsOwn(o, some);
      StageOneMore(base, vals, Key(r.activeZone, o, "RRSIG"), some);
    }
  }

  /** Stages the signature sets, one owner after another in any order; a set
      with mixed owner names is refused and ends the run where it is. */
  method StageSigs(r: Repo, sigs: Sigs, ghost base: Staged, ghost vals0: Values)
      returns (res: Result<()>, ghost done: set<string>, ghost vals: Values)
    requires SigsReady(r.activeZone, sigs)
    requires r.activeZone != "" && ContentAddressed(r.store.objects) && r.staging == base + StagedValues(vals0)
    modifies r`staging, r.store`objects
    ensures r.staging == base + StagedValues(vals0 + vals)
    ensures ContentAddressed(r.store.objects) && Grows(old(r.store.objects), r.store.objects)
    ensures done <= sigs.Keys && SigValues(r.activeZone, sigs, done, vals) && AllUniform(sigs, done)
    ensures res.Ok? <==> AllUniform(sigs, sigs.Keys)
    ensures res.Ok? <==> done == sigs.Keys
  {
    vals, done := map[], {};
    ghost var zone := r.activeZone;
    EmptySum(vals0);
    var left := sigs.Keys;
    while left != {}
      invariant left <= sigs.Keys && done == sigs.Keys - left && AllUniform(sigs, done)
      invariant ContentAddressed(r.store.objects) && Grows(old(r.store.objects), r.store.objects)
      invariant r.staging == base + StagedValues(vals0 + vals)
      invariant SigValues(zone, sigs, done, vals)
      decreases left
    {
      var o :| o in left;
      var some := sigs[o];
      res := StageSigSet(r, o, some, base, vals0 + vals);
      if res.Err? { return res, done, vals; }
      SigValuesStep(zone, sigs, done, vals, o);
      ghost var k := Key(zone, o, "RRSIG");
      ExtendSum(vals0, vals, k, some);
      vals := vals[k := some];
      LessLeft(sigs.Keys, left, o);
      left, done := left - {o}, done + {o};
    }
    return Ok(()), done, vals;
  }

  lemma LessLeft(all: set<string>, left: set<string>, o: string)
    requires left <= all
    ensures o in left ==> all - (left - {o}) == all - left + {o}
    ensures left == {} ==> all - left == all
  {
  }

  // ---------- the whole operation ----------

  /** Labels and types as names can spell them. */
  ghost predicate PlainTree(tree: Hash) {
    forall path: seq<string>, rr: string :: At(tree, path, rr).H? ==> PlainPath(path) && Upper(rr) == rr
  }

  /** `done` are the owners whose signature sets have been staged. */
  datatype Plan =
    Plan(heads: Owners, owners: Owners, names: seq<string>, chain: Values, sigs: Sigs, done: set<string>, vals: Values)

  /** What SignZone has put into the staging area when it ends: the key set, the
      whole chain, and the signature sets of some owners. */
  ghost predicate PartPlan(c: Signing, codes: map<string, nat>, p: Plan) {
    && OwnersOf(c.zone, Leaves([], Ents(c.tree)), p.heads)
    && p.owners == AddType(p.heads, c.zone, "DNSKEY")
    && SoundOwners(c.zone, p.owners)
    && Listing(p.owners.Keys, p.names)
    && ChainValues(c.zone, codes, p.owners, p.names, |p.names|, p.chain)
    && AllSigned(c, p.chain, WithNSEC(p.owners), p.owners.Keys, p.sigs)
    && p.done <= p.owners.Keys
    && exists sigVals: Values :: SigValues(c.zone, p.sigs, p.done, sigVals)
         && p.vals == KeyValues(c) + p.chain + sigVals
  }

  /** Everything SignZone puts into the staging area when it succeeds. */
  ghost predicate PlanFor(c: Signing, codes: map<string, nat>, p: Plan) {
    PartPlan(c, codes, p) && p.done == p.owners.Keys
  }

  /** No name below the apex has a key set of its own. */
  ghost predicate NoKeysBelow(tree: Hash) {
    forall path: seq<string> :: At(tree, path, "DNSKEY").H? ==> path == []
  }

  /** No owner but the apex lists the key set's type. */
  ghost predicate KeysAtApexOnly(zone: string, owners: Owners) {
    forall o :: o in owners && "DNSKEY" in owners[o] ==> o == zone
  }

  /** The signatures of an owner carry one name unless the owner lists a key set
      that is not the apex one. */
  lemma UniformIff(c: Signing, o: string, nsec: seq<RR>, types: set<string>, sigs: seq<RR>)
    requires SigSet(c, o, nsec, types, sigs) && "NSEC" in types && FullOwner(o) == o && FullOwner(c.zone) == c.zone
    ensures NamedFor(o, sigs)
    ensures Uniform(sigs) <==> ("DNSKEY" in types ==> o == c.zone)
  {
    var n, k := SigOf(c, o, nsec, "NSEC"), SigOf(c, o, nsec, "DNSKEY");
    assert n in sigs;
    var i :| 0 <= i < |sigs| && sigs[i] == n;
    if "DNSKEY" in types {
      assert k in sigs;
      var j :| 0 <= j < |sigs| && sigs[j] == k;
      if o == c.zone { AllNamed(c, o, nsec, types, sigs); }
    } else {
      AllNamed(c, o, nsec, types, sigs);
    }
  }

  lemma AllNamed(c: Signing, o: string, nsec: seq<RR>, types: set<string>, sigs: seq<RR>)
    requires SigSet(c, o, nsec, types, sigs) && ("DNSKEY" in types ==> o == c.zone)
    ensures forall i :: 0 <= i < |sigs| ==> sigs[i].RRSIG? && sigs[i].owner == o
  {
    forall i | 0 <= i < |sigs| ensures sigs[i].RRSIG? && sigs[i].owner == o { assert sigs[i] in sigs; }
  }

  /** Every set can be staged iff no owner but the apex has a key set. */
  lemma AllUniformIff(c: Signing, vals: Values, owners: Owners, sigs: Sigs)
    requires AllSigned(c, vals, owners, owners.Keys, sigs) && SoundOwners(c.zone, owners) && HaveNSEC(owners)
    requires FullOwner(c.zone) == c.zone
    ensures SigsReady(c.zone, sigs)
    ensures AllUniform(sigs, sigs.Keys) <==> KeysAtApexOnly(c.zone, owners)
  {
    forall o | o in owners
      ensures NamedFor(o, sigs[o]) && (Uniform(sigs[o]) <==> ("DNSKEY" in owners[o] ==> o == c.zone))
    {
      assert SoundOwner(c.zone, o);
      UniformIff(c, o, NsecValue(c.zone, vals, o), owners[o], sigs[o]);
    }
  }

  /** In terms of HEAD's map: no key set strictly below the apex. */
  lemma KeysAtApexIff(c: Signing, heads: Owners)
    requires CanonRoot(c.tree) && PlainTree(c.tree) && OwnersOf(c.zone, Leaves([], Ents(c.tree)), heads)
    ensures KeysAtApexOnly(c.zone, WithNSEC(AddType(heads, c.zone, "DNSKEY"))) <==> NoKeysBelow(c.tree)
  {
    var ls, owners := Leaves([], Ents(c.tree)), WithNSEC(AddType(heads, c.zone, "DNSKEY"));
    if KeysAtApexOnly(c.zone, owners) {
      forall path: seq<string> | At(c.tree, path, "DNSKEY").H? ensures path == [] {
        var o := OwnerFQDN(c.zone, path);
        Transfer.LeavesAre(c.tree, LeafRec(path, "DNSKEY", At(c.tree, path, "DNSKEY")));
        assert HasLeaf(c.zone, ls, o, "DNSKEY");
        assert Listed(heads, o, "DNSKEY");
        assert o in owners && "DNSKEY" in owners[o];
        OwnerIsApex(c.zone, path);
      }
    }
    if NoKeysBelow(c.tree) {
      forall o | o in owners && "DNSKEY" in owners[o] ensures o == c.zone {
        if Listed(heads, o, "DNSKEY") {
          var x :| x in ls && OwnerFQDN(c.zone, x.path) == o && x.rr == "DNSKEY";
          Transfer.LeavesAre(c.tree, x);
        }
      }
    }
  }

  lemma OwnerIsApex(zone: string, path: seq<string>)
    ensures OwnerFQDN(zone, path) == zone <==> path == []
  {
  }

  lemma HeadsSound(c: Signing, heads: Owners)
    requires CanonRoot(c.tree) && PlainTree(c.tree) && CanonZone(c.zone) == c.zone && c.zone != ""
    requires OwnersOf(c.zone, Leaves([], Ents(c.tree)), heads)
    ensures SoundOwners(c.zone, AddType(heads, c.zone, "DNSKEY"))
    ensures forall o :: o in heads ==> exists path :: PlainPath(path) && OwnerFQDN(c.zone, path) == o
  {
    var ls := Leaves([], Ents(c.tree));
    forall o | o in heads
      ensures SoundOwner(c.zone, o) && exists path :: PlainPath(path) && OwnerFQDN(c.zone, path) == o
    {
      var t :| t in heads[o];
      assert Listed(heads, o, t);
      var x :| x in ls && OwnerFQDN(c.zone, x.path) == o && x.rr == t;
      Transfer.LeavesAre(c.tree, x);
      PlainOwnerSound(c.zone, x.path);
    }
    PlainOwnerSound(c.zone, []);
  }

  /** Every type HEAD has can be looked up under the name the signer uses. */
  lemma HeadTypesFound(objs: Objs, head: Hash, c: Signing, heads: Owners)
    requires Transfer.ZoneStored(objs, head) && c.tree == CommitTree(head) && PlainTree(c.tree)
    requires OwnersOf(c.zone, Leaves([], Ents(c.tree)), heads)
    ensures OwnersFound(objs, head, c.zone, WithNSEC(AddType(heads, c.zone, "DNSKEY")))
  {
    var owners := WithNSEC(AddType(heads, c.zone, "DNSKEY"));
    forall o, t | o in owners && t in owners[o] && t !in ["DNSKEY", "NSEC", "RRSIG"]
      ensures Transfer.LookupOf(objs, head, RelPath(c.zone, o), Upper(t)).Ok?
    {
      assert Listed(heads, o, t);
      LeafFound(objs, head, c, o, t);
    }
  }

  lemma LeafFound(objs: Objs, head: Hash, c: Signing, o: string, t: string)
    requires Transfer.ZoneStored(objs, head) && c.tree == CommitTree(head) && PlainTree(c.tree)
    requires HasLeaf(c.zone, Leaves([], Ents(c.tree)), o, t)
    ensures Transfer.LookupOf(objs, head, RelPath(c.zone, o), Upper(t)).Ok?
  {
    assert head in Ancs(head);
    Transfer.StoredAncestor(objs, head, head);
    assert Transfer.BlobsIn(objs, c.tree);
    var x :| x in Leaves([], Ents(c.tree)) && OwnerFQDN(c.zone, x.path) == o && x.rr == t;
    Transfer.LeavesAre(c.tree, x);
    RelPathOf(c.zone, x.path);
  }

  lemma ZoneStoredKept(a: Objs, b: Objs, head: Hash)
    requires Grows(a, b) && ContentAddressed(b) && Transfer.ZoneStored(a, head)
    ensures Transfer.ZoneStored(b, head)
  {
    WellStoredKept(a, b, head);
    forall x | x in Ancs(head) ensures Transfer.BlobsIn(b, CommitTree(x)) {
      assert Transfer.BlobsIn(a, CommitTree(x));
    }
  }

  ghost predicate HaveNSEC(owners: Owners) {
    forall o :: o in owners ==> "NSEC" in owners[o]
  }

  lemma MarkedHaveNSEC(zone: string, owners: Owners)
    requires SoundOwners(zone, owners)
    ensures HaveNSEC(WithNSEC(owners)) && SoundOwners(zone, WithNSEC(owners)) && WithNSEC(owners).Keys == owners.Keys
  {
  }

  function KeyValues(c: Signing): Values {
    map[Key(c.zone, c.zone, "DNSKEY") := c.dnskeys]
  }

  /** Stages the key set at the apex and lists its type there. */
  method StageKeys(r: Repo, c: Signing, heads: Owners) returns (owners: Owners)
    requires c.zone == r.activeZone && SoundOwner(c.zone, c.zone) && c.zone != "" && KeySet(c.dnskeys)
    requires ContentAddressed(r.store.objects)
    modifies r`staging, r.store`objects
    ensures owners == AddType(heads, c.zone, "DNSKEY")
    ensures r.staging == old(r.staging) + StagedValues(KeyValues(c))
    ensures ContentAddressed(r.store.objects) && Grows(old(r.store.objects), r.store.objects)
  {
    ghost var base := r.staging;
    NothingStaged(base);
    StageOne(r, c.zone, "DNSKEY", c.dnskeys, base, map[]);
    assert map[][Key(c.zone, c.zone, "DNSKEY") := c.dnskeys] == KeyValues(c);
    owners := heads;
    if c.zone !in owners { owners := owners[c.zone := {}]; }
    owners := owners[c.zone := owners[c.zone] + {"DNSKEY"}];
  }

  /** Signs every owner and stages the signature sets, as far as they are
      accepted. */
  method StageAllSigs(r: Repo, head: Hash, c: Signing, codes: map<string, nat>, names: seq<string>, marked: Owners,
      ghost base: Staged, ghost chain: Values)
      returns (res: Result<()>, ghost sigs: Sigs, ghost done: set<string>, ghost sigVals: Values)
    requires c.zone == r.activeZone && c.zone != "" && Readable(r.store, head, c)
    requires Ascending(names) && HaveNSEC(marked) && ChainNsecs(c, codes, names, marked, chain)
    requires SoundOwners(c.zone, marked) && FullOwner(c.zone) == c.zone
    requires OwnersFound(r.store.objects, head, c.zone, marked)
    requires r.staging == base + StagedValues(KeyValues(c) + chain)
    modifies r`staging, r.store`objects
    ensures AllSigned(c, chain, marked, marked.Keys, sigs)
    ensures done <= marked.Keys && SigValues(c.zone, sigs, done, sigVals) && AllUniform(sigs, done)
    ensures res.Ok? <==> KeysAtApexOnly(c.zone, marked)
    ensures res.Ok? <==> done == marked.Keys
    ensures r.staging == base + StagedValues(KeyValues(c) + chain + sigVals)
    ensures ContentAddressed(r.store.objects) && Grows(old(r.store.objects), r.store.objects)
  {
    var all := SignOwners(r.store, head, c, codes, names, marked, chain);
    var some := all.value;
    sigs := some;
    AllUniformIff(c, chain, marked, sigs);
    res, done, sigVals := StageSigs(r, some, base, KeyValues(c) + chain);
  }

  /** Stages the key set, the chain and the signatures of a zone whose owners
      have been collected. */
  method StageSigned(r: Repo, head: Hash, c: Signing, codes: map<string, nat>, heads: Owners)
      returns (res: Result<()>, ghost p: Plan)
    requires c.zone == r.activeZone && CanonZone(c.zone) == c.zone && c.zone != "" && KeySet(c.dnskeys)
    requires Transfer.ZoneStored(r.store.objects, head) && c.tree == CommitTree(head) && PlainTree(c.tree)
    requires OwnersOf(c.zone, Leaves([], Ents(c.tree)), heads)
    modifies r`staging, r.store`objects
    ensures PartPlan(c, codes, p) && AllUniform(p.sigs, p.done)
    ensures res.Ok? <==> NoKeysBelow(c.tree)
    ensures res.Ok? <==> p.done == p.owners.Keys
    ensures r.staging == old(r.staging) + StagedValues(p.vals)
    ensures ContentAddressed(r.store.objects) && Grows(old(r.store.objects), r.store.objects)
  {
    ghost var base, objs := r.staging, r.store.objects;
    HeadReady(objs, head, c, heads);
    var owners := StageKeys(r, c, heads);
    var names := SortedNames(owners.Keys);
    ghost var objs1 := r.store.objects;
    var marked, chain := StageChain(r, codes, owners, names, base, KeyValues(c));
    ghost var objs2 := r.store.objects;
    GrowsOn(objs, objs1, objs2);
    ChainCoversMarked(c, codes, owners, names, chain);
    ZoneStoredKept(objs, objs2, head);
    HeadReady(objs2, head, c, heads);
    ghost var sigs: Sigs, done: set<string>, sigVals: Values;
    MarkedHaveNSEC(c.zone, owners);
    KeysAtApexIff(c, heads);
    res, sigs, done, sigVals := StageAllSigs(r, head, c, codes, names, marked, base, chain);
    GrowsOn(objs, objs2, r.store.objects);
    p := Plan(heads, owners, names, chain, sigs, done, KeyValues(c) + chain + sigVals);
  }

  lemma HeadReady(objs: Objs, head: Hash, c: Signing, heads: Owners)
    requires CanonZone(c.zone) == c.zone && c.zone != ""
    requires Transfer.ZoneStored(objs, head) && c.tree == CommitTree(head) && PlainTree(c.tree)
    requires OwnersOf(c.zone, Leaves([], Ents(c.tree)), heads)
    ensures Holds(objs, head) && IsCommit(head.obj) && GoodTree(objs, c.tree)
    ensures SoundOwners(c.zone, AddType(heads, c.zone, "DNSKEY")) && SoundOwner(c.zone, c.zone)
    ensures OwnersFound(objs, head, c.zone, WithNSEC(AddType(heads, c.zone, "DNSKEY")))
  {
    assert head in Ancs(head);
    Transfer.StoredAncestor(objs, head, head);
    HeadsSound(c, heads);
    HeadTypesFound(objs, head, c, heads);
  }

  lemma NothingStaged(base: Staged)
    ensures base + StagedValues(map[]) == base
  {
  }

  /** HEAD's zone is fully stored, with names and types as Set writes them. */
  ghost predicate Signable(objs: Objs, refs: map<string, Hash>) {
    var hd := ReadHEAD(objs, refs);
    hd.Ok? && hd.value.commit.H? ==>
      Transfer.ZoneStored(objs, hd.value.commit) && PlainTree(CommitTree(hd.value.commit))
  }

  function HeadCommit(objs: Objs, refs: map<string, Hash>): Hash {
    var hd := ReadHEAD(objs, refs);
    if hd.Ok? then hd.value.commit else Zero
  }

  lemma NoLeavesIffEmpty(tree: Hash, zone: string, heads: Owners)
    requires CanonRoot(tree) && OwnersOf(zone, Leaves([], Ents(tree)), heads)
    ensures heads == map[] <==> EmptyMap(tree)
  {
    var ls := Leaves([], Ents(tree));
    if heads != map[] {
      var o :| o in heads;
      var t :| t in heads[o];
      assert Listed(heads, o, t);
      var x :| x in ls && OwnerFQDN(zone, x.path) == o && x.rr == t;
      Transfer.LeavesAre(tree, x);
    }
    forall path: seq<string>, rr: string | At(tree, path, rr).H? ensures heads != map[] {
      Transfer.LeavesAre(tree, LeafRec(path, rr, At(tree, path, rr)));
      assert HasLeaf(zone, ls, OwnerFQDN(zone, path), rr);
      assert Listed(heads, OwnerFQDN(zone, path), rr);
    }
  }

  /** HEAD's zone is found and has records, so that staging begins. */
  ghost predicate Begins(zone: string, head: Hash) {
    zone != "" && head.H? && !EmptyMap(CommitTree(head))
  }

  /** Stages a signed view of HEAD's zone. A key set below the apex makes it fail
      after the key set, the chain and some signature sets have been staged. */
  method SignZone(r: Repo, dnskeys: seq<RR>, codes: map<string, nat>) returns (res: Result<()>, ghost p: Plan)
    requires CanonZone(r.activeZone) == r.activeZone && KeySet(dnskeys)
    requires Signable(r.store.objects, r.store.refs)
    modifies r`staging, r.store`objects
    ensures
      var head := HeadCommit(old(r.store.objects), r.store.refs);
      && (res.Ok? <==> Begins(r.activeZone, head) && NoKeysBelow(CommitTree(head)))
      && (!Begins(r.activeZone, head) ==> r.staging == old(r.staging))
      && (Begins(r.activeZone, head) ==>
            && PartPlan(Signing(CommitTree(head), r.activeZone, dnskeys), codes, p) && AllUniform(p.sigs, p.done)
            && (res.Ok? <==> p.done == p.owners.Keys)
            && r.staging == old(r.staging) + StagedValues(p.vals)
            && ContentAddressed(r.store.objects))
    ensures Grows(old(r.store.objects), r.store.objects)
  {
    p := Plan(map[], map[], [], map[], map[], {}, map[]);
    if r.activeZone == "" { return Err(Refused), p; }
    var hd := ReadHEAD(r.store.objects, r.store.refs);
    if hd.Err? { return Err(hd.error), p; }
    var head := hd.value.commit;
    if head.Zero? { return Err(Refused), p; }
    var heads := ReadOwners(r.store, r.activeZone, head);
    if heads.Err? { return Err(heads.error), p; }
    res, p := StageSigned(r, head, Signing(CommitTree(head), r.activeZone, dnskeys), codes, heads.value);
  }

  /** A zone whose only record set is a key set at "sub". */
  function KeysAtSub(blob: Hash): Hash {
    H(Tree([Entry(Subtree, "sub", H(Tree([Entry(Leaf, "DNSKEY", blob)])))]))
  }

  /** With such a HEAD staging begins, and by the contract of SignZone it then
      fails: a zone that Set accepts cannot be signed. */
  lemma KeySetBelowApexRefused(zone: string, head: Hash, blob: Hash)
    requires zone != "" && head.H? && blob.H? && CommitTree(head) == KeysAtSub(blob)
    ensures CanonRoot(CommitTree(head)) && PlainTree(CommitTree(head))
    ensures Begins(zone, head) && !NoKeysBelow(CommitTree(head))
  {
    var tree := KeysAtSub(blob);
    forall path: seq<string>, rr: string
      ensures At(tree, path, rr) == if path == ["sub"] && rr == "DNSKEY" then blob else Zero
    {
      KeysAtSubMap(blob, path, rr);
    }
    assert At(tree, ["sub"], "DNSKEY").H?;
    assert Lower("sub") == "sub" && Upper("DNSKEY") == "DNSKEY";
  }

  lemma KeysAtSubMap(blob: Hash, path: seq<string>, rr: string)
    ensures At(KeysAtSub(blob), path, rr) == if path == ["sub"] && rr == "DNSKEY" then blob else Zero
  {
    var inner := [Entry(Leaf, "DNSKEY", blob)];
    var outer := [Entry(Subtree, "sub", H(Tree(inner)))];
    assert inner[1..] == [] && outer[1..] == [];
    FindHead(outer, FirstKind(path), FirstName(path, rr));
    AtEDown(outer, path, rr);
    DownZero(path, rr);
    if path != [] {
      var more := path[1..];
      assert path == [path[0]] + more;
      FindHead(inner, FirstKind(more), FirstName(more, rr));
      AtEDown(inner, more, rr);
      DownZero(more, rr);
    }
  }

  /** The owners of a commit's zone; a zone without records is refused. */
  method ReadOwners(s: Store, zone: string, head: Hash) returns (r: Result<Owners>)
    requires Transfer.ZoneStored(s.objects, head)
    ensures r.Ok? <==> !EmptyMap(CommitTree(head))
    ensures r.Ok? ==> OwnersOf(zone, Leaves([], Ents(CommitTree(head))), r.value)
  {
    assert head in Ancs(head);
    Transfer.StoredAncestor(s.objects, head, head);
    var tree := TreeOf(s.objects, head);
    if tree.Zero? { ZeroIsEmpty(); return Err(Refused); }
    var leaves := WalkAllLeaves(s, tree);
    if leaves.Err? { return Err(NotFound); }
    var heads := CollectOwners(zone, leaves.value);
    NoLeavesIffEmpty(tree, zone, heads);
    if heads == map[] { return Err(Refused); }
    return Ok(heads);
  }

  lemma ZeroIsEmpty()
    ensures EmptyMap(Zero)
  {
    forall path: seq<string>, rr: string ensures At(Zero, path, rr) == Zero { AtENothing(path, rr); }
  }
}

