/** What a zone holds after its signed view has been staged and committed. */
module SignedZone {
  import opened Objects
  import opened MemStore
  import opened TreeReads
  import opened Names
  import opened Refs
  import opened Staging
  import opened Repo
  import opened NsecChain
  import opened ZoneSign
  import Transfer
  import Zone

  // ---------- the staged values, key by key ----------

  ghost predicate Context(c: Signing, codes: map<string, nat>, p: Plan) {
    && CanonRoot(c.tree) && PlainTree(c.tree) && CanonZone(c.zone) == c.zone && c.zone != ""
    && NoKeysBelow(c.tree) && PlanFor(c, codes, p)
  }

  /** The zone was signed with nothing else staged, and then committed. */
  ghost predicate SignedAndCommitted(objs: Objs, c: Signing, codes: map<string, nat>, p: Plan, tree: Hash) {
    && Context(c, codes, p) && ContentAddressed(objs)
    && CommitMap(objs, StagedValues(p.vals), c.tree, tree)
  }

  /** Keys of sound owners name their owner. */
  lemma KeyAmongOwners(zone: string, rr: string, owners: Owners, o: string)
    requires SoundOwners(zone, owners) && SoundOwner(zone, o)
    ensures KeyAmong(zone, rr, owners.Keys, Key(zone, o, rr)) <==> o in owners
  {
    if KeyAmong(zone, rr, owners.Keys, Key(zone, o, rr)) {
      var q :| q in owners.Keys && Key(zone, o, rr) == Key(zone, q, rr);
      if q != o { KeysApart(zone, q, o, rr); }
    }
  }

  lemma ChainKey(c: Signing, codes: map<string, nat>, p: Plan, k: StagingKey)
    requires PlanFor(c, codes, p)
    ensures k in p.chain <==> k.rr == "NSEC" && KeyAmong(c.zone, "NSEC", p.owners.Keys, k)
  {
    if k in p.chain { ChainKeyOwned(c.zone, codes, p.owners, p.names, p.chain, k); }
    if KeyAmong(c.zone, "NSEC", p.owners.Keys, k) {
      var o :| o in p.owners.Keys && k == Key(c.zone, o, "NSEC");
      OwnerInChain(c.zone, codes, p.owners, p.names, p.chain, o);
    }
  }

  lemma ChainKeyOwned(zone: string, codes: map<string, nat>, owners: Owners, names: seq<string>, chain: Values,
      k: StagingKey)
    requires Listing(owners.Keys, names) && ChainValues(zone, codes, owners, names, |names|, chain) && k in chain
    ensures k.rr == "NSEC" && KeyAmong(zone, "NSEC", owners.Keys, k)
  {
    var o :| o in names[..|names|] && k == Key(zone, o, "NSEC");
    assert o in names;
  }

  lemma OwnerInChain(zone: string, codes: map<string, nat>, owners: Owners, names: seq<string>, chain: Values,
      o: string)
    requires Listing(owners.Keys, names) && ChainValues(zone, codes, owners, names, |names|, chain) && o in owners
    ensures Key(zone, o, "NSEC") in chain
  {
    assert o in names;
    var i :| 0 <= i < |names| && names[i] == o;
    assert NsecAt(zone, codes, owners, names, chain, i);
  }

  /** What is staged at an owner: the key set at the apex, an NSEC and a
      signature set at every owner, and nothing else. */
  lemma ValueAt(c: Signing, codes: map<string, nat>, p: Plan, o: string, rr: string)
    requires Context(c, codes, p) && SoundOwner(c.zone, o)
    ensures
      var k := Key(c.zone, o, rr);
      && (rr == "DNSKEY" ==> if o == c.zone then k in p.vals && p.vals[k] == c.dnskeys else k !in p.vals)
      && (rr == "NSEC" ==>
            if o in p.owners then k in p.vals && p.vals[k] == NsecValue(c.zone, p.chain, o) else k !in p.vals)
      && (rr == "RRSIG" ==>
            if o in p.owners then o in p.sigs && k in p.vals && p.vals[k] == p.sigs[o] else k !in p.vals)
      && (rr != "DNSKEY" && rr != "NSEC" && rr != "RRSIG" ==> k !in p.vals)
  {
    var k := Key(c.zone, o, rr);
    var sigVals: Values :|
      SigValues(c.zone, p.sigs, p.done, sigVals) && p.vals == KeyValues(c) + p.chain + sigVals;
    ChainKey(c, codes, p, k);
    KeyAmongOwners(c.zone, rr, p.owners, o);
    assert SoundOwner(c.zone, c.zone);
    if o != c.zone { KeysApart(c.zone, o, c.zone, rr); }
    assert p.sigs.Keys == p.owners.Keys;
    assert k in sigVals ==> KeyAmong(c.zone, "RRSIG", p.owners.Keys, k);
  }

  /** A normal name with a type other than SOA. */
  predicate SignerKey(k: StagingKey) {
    Normal(k.fqdn) && k.rr != "SOA"
  }

  lemma AmongIsSigner(zone: string, rr: string, owners: Owners, k: StagingKey)
    requires SoundOwners(zone, owners) && KeyAmong(zone, rr, owners.Keys, k) && rr != "SOA"
    ensures SignerKey(k)
  {
  }

  lemma PlanKey(c: Signing, codes: map<string, nat>, p: Plan, k: StagingKey)
    requires Context(c, codes, p) && k in p.vals
    ensures SignerKey(k)
  {
    var sigVals: Values :|
      SigValues(c.zone, p.sigs, p.done, sigVals) && p.vals == KeyValues(c) + p.chain + sigVals;
    ChainKey(c, codes, p, k);
    assert p.sigs.Keys == p.owners.Keys;
    if k in sigVals {
      AmongIsSigner(c.zone, "RRSIG", p.owners, k);
    } else if k in p.chain {
      AmongIsSigner(c.zone, "NSEC", p.owners, k);
    } else {
      assert SoundOwner(c.zone, c.zone);
    }
  }

  lemma StagedKeysNormal(c: Signing, codes: map<string, nat>, p: Plan)
    requires Context(c, codes, p)
    ensures NormalKeys(StagedValues(p.vals)) && SOA_KEY !in p.vals && p.vals != map[]
  {
    forall k | k in p.vals ensures SignerKey(k) { PlanKey(c, codes, p, k); }
    assert !SignerKey(SOA_KEY);
    ApexStaged(c, codes, p);
  }

  lemma ApexStaged(c: Signing, codes: map<string, nat>, p: Plan)
    requires Context(c, codes, p)
    ensures Key(c.zone, c.zone, "DNSKEY") in p.vals
  {
    assert SoundOwner(c.zone, c.zone);
    ValueAt(c, codes, p, c.zone, "DNSKEY");
  }

  // ---------- the committed map ----------

  function SOAAfter(tree: Hash): Hash {
    var soa := At(tree, [], "SOA");
    var bumped := Zone.BumpSOASerial(Transfer.Rrs(soa));
    if soa.Zero? || bumped.Err? then soa else H(Blob(bumped.value))
  }

  /** The value of a key after the commit. */
  function ValueAfter(c: Signing, p: Plan, path: seq<string>, rr: string): Hash {
    var o := OwnerFQDN(c.zone, path);
    if path == [] && rr == "SOA" then SOAAfter(c.tree)
    else if path == [] && rr == "DNSKEY" then H(Blob(c.dnskeys))
    else if rr == "NSEC" && o in p.owners then H(Blob(NsecValue(c.zone, p.chain, o)))
    else if rr == "RRSIG" && o in p.owners then H(Blob(if o in p.sigs then p.sigs[o] else []))
    else At(c.tree, path, rr)
  }

  lemma SignerValues(c: Signing, p: Plan, path: seq<string>)
    requires OwnerFQDN(c.zone, path) in p.owners
    ensures
      var o := OwnerFQDN(c.zone, path);
      && ValueAfter(c, p, path, "NSEC") == H(Blob(NsecValue(c.zone, p.chain, o)))
      && (o in p.sigs ==> ValueAfter(c, p, path, "RRSIG") == H(Blob(p.sigs[o])))
  {
  }

  lemma BumpedApart(objs: Objs, c: Signing, codes: map<string, nat>, p: Plan)
    requires Context(c, codes, p) && ContentAddressed(objs) && BumpedStaging(objs, StagedValues(p.vals), c.tree).Ok?
    ensures
      var m, b := StagedValues(p.vals), BumpedStaging(objs, StagedValues(p.vals), c.tree).value;
      && (forall k :: k != SOA_KEY ==> (k in b <==> k in m) && (k in m ==> b[k] == m[k]))
      && (if At(c.tree, [], "SOA").Zero? then SOA_KEY !in b else SOA_KEY in b && b[SOA_KEY] == Stage(SOAAfter(c.tree)))
  {
    StagedKeysNormal(c, codes, p);
    StagedValuesKeys(p.vals);
    OnlySOABumped(objs, StagedValues(p.vals), c.tree);
  }

  lemma OnlySOABumped(objs: Objs, m: Staged, tree: Hash)
    requires ContentAddressed(objs) && m != map[] && SOA_KEY !in m && BumpedStaging(objs, m, tree).Ok?
    ensures
      var b := BumpedStaging(objs, m, tree).value;
      && (forall k :: k != SOA_KEY ==> (k in b <==> k in m) && (k in m ==> b[k] == m[k]))
      && (if At(tree, [], "SOA").Zero? then SOA_KEY !in b else SOA_KEY in b && b[SOA_KEY] == Stage(SOAAfter(tree)))
  {
  }

  lemma CommittedAt(objs: Objs, c: Signing, codes: map<string, nat>, p: Plan, tree: Hash, path: seq<string>, rr: string)
    requires SignedAndCommitted(objs, c, codes, p, tree) && PlainPath(path)
    ensures At(tree, path, rr) == ValueAfter(c, p, path, rr)
  {
    var o := OwnerFQDN(c.zone, path);
    var k := StagingKey(NameOf(path), rr);
    var was := At(c.tree, path, rr);
    var b := BumpedStaging(objs, StagedValues(p.vals), c.tree).value;
    StagedKeysNormal(c, codes, p);
    OwnerRoundTrip(c.zone, path);
    PlainOwnerSound(c.zone, path);
    assert k == Key(c.zone, o, rr) && PathOf(k.fqdn) == path;
    ValueAt(c, codes, p, o, rr);
    BumpedApart(objs, c, codes, p);
    ApexOnly(c.zone, path, rr);
    assert At(tree, path, rr) == StagedAt(b, path, rr, was);
  }

  /** The SOA record is the one before signing, with the next serial. */
  lemma CommittedSOA(objs: Objs, c: Signing, codes: map<string, nat>, p: Plan, tree: Hash, serial: nat, rest: string)
    requires SignedAndCommitted(objs, c, codes, p, tree)
    requires At(c.tree, [], "SOA") == H(Blob([SOA(serial, rest)]))
    ensures At(tree, [], "SOA") == H(Blob([SOA((serial + 1) % 0x1_0000_0000, rest)]))
  {
    StagedKeysNormal(c, codes, p);
    StagedValuesKeys(p.vals);
    CommitBumpsSOA(objs, StagedValues(p.vals), c.tree, tree, serial, rest);
  }

  lemma ApexOnly(zone: string, path: seq<string>, rr: string)
    requires PlainPath(path)
    ensures OwnerFQDN(zone, path) == zone <==> path == []
    ensures StagingKey(NameOf(path), rr) == SOA_KEY <==> path == [] && rr == "SOA"
  {
    if path != [] { PlainName(path); } else { assert NameOf(path) == ""; }
  }

  // ---------- names, types and bitmaps ----------

  /** The signer's table of types is HEAD's flat map. */
  lemma OwnerTypes(c: Signing, codes: map<string, nat>, p: Plan, path: seq<string>, t: string)
    requires Context(c, codes, p) && PlainPath(path)
    ensures Listed(p.heads, OwnerFQDN(c.zone, path), t) <==> At(c.tree, path, t).H?
  {
    var o, ls := OwnerFQDN(c.zone, path), Leaves([], Ents(c.tree));
    if HasLeaf(c.zone, ls, o, t) {
      var x :| x in ls && OwnerFQDN(c.zone, x.path) == o && x.rr == t;
      Transfer.LeavesAre(c.tree, x);
      OwnerRoundTrip(c.zone, path);
      OwnerRoundTrip(c.zone, x.path);
    }
    if At(c.tree, path, t).H? {
      var x := LeafRec(path, t, At(c.tree, path, t));
      Transfer.LeavesAre(c.tree, x);
      assert HasLeaf(c.zone, ls, o, t);
    }
  }

  lemma ListedTypes(c: Signing, codes: map<string, nat>, p: Plan, path: seq<string>, t: string)
    requires Context(c, codes, p) && PlainPath(path)
    ensures Listed(p.owners, OwnerFQDN(c.zone, path), t) <==> At(c.tree, path, t).H? || (path == [] && t == "DNSKEY")
  {
    OwnerTypes(c, codes, p, path, t);
    ApexOnly(c.zone, path, t);
  }

  lemma ValueAfterTypes(c: Signing, p: Plan, path: seq<string>, t: string)
    requires c.zone in p.owners && (OwnerFQDN(c.zone, path) == c.zone <==> path == [])
    requires Listed(p.owners, OwnerFQDN(c.zone, path), t) <==> At(c.tree, path, t).H? || (path == [] && t == "DNSKEY")
    ensures ValueAfter(c, p, path, t).H? <==>
              var o := OwnerFQDN(c.zone, path); o in p.owners && t in Signed(p.owners[o])
  {
  }

  /** After the commit a name carries exactly the types the signer listed for
      it, plus NSEC and RRSIG; names without records gain none. */
  lemma TypesAfter(objs: Objs, c: Signing, codes: map<string, nat>, p: Plan, tree: Hash, path: seq<string>, t: string)
    requires SignedAndCommitted(objs, c, codes, p, tree) && PlainPath(path)
    ensures At(tree, path, t).H? <==>
              var o := OwnerFQDN(c.zone, path); o in p.owners && t in Signed(p.owners[o])
  {
    CommittedAt(objs, c, codes, p, tree, path, t);
    ListedTypes(c, codes, p, path, t);
    ApexOnly(c.zone, path, t);
    ValueAfterTypes(c, p, path, t);
  }

  /** `b` lists in ascending order the codes of the types at a name. */
  ghost predicate ListsTypesAt(codes: map<string, nat>, tree: Hash, path: seq<string>, b: seq<nat>) {
    Rising(b) && forall code: nat :: code in b <==> exists t :: At(tree, path, t).H? && t in codes && codes[t] == code
  }

  lemma BitmapLists(codes: map<string, nat>, types: set<string>, b: seq<nat>, tree: Hash, path: seq<string>)
    requires IsBitmap(codes, types, b) && forall t :: At(tree, path, t).H? <==> t in types
    ensures ListsTypesAt(codes, tree, path, b)
  {
    forall code: nat ensures code in b <==> exists t :: At(tree, path, t).H? && t in codes && codes[t] == code {
      if t :| t in types && t in codes && codes[t] == code { assert At(tree, path, t).H?; }
    }
  }

  lemma AllTypesAfter(objs: Objs, c: Signing, codes: map<string, nat>, p: Plan, tree: Hash, path: seq<string>)
    requires SignedAndCommitted(objs, c, codes, p, tree) && PlainPath(path) && OwnerFQDN(c.zone, path) in p.owners
    ensures forall t :: At(tree, path, t).H? <==> t in Signed(p.owners[OwnerFQDN(c.zone, path)])
  {
    forall t ensures At(tree, path, t).H? <==> t in Signed(p.owners[OwnerFQDN(c.zone, path)]) {
      TypesAfter(objs, c, codes, p, tree, path, t);
    }
  }

  lemma PlannedNsec(c: Signing, codes: map<string, nat>, p: Plan, o: string)
    requires PlanFor(c, codes, p) && o in p.owners
    ensures NsecOf(codes, p.names, o, p.owners[o], NsecValue(c.zone, p.chain, o))
  {
    assert o in p.names;
    var i :| 0 <= i < |p.names| && p.names[i] == o;
    assert NsecAt(c.zone, codes, p.owners, p.names, p.chain, i);
  }

  /** The records are one NSEC that points from `o` to the next name. */
  ghost predicate PointsOn(names: seq<string>, o: string, rrs: seq<RR>) {
    && |rrs| == 1 && rrs[0].NSEC?
    && exists i :: 0 <= i < |names| && names[i] == o && rrs[0].next == Next(names, i)
  }

  /** Every name with records has one NSEC record; it points to the next owner
      in the cycle, and its bitmap lists exactly the types that are there. */
  lemma BitmapsTellTheTypes(objs: Objs, c: Signing, codes: map<string, nat>, p: Plan, tree: Hash, path: seq<string>,
      t: string)
    requires SignedAndCommitted(objs, c, codes, p, tree) && PlainPath(path) && At(tree, path, t).H?
    ensures
      var nsec := Transfer.Rrs(At(tree, path, "NSEC"));
      PointsOn(p.names, OwnerFQDN(c.zone, path), nsec) && ListsTypesAt(codes, tree, path, nsec[0].types)
  {
    var o := OwnerFQDN(c.zone, path);
    TypesAfter(objs, c, codes, p, tree, path, t);
    NsecStored(objs, c, codes, p, tree, path);
    AllTypesAfter(objs, c, codes, p, tree, path);
    NsecMeans(codes, p.names, o, p.owners[o], Transfer.Rrs(At(tree, path, "NSEC")), tree, path);
  }

  lemma NsecStored(objs: Objs, c: Signing, codes: map<string, nat>, p: Plan, tree: Hash, path: seq<string>)
    requires SignedAndCommitted(objs, c, codes, p, tree) && PlainPath(path) && OwnerFQDN(c.zone, path) in p.owners
    ensures
      var o := OwnerFQDN(c.zone, path);
      NsecOf(codes, p.names, o, p.owners[o], Transfer.Rrs(At(tree, path, "NSEC")))
  {
    CommittedAt(objs, c, codes, p, tree, path, "NSEC");
    SignerValues(c, p, path);
    PlannedNsec(c, codes, p, OwnerFQDN(c.zone, path));
  }

  lemma NsecMeans(codes: map<string, nat>, names: seq<string>, o: string, types: set<string>, nsec: seq<RR>,
      tree: Hash, path: seq<string>)
    requires NsecOf(codes, names, o, types, nsec) && forall t :: At(tree, path, t).H? <==> t in Signed(types)
    ensures PointsOn(names, o, nsec) && ListsTypesAt(codes, tree, path, nsec[0].types)
  {
    BitmapLists(codes, Signed(types), nsec[0].types, tree, path);
  }

  // ---------- the committed chain ----------

  function NextOf(rrs: seq<RR>): string {
    if |rrs| == 1 && rrs[0].NSEC? then rrs[0].next else ""
  }

  function NsecOwners(zone: string, tree: Hash): set<string> {
    set x | x in Leaves([], Ents(tree)) && x.rr == "NSEC" :: OwnerFQDN(zone, x.path)
  }

  /** From owner to next name, read off the NSEC records in a tree. */
  function NsecLinks(zone: string, tree: Hash): map<string, string> {
    map o | o in NsecOwners(zone, tree) :: NextOf(Transfer.Rrs(At(tree, RelPath(zone, o), "NSEC")))
  }

  lemma OwnerHasPath(c: Signing, codes: map<string, nat>, p: Plan, o: string) returns (path: seq<string>)
    requires Context(c, codes, p) && o in p.owners
    ensures PlainPath(path) && OwnerFQDN(c.zone, path) == o
  {
    HeadsSound(c, p.heads);
    if o in p.heads {
      path :| PlainPath(path) && OwnerFQDN(c.zone, path) == o;
    } else {
      path := [];
    }
  }

  lemma PlanKeyOwned(c: Signing, codes: map<string, nat>, p: Plan, k: StagingKey)
    requires Context(c, codes, p) && k in p.vals
    ensures KeyAmong(c.zone, k.rr, p.owners.Keys, k)
  {
    var sigVals: Values :|
      SigValues(c.zone, p.sigs, p.done, sigVals) && p.vals == KeyValues(c) + p.chain + sigVals;
    if k in sigVals {
      assert p.sigs.Keys == p.owners.Keys;
      KeyAmongIts(c.zone, "RRSIG", p.owners.Keys, k);
    } else if k in p.chain {
      ChainKey(c, codes, p, k);
    } else {
      assert KeyAmong(c.zone, "DNSKEY", p.owners.Keys, Key(c.zone, c.zone, "DNSKEY"));
      KeyAmongIts(c.zone, "DNSKEY", p.owners.Keys, k);
    }
  }

  lemma KeyAmongIts(zone: string, rr: string, owners: set<string>, k: StagingKey)
    requires KeyAmong(zone, rr, owners, k)
    ensures k.rr == rr && KeyAmong(zone, k.rr, owners, k)
  {
  }

  /** A staged key leads back to the plain path of its owner. */
  lemma PlanKeyPlain(c: Signing, codes: map<string, nat>, p: Plan, k: StagingKey)
    requires Context(c, codes, p) && k in p.vals
    ensures PlainPath(PathOf(k.fqdn))
  {
    PlanKeyOwned(c, codes, p, k);
    var o :| o in p.owners.Keys && k == Key(c.zone, o, k.rr);
    var path := OwnerHasPath(c, codes, p, o);
    OwnerRoundTrip(c.zone, path);
  }

  /** Signing and committing adds no record under a name that is not plain. */
  lemma CommittedPlain(objs: Objs, c: Signing, codes: map<string, nat>, p: Plan, tree: Hash, path: seq<string>,
      rr: string)
    requires SignedAndCommitted(objs, c, codes, p, tree) && At(tree, path, rr).H?
    ensures PlainPath(path)
  {
    var b := BumpedStaging(objs, StagedValues(p.vals), c.tree).value;
    var k := StagingKey(NameOf(path), rr);
    StagedKeysNormal(c, codes, p);
    BumpedApart(objs, c, codes, p);
    assert At(tree, path, rr) == StagedAt(b, path, rr, At(c.tree, path, rr));
    if k in b && PathOf(k.fqdn) == path {
      if k == SOA_KEY {
        assert PathOf("") == [] by { assert Lower("") == ""; }
      } else {
        PlanKeyPlain(c, codes, p, k);
      }
    }
  }

  /** The owners of NSEC records in the tree are the names with records. */
  lemma NsecOwnersAre(objs: Objs, c: Signing, codes: map<string, nat>, p: Plan, tree: Hash)
    requires SignedAndCommitted(objs, c, codes, p, tree)
    ensures NsecOwners(c.zone, tree) == p.owners.Keys
  {
    forall o | o in NsecOwners(c.zone, tree) ensures o in p.owners.Keys {
      var x :| x in Leaves([], Ents(tree)) && x.rr == "NSEC" && OwnerFQDN(c.zone, x.path) == o;
      Transfer.LeavesAre(tree, x);
      CommittedPlain(objs, c, codes, p, tree, x.path, "NSEC");
      TypesAfter(objs, c, codes, p, tree, x.path, "NSEC");
    }
    forall o | o in p.owners.Keys ensures o in NsecOwners(c.zone, tree) {
      var path := OwnerHasPath(c, codes, p, o);
      TypesAfter(objs, c, codes, p, tree, path, "NSEC");
      Transfer.LeavesAre(tree, LeafRec(path, "NSEC", At(tree, path, "NSEC")));
    }
  }

  /** The committed records link the sorted owner list up. */
  lemma CommittedLinks(objs: Objs, c: Signing, codes: map<string, nat>, p: Plan, tree: Hash)
    requires SignedAndCommitted(objs, c, codes, p, tree)
    ensures LinksUp(p.names, NsecLinks(c.zone, tree))
    ensures NsecLinks(c.zone, tree).Keys == p.owners.Keys && Listing(p.owners.Keys, p.names)
  {
    NsecOwnersAre(objs, c, codes, p, tree);
    LinkKeys(c.zone, tree);
    forall i | 0 <= i < |p.names| ensures LinkAt(p.names, NsecLinks(c.zone, tree), i) {
      CommittedLink(objs, c, codes, p, tree, i);
    }
  }

  lemma LinkKeys(zone: string, tree: Hash)
    ensures NsecLinks(zone, tree).Keys == NsecOwners(zone, tree)
  {
  }

  lemma CommittedLink(objs: Objs, c: Signing, codes: map<string, nat>, p: Plan, tree: Hash, i: nat)
    requires SignedAndCommitted(objs, c, codes, p, tree) && i < |p.names|
    requires NsecOwners(c.zone, tree) == p.owners.Keys
    ensures LinkAt(p.names, NsecLinks(c.zone, tree), i)
  {
    var o := p.names[i];
    assert o in p.names;
    var path := OwnerHasPath(c, codes, p, o);
    RelPathOf(c.zone, path);
    NsecStored(objs, c, codes, p, tree, path);
    NextInPlace(codes, p.names, p.owners[o], Transfer.Rrs(At(tree, path, "NSEC")), i);
  }

  lemma NextInPlace(codes: map<string, nat>, names: seq<string>, types: set<string>, nsec: seq<RR>, i: nat)
    requires Ascending(names) && i < |names| && NsecOf(codes, names, names[i], types, nsec)
    ensures NextOf(nsec) == Next(names, i)
  {
    var j :| 0 <= j < |names| && names[j] == names[i] && IsNsec(codes, Signed(types), Next(names, j), nsec);
    if j != i { DistinctNames(names, i, j); }
  }

  /** The NSEC records of the committed zone form one cycle through all names
      with records. */
  lemma CommittedChainIsOneCycle(objs: Objs, c: Signing, codes: map<string, nat>, p: Plan, tree: Hash, owner: string)
    requires SignedAndCommitted(objs, c, codes, p, tree) && owner in NsecLinks(c.zone, tree)
    ensures
      var links := NsecLinks(c.zone, tree);
      && Follow(links, owner, |links|) == owner
      && (forall k :: 0 < k < |links| ==> Follow(links, owner, k) != owner)
      && (forall o :: o in links ==> Meets(links, owner, |links|, o))
  {
    var links := NsecLinks(c.zone, tree);
    CommittedLinks(objs, c, codes, p, tree);
    ListingSize(p.owners.Keys, p.names);
    assert |links| == |links.Keys|;
    OneCycle(p.owners.Keys, p.names, links, owner);
  }

  /** The committed records form a chain in the order of section 6.1 of RFC 4034
      iff the canonical listing of the owners is the byte-sorted one up to where
      it starts. */
  lemma CommittedChainCanonicalIff(objs: Objs, c: Signing, codes: map<string, nat>, p: Plan, tree: Hash,
      canon: seq<string>)
    requires SignedAndCommitted(objs, c, codes, p, tree) && CanonListing(p.owners.Keys, canon)
    ensures LinksUp(canon, NsecLinks(c.zone, tree)) <==> IsRotation(p.names, canon)
  {
    CommittedLinks(objs, c, codes, p, tree);
    assert c.zone in p.owners.Keys && c.zone in p.names;
    CanonicalChainIff(p.owners.Keys, p.names, canon, NsecLinks(c.zone, tree));
  }

  /** The names on the chain are those with records of any type. */
  lemma OnChainIffHasRecords(objs: Objs, c: Signing, codes: map<string, nat>, p: Plan, tree: Hash, path: seq<string>)
    requires SignedAndCommitted(objs, c, codes, p, tree) && PlainPath(path)
    ensures OwnerFQDN(c.zone, path) in NsecLinks(c.zone, tree) <==> exists t :: At(tree, path, t).H?
  {
    NsecOwnersAre(objs, c, codes, p, tree);
    TypesAfter(objs, c, codes, p, tree, path, "NSEC");
    if t :| At(tree, path, t).H? { TypesAfter(objs, c, codes, p, tree, path, t); }
  }

  /** Exactly one NSEC record denies x. */
  ghost predicate DeniedOnce(links: map<string, string>, x: string) {
    exists o :: o in links && Covers(o, links[o], x) && forall q :: q in links && Covers(q, links[q], x) ==> q == o
  }

  ghost predicate NeverDenied(links: map<string, string>, x: string) {
    forall o :: o in links ==> !Covers(o, links[o], x)
  }

  /** The committed NSEC records deny a name exactly when it has no records,
      and then only one of them does. */
  lemma DenialIsExact(objs: Objs, c: Signing, codes: map<string, nat>, p: Plan, tree: Hash, path: seq<string>)
    requires SignedAndCommitted(objs, c, codes, p, tree) && PlainPath(path)
    ensures (exists t :: At(tree, path, t).H?) ==> NeverDenied(NsecLinks(c.zone, tree), OwnerFQDN(c.zone, path))
    ensures (forall t :: At(tree, path, t).Zero?) ==> DeniedOnce(NsecLinks(c.zone, tree), OwnerFQDN(c.zone, path))
  {
    OnChainIffHasRecords(objs, c, codes, p, tree, path);
    CommittedLinks(objs, c, codes, p, tree);
    LinksDeny(p.owners.Keys, p.names, NsecLinks(c.zone, tree), c.zone, OwnerFQDN(c.zone, path));
  }

  lemma LinksDeny(owners: set<string>, names: seq<string>, links: map<string, string>, zone: string, x: string)
    requires Listing(owners, names) && LinksUp(names, links) && links.Keys == owners && zone in owners
    ensures if x in owners then NeverDenied(links, x) else DeniedOnce(links, x)
  {
    assert zone in names;
    ExactlyOneGap(owners, names, x);
    forall j | 0 <= j < |names| ensures Denies(names, j, x) <==> Covers(names[j], links[names[j]], x) {
      assert LinkAt(names, links, j);
    }
    if x in owners {
      forall o | o in links ensures !Covers(o, links[o], x) {
        var j :| 0 <= j < |names| && names[j] == o;
        assert !Denies(names, j, x);
      }
    } else {
      var i :| 0 <= i < |names| && Denies(names, i, x)
               && forall j :: 0 <= j < |names| && Denies(names, j, x) ==> j == i;
      forall q | q in links && Covers(q, links[q], x) ensures q == names[i] {
        var j :| 0 <= j < |names| && names[j] == q;
        assert Denies(names, j, x);
      }
      assert names[i] in owners;
    }
  }

  // ---------- signatures ----------

  /** The signatures stored at a name for a type. */
  function SigsFor(tree: Hash, path: seq<string>, t: string): set<RR> {
    SigsOn(Transfer.Rrs(At(tree, path, "RRSIG")), t)
  }

  function SigsOn(rrs: seq<RR>, t: string): set<RR> {
    set x | x in rrs && x.RRSIG? && x.covered == t
  }

  lemma OneSig(c: Signing, o: string, nsec: seq<RR>, types: set<string>, sigs: seq<RR>, t: string)
    requires SigSet(c, o, nsec, types, sigs) && t in types && t != "RRSIG"
    ensures SigsOn(sigs, t) == {SigOf(c, o, nsec, t)}
  {
  }

  lemma OneSigIn(c: Signing, o: string, nsec: seq<RR>, types: set<string>, sigs: seq<RR>, tree: Hash,
      path: seq<string>, t: string)
    requires SigSet(c, o, nsec, types, sigs) && t in types && t != "RRSIG"
    requires At(tree, path, "RRSIG") == H(Blob(sigs))
    ensures SigsFor(tree, path, t) == {SigOf(c, o, nsec, t)}
  {
    OneSig(c, o, nsec, types, sigs, t);
  }

  lemma PlannedSigs(c: Signing, codes: map<string, nat>, p: Plan, o: string)
    requires PlanFor(c, codes, p) && o in p.owners
    ensures o in p.sigs && SigSet(c, o, NsecValue(c.zone, p.chain, o), p.owners[o] + {"NSEC"}, p.sigs[o])
  {
    assert o in WithNSEC(p.owners);
  }

  lemma SigsCommitted(objs: Objs, c: Signing, codes: map<string, nat>, p: Plan, tree: Hash, path: seq<string>)
    requires SignedAndCommitted(objs, c, codes, p, tree) && PlainPath(path) && OwnerFQDN(c.zone, path) in p.owners
    ensures
      var o := OwnerFQDN(c.zone, path);
      && o in p.sigs && At(tree, path, "RRSIG") == H(Blob(p.sigs[o]))
      && SigSet(c, o, NsecValue(c.zone, p.chain, o), p.owners[o] + {"NSEC"}, p.sigs[o])
  {
    CommittedAt(objs, c, codes, p, tree, path, "RRSIG");
    SignerValues(c, p, path);
    PlannedSigs(c, codes, p, OwnerFQDN(c.zone, path));
  }

  lemma SigStored(objs: Objs, c: Signing, codes: map<string, nat>, p: Plan, tree: Hash, path: seq<string>, t: string)
    requires SignedAndCommitted(objs, c, codes, p, tree) && PlainPath(path)
    requires At(tree, path, t).H? && t != "RRSIG"
    ensures
      var o := OwnerFQDN(c.zone, path);
      SigsFor(tree, path, t) == {SigOf(c, o, NsecValue(c.zone, p.chain, o), t)}
  {
    var o := OwnerFQDN(c.zone, path);
    TypesAfter(objs, c, codes, p, tree, path, t);
    SigsCommitted(objs, c, codes, p, tree, path);
    OneSigIn(c, o, NsecValue(c.zone, p.chain, o), p.owners[o] + {"NSEC"}, p.sigs[o], tree, path, t);
  }

  /** When the signature made for a set is over the set the commit stores. */
  predicate StillCovered(path: seq<string>, t: string) {
    !(path == [] && t == "SOA")
  }

  lemma CoverMatches(c: Signing, p: Plan, path: seq<string>, t: string)
    requires RelPath(c.zone, OwnerFQDN(c.zone, path)) == path && OwnerFQDN(c.zone, path) in p.owners
    requires At(c.tree, path, t).H? ==> Upper(t) == t
    requires ValueAfter(c, p, path, t).H? && t != "RRSIG" && NoKeysBelow(c.tree)
    requires path == [] && t == "SOA" ==> Transfer.Rrs(SOAAfter(c.tree)) != Transfer.Rrs(At(c.tree, [], "SOA"))
    ensures
      var o := OwnerFQDN(c.zone, path);
      var covered := CoverOf(c, o, NsecValue(c.zone, p.chain, o), t);
      covered == Transfer.Rrs(ValueAfter(c, p, path, t)) <==> StillCovered(path, t)
  {
  }

  /** Every record set but the signatures has exactly one signature beside it.
      That signature is over the records now stored exactly when the set is not
      the apex SOA, whose serial the commit moves on after it was signed. */
  lemma SignaturesHold(objs: Objs, c: Signing, codes: map<string, nat>, p: Plan, tree: Hash, path: seq<string>,
      t: string)
    requires SignedAndCommitted(objs, c, codes, p, tree) && PlainPath(path)
    requires At(tree, path, t).H? && t != "RRSIG"
    ensures exists x: RR :: SigsFor(tree, path, t) == {x} && x.RRSIG? && (x.ksk <==> t == "DNSKEY")
                            && x.owner == OwnerFQDN(c.zone, path)
                            && (x.over == Transfer.Rrs(At(tree, path, t)) <==> StillCovered(path, t))
  {
    var o := OwnerFQDN(c.zone, path);
    SigStored(objs, c, codes, p, tree, path, t);
    CoverStored(objs, c, codes, p, tree, path, t);
  }

  lemma CoverStored(objs: Objs, c: Signing, codes: map<string, nat>, p: Plan, tree: Hash, path: seq<string>, t: string)
    requires SignedAndCommitted(objs, c, codes, p, tree) && PlainPath(path)
    requires At(tree, path, t).H? && t != "RRSIG"
    ensures
      var o := OwnerFQDN(c.zone, path);
      && SigOwner(c, o, t) == o
      && (CoverOf(c, o, NsecValue(c.zone, p.chain, o), t) == Transfer.Rrs(At(tree, path, t)) <==> StillCovered(path, t))
  {
    CommittedAt(objs, c, codes, p, tree, path, t);
    TypesAfter(objs, c, codes, p, tree, path, t);
    RelPathOf(c.zone, path);
    if path == [] && t == "SOA" { SOAMoved(objs, c, codes, p); }
    CoverMatches(c, p, path, t);
  }

  lemma SOAMoved(objs: Objs, c: Signing, codes: map<string, nat>, p: Plan)
    requires Context(c, codes, p) && ContentAddressed(objs) && BumpedStaging(objs, StagedValues(p.vals), c.tree).Ok?
    requires At(c.tree, [], "SOA").H?
    ensures Transfer.Rrs(SOAAfter(c.tree)) != Transfer.Rrs(At(c.tree, [], "SOA"))
  {
    StagedKeysNormal(c, codes, p);
    StagedValuesKeys(p.vals);
    BumpWorked(objs, StagedValues(p.vals), c.tree);
    BumpDiffers(Transfer.Rrs(At(c.tree, [], "SOA")));
  }

  lemma StagedValuesKeys(vals: Values)
    ensures StagedValues(vals).Keys == vals.Keys
    ensures vals != map[] ==> StagedValues(vals) != map[]
  {
    if vals != map[] {
      var k :| k in vals;
      assert k in StagedValues(vals);
    }
  }

  lemma BumpWorked(objs: Objs, m: Staged, tree: Hash)
    requires ContentAddressed(objs) && m != map[] && SOA_KEY !in m
    requires At(tree, [], "SOA").H? && BumpedStaging(objs, m, tree).Ok?
    ensures Zone.BumpSOASerial(Transfer.Rrs(At(tree, [], "SOA"))).Ok?
  {
  }

  lemma BumpDiffers(rrs: seq<RR>)
    ensures Zone.BumpSOASerial(rrs).Ok? ==> Zone.BumpSOASerial(rrs).value != rrs
  {
  }

  // ---------- the two operations in sequence ----------

  /** Signs HEAD's zone on an empty staging area: nothing but the plan is staged
      afterwards, and HEAD is where it was. */
  method SignAlone(r: Repo, dnskeys: seq<RR>, codes: map<string, nat>)
      returns (res: Result<()>, ghost c: Signing, ghost p: Plan)
    requires RepoInv(r.store.objects, r.store.refs) && Signable(r.store.objects, r.store.refs)
    requires r.staging == map[] && CanonZone(r.activeZone) == r.activeZone && KeySet(dnskeys)
    modifies r`staging, r.store`objects
    ensures RepoInv(r.store.objects, r.store.refs)
    ensures c == Signing(CommitTree(HeadCommit(old(r.store.objects), r.store.refs)), r.activeZone, dnskeys)
    ensures res.Ok? ==>
              && r.staging == StagedValues(p.vals) && Context(c, codes, p)
              && ReadHEAD(old(r.store.objects), r.store.refs).Ok?
              && ReadHEAD(r.store.objects, r.store.refs) == ReadHEAD(old(r.store.objects), r.store.refs)
  {
    ghost var objs0 := r.store.objects;
    c := Signing(CommitTree(HeadCommit(objs0, r.store.refs)), r.activeZone, dnskeys);
    res, p := SignZone(r, dnskeys, codes);
    GrowthKeepsInv(objs0, r.store.objects, r.store.refs);
    if res.Ok? {
      HeadKept(objs0, r.store.objects, r.store.refs);
      HeadIsBranch(objs0, r.store.refs);
      StagedAlone(p.vals);
    }
  }

  lemma StagedAlone(vals: Values)
    ensures map[] + StagedValues(vals) == StagedValues(vals)
  {
  }

  /** Signs HEAD's zone on an empty staging area and commits the result. */
  method SignAndCommit(r: Repo, dnskeys: seq<RR>, codes: map<string, nat>, meta: Meta)
      returns (res: Result<Hash>, ghost c: Signing, ghost p: Plan, ghost objs: Objs)
    requires RepoInv(r.store.objects, r.store.refs) && Signable(r.store.objects, r.store.refs)
    requires r.staging == map[] && CanonZone(r.activeZone) == r.activeZone && KeySet(dnskeys)
    modifies r`staging, r.store
    ensures res.Err? || meta.legible ==> RepoInv(r.store.objects, r.store.refs)
    ensures res.Ok? ==>
              var hd := ReadHEAD(old(r.store.objects), old(r.store.refs));
              && hd.Ok? && IsChildOf(res.value, hd.value.commit)
              && r.store.refs == old(r.store.refs)[BranchRef(hd.value.zone, hd.value.branch) := res.value]
              && c == Signing(CommitTree(hd.value.commit), r.activeZone, dnskeys)
              && SignedAndCommitted(objs, c, codes, p, res.value.obj.tree)
    ensures res.Err? ==> r.store.refs == old(r.store.refs)
  {
    var signed;
    signed, c, p := SignAlone(r, dnskeys, codes);
    objs := r.store.objects;
    if signed.Err? { return Err(signed.error), c, p, objs; }
    InvMeansHeadTreeGood(r.store.objects, r.store.refs);
    res := r.Commit(meta);
  }

  lemma HeadKept(a: Objs, b: Objs, refs: map<string, Hash>)
    requires Grows(a, b) && ContentAddressed(a) && ReadHEAD(a, refs).Ok?
    ensures ReadHEAD(b, refs) == ReadHEAD(a, refs)
  {
    assert Holds(a, refs[HEAD]);
  }
}
