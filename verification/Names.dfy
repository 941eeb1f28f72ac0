/** Owner names and tree paths (helpers of pkg/repo/repo.go and
    pkg/zonesign/zonesign.go). Case folding covers ASCII. */
module Names {
  import opened Objects

  function LowerChar(c: char): char {
    if 'A' <= c <= 'Z' then c + 32 as char else c
  }

  function UpperChar(c: char): char {
    if 'a' <= c <= 'z' then c - 32 as char else c
  }

  function Lower(s: string): (t: string)
    ensures |t| == |s| && forall i :: 0 <= i < |s| ==> t[i] == LowerChar(s[i])
  {
    seq(|s|, i requires 0 <= i < |s| => LowerChar(s[i]))
  }

  function Upper(s: string): (t: string)
    ensures |t| == |s| && forall i :: 0 <= i < |s| ==> t[i] == UpperChar(s[i])
  {
    seq(|s|, i requires 0 <= i < |s| => UpperChar(s[i]))
  }

  /** The same characters up to the case of ASCII letters. */
  predicate CaseVariants(a: string, b: string) {
    && |a| == |b|
    && forall i :: 0 <= i < |a| ==>
         || a[i] == b[i]
         || ('A' <= a[i] <= 'Z' && b[i] as int == a[i] as int + 32)
         || ('A' <= b[i] <= 'Z' && a[i] as int == b[i] as int + 32)
  }

  /** Folding leaves no capital letter, and makes two strings equal exactly when
      they differ in case alone. */
  lemma FoldsCase(a: string, b: string)
    ensures forall i :: 0 <= i < |Lower(a)| ==> !('A' <= Lower(a)[i] <= 'Z')
    ensures Lower(a) == Lower(b) <==> CaseVariants(a, b)
  {
    if Lower(a) == Lower(b) {
      forall i | 0 <= i < |a| ensures LowerChar(a[i]) == LowerChar(b[i]) { assert Lower(a)[i] == Lower(b)[i]; }
    }
  }

  predicate HasSuffix(s: string, t: string) {
    |t| <= |s| && s[|s| - |t|..] == t
  }

  function TrimSuffix(s: string, t: string): string {
    if HasSuffix(s, t) then s[..|s| - |t|] else s
  }

  predicate HasPrefix(s: string, t: string) {
    t <= s
  }

  function TrimPrefix(s: string, t: string): string {
    if HasPrefix(s, t) then s[|t|..] else s
  }

  /** Index of the last `c`, or -1. */
  function LastIndex(s: string, c: char): (i: int)
    ensures -1 <= i < |s|
    ensures i >= 0 ==> s[i] == c
    ensures forall j :: i < j < |s| ==> s[j] != c
    decreases |s|
  {
    if s == "" then -1
    else if s[|s| - 1] == c then |s| - 1
    else LastIndex(s[..|s| - 1], c)
  }

  // ---------- relative names ----------

  /** Lower-cases, drops one trailing dot and reads "@" as the apex. */
  function NormFQDN(s: string): string {
    var t := TrimSuffix(Lower(s), ".");
    if t == "@" then "" else t
  }

  /** The part of a fully qualified owner in front of the zone. */
  function StripZoneSuffix(owner: string, zone: string): string {
    if owner == zone then ""
    else if HasSuffix(owner, "." + zone) then TrimSuffix(owner, "." + zone)
    else if HasSuffix(owner, zone) then TrimSuffix(owner, zone)
    else TrimSuffix(owner, ".")
  }

  /** Go's strings.Split at dots. */
  function SplitDots(s: string): (parts: seq<string>)
    ensures |parts| >= 1
  {
    if s == "" then [""]
    else
      var rest := SplitDots(s[1..]);
      if s[0] == '.' then [""] + rest else [[s[0]] + rest[0]] + rest[1..]
  }

  function JoinDots(parts: seq<string>): string {
    if parts == [] then "" else if |parts| == 1 then parts[0] else parts[0] + "." + JoinDots(parts[1..])
  }

  function Reverse<T>(s: seq<T>): (r: seq<T>)
    ensures |r| == |s| && forall i :: 0 <= i < |s| ==> r[i] == s[|s| - 1 - i]
  {
    seq(|s|, i requires 0 <= i < |s| => s[|s| - 1 - i])
  }

  lemma ReverseTwice<T>(s: seq<T>)
    ensures Reverse(Reverse(s)) == s
  {
  }

  /** The tree path of a relative name, apex-nearest label first. */
  function PathOf(fqdn: string): seq<string> {
    var n := NormFQDN(fqdn);
    if n == "" then [] else Reverse(SplitDots(n))
  }

  /** The relative name of a tree path. */
  function NameOf(path: seq<string>): string {
    JoinDots(Reverse(path))
  }

  lemma {:induction false} JoinSplit(s: string)
    ensures JoinDots(SplitDots(s)) == s
    decreases |s|
  {
    if s != "" {
      var rest := SplitDots(s[1..]);
      JoinSplit(s[1..]);
      assert s == [s[0]] + s[1..];
      if s[0] == '.' {
        assert ([""] + rest)[1..] == rest;
      } else if |rest| > 1 {
        assert ([[s[0]] + rest[0]] + rest[1..])[1..] == rest[1..];
        assert JoinDots(rest) == rest[0] + "." + JoinDots(rest[1..]);
        assert ([s[0]] + rest[0]) + "." + JoinDots(rest[1..]) == [s[0]] + JoinDots(rest);
      }
    }
  }

  predicate Dotless(parts: seq<string>) {
    forall i :: 0 <= i < |parts| ==> '.' !in parts[i]
  }

  lemma {:induction false} SplitLabel(a: string, s: string)
    requires '.' !in a
    ensures SplitDots(a) == [a]
    ensures SplitDots(a + "." + s) == [a] + SplitDots(s)
    decreases |a|
  {
    if a == "" {
      assert ("." + s)[1..] == s;
      assert "" + "." + s == "." + s;
    } else {
      SplitLabel(a[1..], s);
      assert (a + "." + s)[1..] == a[1..] + "." + s;
      assert a == [a[0]] + a[1..];
    }
  }

  lemma {:induction false} SplitJoin(parts: seq<string>)
    requires parts != [] && Dotless(parts)
    ensures SplitDots(JoinDots(parts)) == parts
    decreases |parts|
  {
    if |parts| > 1 {
      SplitLabel(parts[0], JoinDots(parts[1..]));
      SplitJoin(parts[1..]);
      assert parts == [parts[0]] + parts[1..];
    } else {
      SplitLabel(parts[0], "");
      assert parts == [parts[0]];
    }
  }

  /** A name already in the form the staging area uses. */
  predicate Normal(fqdn: string) {
    NormFQDN(fqdn) == fqdn
  }

  /** A lower-case name is normal unless it ends in a dot or is the apex mark. */
  lemma NormalIff(fqdn: string)
    requires Lower(fqdn) == fqdn
    ensures Normal(fqdn) <==> fqdn != "@" && !HasSuffix(fqdn, ".")
  {
    var t := TrimSuffix(fqdn, ".");
    assert HasSuffix(fqdn, ".") ==> |t| == |fqdn| - 1;
  }

  /** Normalising once is enough exactly for names without two dots at the end. */
  lemma NormalisedIff(fqdn: string)
    ensures Normal(NormFQDN(fqdn)) <==> !HasSuffix(fqdn, "..")
  {
    var l := Lower(fqdn);
    var t := TrimSuffix(l, ".");
    assert Lower("") == "";
    assert Lower(t) == t;
    TwoDots(fqdn);
    NormalIff(t);
    EndsWith(t, '.');
  }

  lemma TwoDots(fqdn: string)
    ensures HasSuffix(TrimSuffix(Lower(fqdn), "."), ".") <==> HasSuffix(fqdn, "..")
  {
    var l := Lower(fqdn);
    EndsWith(l, '.');
    EndsWith(TrimSuffix(l, "."), '.');
    if |fqdn| >= 2 {
      var end := fqdn[|fqdn| - 2..];
      assert end == [fqdn[|fqdn| - 2], fqdn[|fqdn| - 1]];
      assert ".." == ['.', '.'];
    }
  }

  lemma EndsWith(s: string, c: char)
    ensures HasSuffix(s, [c]) <==> s != "" && s[|s| - 1] == c
  {
    if s != "" { assert s[|s| - 1..] == [s[|s| - 1]]; }
  }

  /** Different staged names never share a path. */
  lemma PathDeterminesName(fqdn: string)
    requires Normal(fqdn)
    ensures NameOf(PathOf(fqdn)) == fqdn
  {
    if fqdn != "" {
      ReverseTwice(SplitDots(fqdn));
      JoinSplit(fqdn);
    }
  }

  // ---------- a path as an owner name and back ----------

  /** The labels of a path joined from the far end, as the zone signer's
      backward loop does: nothing is put in front of the first non-empty one. */
  function OwnerLabels(path: seq<string>): string {
    if path == [] then ""
    else
      var out := OwnerLabels(path[1..]);
      if out == "" then path[0] else out + "." + path[0]
  }

  /** The zone signer's owner name of a path. */
  function OwnerFQDN(zone: string, path: seq<string>): string {
    if path == [] then zone else OwnerLabels(path) + "." + zone
  }

  method BuildOwner(zone: string, path: seq<string>) returns (owner: string)
    ensures owner == OwnerFQDN(zone, path)
  {
    if |path| == 0 { return zone; }
    var out, i := "", |path|;
    while i > 0
      invariant 0 <= i <= |path| && out == OwnerLabels(path[i..])
    {
      i := i - 1;
      assert path[i..][1..] == path[i + 1..];
      out := if out == "" then path[i] else out + "." + path[i];
    }
    assert path[0..] == path;
    return out + "." + zone;
  }

  lemma {:induction false} JoinSnoc(parts: seq<string>, x: string)
    requires parts != []
    ensures JoinDots(parts + [x]) == JoinDots(parts) + "." + x
    decreases |parts|
  {
    assert (parts + [x])[1..] == parts[1..] + [x];
    if |parts| > 1 {
      JoinSnoc(parts[1..], x);
    } else {
      assert parts[1..] + [x] == [x];
    }
  }

  /** On non-empty labels the loop spells the relative name. */
  lemma {:induction false} OwnerLabelsName(path: seq<string>)
    requires forall i :: 0 <= i < |path| ==> path[i] != ""
    ensures OwnerLabels(path) == NameOf(path)
    ensures path != [] ==> OwnerLabels(path) != ""
    decreases |path|
  {
    if |path| > 1 {
      OwnerLabelsName(path[1..]);
      assert Reverse(path) == Reverse(path[1..]) + [path[0]];
      JoinSnoc(Reverse(path[1..]), path[0]);
    } else if |path| == 1 {
      assert Reverse(path) == path && path[1..] == [];
    }
  }

  /** Labels a tree can hold and a name can spell: non-empty, without dots or
      upper case, and not the lone apex mark. */
  predicate PlainPath(path: seq<string>) {
    && Dotless(path)
    && (forall i :: 0 <= i < |path| ==> path[i] != "" && Lower(path[i]) == path[i])
    && path != ["@"]
  }

  lemma {:induction false} JoinFacts(parts: seq<string>)
    requires parts != []
    requires forall i :: 0 <= i < |parts| ==> parts[i] != "" && Lower(parts[i]) == parts[i]
    ensures JoinDots(parts) != "" && Lower(JoinDots(parts)) == JoinDots(parts)
    ensures Dotless(parts) ==> JoinDots(parts)[|JoinDots(parts)| - 1] != '.'
    decreases |parts|
  {
    if |parts| > 1 {
      JoinFacts(parts[1..]);
      LowerConcat(parts[0] + ".", JoinDots(parts[1..]));
      LowerConcat(parts[0], ".");
      assert Lower(".") == ".";
    }
  }

  lemma LowerConcat(a: string, b: string)
    ensures Lower(a + b) == Lower(a) + Lower(b)
  {
  }

  /** The relative name of a plain path is normal and spells that path. */
  lemma PlainName(path: seq<string>)
    requires PlainPath(path) && path != []
    ensures Normal(NameOf(path)) && PathOf(NameOf(path)) == path
    ensures NameOf(path) != "" && NameOf(path) != "@" && Lower(NameOf(path)) == NameOf(path)
  {
    var parts := Reverse(path);
    var n := JoinDots(parts);
    JoinFacts(parts);
    SplitJoin(parts);
    ReverseTwice(path);
    assert !HasSuffix(n, ".") by { assert n[|n| - 1..] == [n[|n| - 1]]; }
    SplitLabel("@", "");
    assert n == "@" ==> parts == ["@"];
    assert parts == ["@"] ==> Reverse(parts) == ["@"];
  }

  lemma StripOwner(zone: string, n: string)
    ensures StripZoneSuffix(n + "." + zone, zone) == n
  {
    var owner := n + "." + zone;
    assert owner == n + ("." + zone);
    assert |owner| > |zone| && HasSuffix(owner, "." + zone);
  }

  /** What is staged for an owner: the apex itself, the part in front of the
      zone, with or without the dot between them, and any other name without
      its final dot. */
  lemma StripZone(zone: string, x: string)
    ensures StripZoneSuffix(zone, zone) == ""
    ensures StripZoneSuffix(x + "." + zone, zone) == x
    ensures x != "" && !HasSuffix(x, ".") ==> StripZoneSuffix(x + zone, zone) == x
    ensures !HasSuffix(x + ".", zone) ==> StripZoneSuffix(x + ".", zone) == x
    ensures !HasSuffix(x, zone) && !HasSuffix(x, ".") ==> StripZoneSuffix(x, zone) == x
  {
    StripOwner(zone, x);
    if x != "" && !HasSuffix(x, ".") { DotIn(x, zone); }
    assert (x + zone)[..|x + zone| - |zone|] == x;
    assert HasSuffix(x + ".", ".") && (x + ".")[..|x|] == x;
    assert forall s :: HasSuffix(s, "." + zone) ==> HasSuffix(s, zone) by {
      forall s | HasSuffix(s, "." + zone) ensures HasSuffix(s, zone) {
        assert s[|s| - |zone| - 1..][1..] == s[|s| - |zone|..];
      }
    }
  }

  /** A name that ends in the zone without a dot before it, as of another zone,
      is staged under the same key as the name inside the zone. */
  lemma ForeignOwnerCollides(zone: string, x: string)
    requires x != "" && !HasSuffix(x, ".")
    ensures StripZoneSuffix(x + zone, zone) == StripZoneSuffix(x + "." + zone, zone) && x + zone != x + "." + zone
  {
    StripZone(zone, x);
    assert |x + zone| != |x + "." + zone|;
  }

  lemma DotIn(x: string, zone: string)
    requires x != "" && !HasSuffix(x, ".")
    ensures !HasSuffix(x + zone, "." + zone)
  {
    assert x[|x| - 1..] == [x[|x| - 1]];
    assert (x + zone)[|x| - 1..][0] == x[|x| - 1] && ("." + zone)[0] == '.';
  }

  /** From path to owner name to staged name and back to the same path. */
  lemma OwnerRoundTrip(zone: string, path: seq<string>)
    requires PlainPath(path)
    ensures StripZoneSuffix(OwnerFQDN(zone, path), zone) == NameOf(path)
    ensures Normal(StripZoneSuffix(OwnerFQDN(zone, path), zone))
    ensures PathOf(StripZoneSuffix(OwnerFQDN(zone, path), zone)) == path
  {
    if path != [] {
      PlainName(path);
      OwnerLabelsName(path);
      StripOwner(zone, NameOf(path));
    } else {
      assert Lower("") == "";
      assert NameOf(path) == "";
    }
  }

  method ReverseInPlace<T>(parts: array<T>)
    modifies parts
    ensures parts[..] == Reverse(old(parts[..]))
  {
    var i, j := 0, parts.Length - 1;
    while i < j
      invariant 0 <= i <= j + 1 <= parts.Length && i + j == parts.Length - 1
      invariant forall m :: 0 <= m < i ==> parts[m] == old(parts[parts.Length - 1 - m])
      invariant forall m :: j < m < parts.Length ==> parts[m] == old(parts[parts.Length - 1 - m])
      invariant forall m :: i <= m <= j ==> parts[m] == old(parts[m])
    {
      parts[i], parts[j] := parts[j], parts[i];
      i, j := i + 1, j - 1;
    }
  }

  /** Splits a relative name and reverses the labels. */
  method SplitFQDN(fqdn: string) returns (path: seq<string>)
    ensures path == PathOf(fqdn)
  {
    var n := NormFQDN(fqdn);
    if n == "" { return []; }
    var split := SplitDots(n);
    var parts := new string[|split|](i requires 0 <= i < |split| => split[i]);
    assert parts[..] == split;
    ReverseInPlace(parts);
    return parts[..];
  }
}
