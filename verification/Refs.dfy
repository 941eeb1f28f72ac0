/** Branch names, HEAD and branch moves (pkg/refs/refs.go). */
module Refs {
  import opened Objects
  import opened MemStore
  import opened Names

  const HEAD := "HEAD"
  const ZONE_PREFIX := "refs/zonegit/zones/"
  const BRANCH_PREFIX := "refs/heads/"

  /** Lower case with a trailing dot. */
  function CanonZone(z: string): string {
    var l := Lower(z);
    if l == "" then "" else if HasSuffix(l, ".") then l else l + "."
  }

  function BranchRef(zone: string, branch: string): string {
    BRANCH_PREFIX + CanonZone(zone) + "/" + branch
  }

  /** The marker value of registered zones; it names no stored object. */
  const SENTINEL := H(Raw("zonegit:zone:marker:v04"))

  /** Marks a zone as present; registering twice changes nothing. */
  method RegisterZone(s: Store, zone: string) returns (r: Result<()>)
    modifies s`refs
    ensures
      var ref := "refs/zonegit/zones/" + CanonZone(zone);
      && (r.Ok? <==> CanonZone(zone) != "" && (ref in old(s.refs) ==> old(s.refs)[ref] == SENTINEL))
      && s.refs == if r.Ok? then old(s.refs)[ref := SENTINEL] else old(s.refs)
  {
    var z := CanonZone(zone);
    if z == "" { return Err(Refused); }
    var ref := ZONE_PREFIX + z;
    if ref in s.refs {
      if s.refs[ref] == SENTINEL {
        assert s.refs[ref := SENTINEL] == s.refs;
        return Ok(());
      }
      return Err(Refused);
    }
    r := s.CASRef(ref, Zero, SENTINEL);
  }

  lemma MarkerIsNoBranch(zone: string)
    ensures !HasPrefix(ZONE_PREFIX + zone, BRANCH_PREFIX)
  {
    assert (ZONE_PREFIX + zone)[5] == 'z' && BRANCH_PREFIX[5] == 'h';
  }

  lemma BranchRefIsBranch(zone: string, branch: string)
    ensures HasPrefix(BranchRef(zone, branch), BRANCH_PREFIX)
    ensures BranchRef(zone, branch) == "refs/heads/" + CanonZone(zone) + "/" + branch
  {
    assert BranchRef(zone, branch) == BRANCH_PREFIX + (CanonZone(zone) + "/" + branch);
  }

  /** Splits a branch ref into zone and branch at the last slash. */
  function ParseBranchTarget(target: string): Option<(string, string)> {
    if !HasPrefix(target, BRANCH_PREFIX) then None
    else
      var rest := target[|BRANCH_PREFIX|..];
      var slash := LastIndex(rest, '/');
      if slash <= 0 || slash == |rest| - 1 then None
      else Some((rest[..slash], rest[slash + 1..]))
  }

  lemma CanonZoneIdempotent(z: string)
    ensures CanonZone(CanonZone(z)) == CanonZone(z)
  {
    var l := Lower(z);
    assert Lower(l) == l;
    if l != "" && !HasSuffix(l, ".") {
      LowerConcat(l, ".");
      assert Lower(".") == ".";
      assert HasSuffix(l + ".", ".");
    }
  }

  /** A branch ref parses back to its parts exactly for a non-empty zone and a
      non-empty branch name without slashes. */
  lemma ParseRoundTrip(zone: string, branch: string)
    ensures ParseBranchTarget(BRANCH_PREFIX + zone + "/" + branch) == Some((zone, branch))
            <==> zone != "" && branch != "" && '/' !in branch
  {
    var target := BRANCH_PREFIX + zone + "/" + branch;
    var rest := zone + "/" + branch;
    assert target == BRANCH_PREFIX + rest;
    assert HasPrefix(target, BRANCH_PREFIX) && target[|BRANCH_PREFIX|..] == rest;
    assert rest[|zone|] == '/';
    var slash := LastIndex(rest, '/');
    assert slash >= |zone|;
    if '/' !in branch {
      forall j | |zone| < j < |rest| ensures rest[j] != '/' { assert rest[j] == branch[j - |zone| - 1]; }
      assert slash == |zone|;
      assert rest[..|zone|] == zone && rest[|zone| + 1..] == branch;
    } else {
      var m :| 0 <= m < |branch| && branch[m] == '/';
      assert rest[|zone| + 1 + m] == '/';
      assert slash > |zone|;
    }
  }

  datatype Head = Head(zone: string, branch: string, commit: Hash)

  /** HEAD's branch and its tip; an orphan branch has a zero tip. */
  function ReadHEAD(objs: Objs, refs: map<string, Hash>): Result<Head> {
    if HEAD !in refs then Err(NotFound)
    else if refs[HEAD] !in objs then Err(NotFound)
    else match objs[refs[HEAD]]
      case Symref(target) =>
        (match ParseBranchTarget(target)
         case None => Err(InvalidObject)
         case Some((zone, branch)) => Ok(Head(zone, branch, GetRefOf(refs, target))))
      case _ => Err(InvalidObject)
  }

  /** Points HEAD at a branch; the branch itself need not exist. */
  method SetHEAD(s: Store, zone: string, branch: string) returns (r: Result<()>)
    modifies s
    ensures s.objects == old(s.objects)[H(Symref(BranchRef(zone, branch))) := Symref(BranchRef(zone, branch))]
    ensures r.Ok? && s.refs == old(s.refs)[HEAD := H(Symref(BranchRef(zone, branch)))]
  {
    var h := H(Symref(BranchRef(zone, branch)));
    s.PutObject(h, h.obj);
    if HEAD !in s.refs {
      r := s.CASRef(HEAD, Zero, h);
    } else {
      r := s.CASRef(HEAD, s.refs[HEAD], h);
    }
  }

  /** HEAD reads back what was set, and later moves go to the same ref, for a
      slash-free branch of a named zone. */
  lemma HeadRoundTrip(objs: Objs, refs: map<string, Hash>, zone: string, branch: string)
    requires zone != "" && branch != "" && '/' !in branch
    requires HEAD in refs && refs[HEAD] == H(Symref(BranchRef(zone, branch))) && Holds(objs, refs[HEAD])
    ensures ReadHEAD(objs, refs) == Ok(Head(CanonZone(zone), branch, GetRefOf(refs, BranchRef(zone, branch))))
    ensures BranchRef(CanonZone(zone), branch) == BranchRef(zone, branch)
  {
    CanonZoneIdempotent(zone);
    BranchParses(zone, branch);
  }

  lemma BranchParses(zone: string, branch: string)
    requires zone != "" && branch != "" && '/' !in branch
    ensures ParseBranchTarget(BranchRef(zone, branch)) == Some((CanonZone(zone), branch))
  {
    assert CanonZone(zone) != "" by { assert |Lower(zone)| == |zone|; }
    ParseRoundTrip(CanonZone(zone), branch);
  }

  /** With a slash in the branch name HEAD reads back as another zone, unless
      the name ends in the slash: then it does not read back at all. The next
      branch move addresses the same ref exactly when what is taken for the
      zone happens to be in canonical form. */
  lemma SlashBranchDrifts(zone: string, branch: string)
    requires '/' in branch
    ensures
      var i := LastIndex(branch, '/');
      var readZone, readBranch := CanonZone(zone) + "/" + branch[..i], branch[i + 1..];
      && 0 <= i < |branch|
      && ParseBranchTarget(BranchRef(zone, branch)) == (if readBranch == "" then None else Some((readZone, readBranch)))
      && readZone != CanonZone(zone)
      && (BranchRef(readZone, readBranch) == BranchRef(zone, branch) <==> CanonZone(readZone) == readZone)
  {
    var i := LastIndex(branch, '/');
    var head, tail := branch[..i], branch[i + 1..];
    AroundSlash(branch, i);
    SlashParses(CanonZone(zone), head, tail);
    SameTarget(CanonZone(zone), head, tail);
    SameZonePart(CanonZone(zone) + "/" + head, CanonZone(CanonZone(zone) + "/" + head), tail);
  }

  /** HEAD on "feature/x" of "foo.com." reads back as branch "x" of another zone,
      and a commit then moves another ref. */
  lemma SlashBranchMovesElsewhere()
    ensures ParseBranchTarget(BranchRef("foo.com.", "feature/x")) == Some(("foo.com./feature", "x"))
    ensures BranchRef("foo.com./feature", "x") != BranchRef("foo.com.", "feature/x")
  {
    var zone, head := "foo.com.", "feature";
    assert "feature/x" == head + "/" + "x" && "foo.com./feature" == zone + "/" + head;
    DottedIsCanon(zone);
    UndottedIsNot(zone + "/" + head);
    SlashMoves(zone, head, "x");
  }

  lemma DottedIsCanon(zone: string)
    requires Lower(zone) == zone && zone != "" && zone[|zone| - 1] == '.'
    ensures CanonZone(zone) == zone
  {
    EndsWith(zone, '.');
  }

  lemma UndottedIsNot(zone: string)
    requires Lower(zone) == zone && zone != "" && zone[|zone| - 1] != '.'
    ensures CanonZone(zone) != zone
  {
    EndsWith(zone, '.');
  }

  lemma SlashMoves(zone: string, head: string, tail: string)
    requires CanonZone(zone) == zone && tail != "" && '/' !in tail
    requires CanonZone(zone + "/" + head) != zone + "/" + head
    ensures ParseBranchTarget(BranchRef(zone, head + "/" + tail)) == Some((zone + "/" + head, tail))
    ensures BranchRef(zone + "/" + head, tail) != BranchRef(zone, head + "/" + tail)
  {
    SlashParses(zone, head, tail);
    SameTarget(zone, head, tail);
    SameZonePart(zone + "/" + head, CanonZone(zone + "/" + head), tail);
  }

  lemma SlashParses(zone: string, head: string, tail: string)
    requires '/' !in tail
    ensures ParseBranchTarget(BRANCH_PREFIX + zone + "/" + (head + "/" + tail)) ==
            (if tail == "" then None else Some((zone + "/" + head, tail)))
  {
    SameTarget(zone, head, tail);
    if tail == "" { NoBranchPart(zone + "/" + head); } else { ParseRoundTrip(zone + "/" + head, tail); }
  }

  lemma AroundSlash(s: string, i: nat)
    requires i < |s| && s[i] == '/'
    ensures s[..i] + "/" + s[i + 1..] == s
  {
  }

  lemma SameTarget(zone: string, head: string, tail: string)
    ensures BRANCH_PREFIX + zone + "/" + (head + "/" + tail) == BRANCH_PREFIX + (zone + "/" + head) + "/" + tail
  {
  }

  lemma NoBranchPart(zone: string)
    ensures ParseBranchTarget(BRANCH_PREFIX + zone + "/" + "") == None
  {
    var target := BRANCH_PREFIX + zone + "/" + "";
    assert target == BRANCH_PREFIX + (zone + "/");
    assert target[|BRANCH_PREFIX|..] == zone + "/";
    assert (zone + "/")[|zone|] == '/';
  }

  lemma SameZonePart(a: string, b: string, branch: string)
    ensures BRANCH_PREFIX + b + "/" + branch == BRANCH_PREFIX + a + "/" + branch <==> a == b
  {
    var p := |BRANCH_PREFIX|;
    if BRANCH_PREFIX + b + "/" + branch == BRANCH_PREFIX + a + "/" + branch {
      assert |a| == |b|;
      assert (BRANCH_PREFIX + b + "/" + branch)[p..p + |b|] == b;
      assert (BRANCH_PREFIX + a + "/" + branch)[p..p + |a|] == a;
    }
  }
}
