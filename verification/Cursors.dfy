/** Cursors over sorted entry lists, shared by the two-way and three-way walks. */
module Cursors {
  import opened Objects

  /** The hash a cursor contributes at key (k, n): its head's, if it matches. */
  function HeadHash(es: Entries, k: Kind, n: string): Hash {
    if es != [] && HasKey(es[0], k, n) then es[0].hash else Zero
  }

  /** The cursor after key (k, n) has been consumed. */
  function Advance(es: Entries, k: Kind, n: string): Entries {
    if es != [] && HasKey(es[0], k, n) then es[1..] else es
  }

  /** No pending entry lies below (k, n). */
  predicate NotPast(es: Entries, k: Kind, n: string) {
    es == [] || !KeyLess(es[0].kind, es[0].name, k, n)
  }

  lemma AdvanceWeight(es: Entries, k: Kind, n: string)
    ensures Weight(Ents(HeadHash(es, k, n))) + Weight(Advance(es, k, n)) <= Weight(es)
    ensures es != [] && HasKey(es[0], k, n) ==>
              Weight(Ents(HeadHash(es, k, n))) + Weight(Advance(es, k, n)) < Weight(es)
  {
    assert Weight([]) == 0;
  }

  /** Consuming a smallest key splits every lookup in two. */
  lemma CursorFind(es: Entries, k: Kind, n: string, k': Kind, n': string)
    requires Strict(es) && NotPast(es, k, n)
    ensures Find(es, k', n') == if k' == k && n' == n then HeadHash(es, k, n) else Find(Advance(es, k, n), k', n')
    ensures Find(Advance(es, k, n), k, n) == Zero
  {
    if es != [] {
      KeyLessOrder(k, n, es[0].kind, es[0].name, k, n);
      FindHead(es, k', n');
      FindHead(es, k, n);
    }
  }

  lemma CursorCanon(es: Entries, k: Kind, n: string)
    requires CanonE(es)
    ensures CanonE(Advance(es, k, n))
    ensures k.Subtree? ==> CanonRoot(HeadHash(es, k, n))
    ensures k.Subtree? && HeadHash(es, k, n).H? ==> Ents(HeadHash(es, k, n)) != []
    ensures HeadHash(es, k, n).H? ==> ValidName(n)
    ensures es != [] && HasKey(es[0], k, n) ==> HeadHash(es, k, n).H?
  {
  }

  /** What consuming a smallest key means for the flat map. */
  lemma CursorAt(es: Entries, k: Kind, n: string, path: seq<string>, rr: string)
    requires Strict(es) && NotPast(es, k, n)
    ensures AtE(es, path, rr) ==
            if FirstKind(path) == k && FirstName(path, rr) == n
            then Down(HeadHash(es, k, n), path, rr) else AtE(Advance(es, k, n), path, rr)
    ensures FirstKind(path) == k && FirstName(path, rr) == n ==> AtE(Advance(es, k, n), path, rr) == Zero
  {
    CursorFind(es, k, n, FirstKind(path), FirstName(path, rr));
    AtEDown(es, path, rr);
    AtEDown(Advance(es, k, n), path, rr);
    DownZero(path, rr);
  }
}
