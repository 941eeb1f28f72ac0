/** The SOA serial (pkg/zone/soa.go) and serial number arithmetic. */
module Zone {
  import opened Objects

  const MODULUS: nat := 0x1_0000_0000

  function NextSerial(serial: nat): (r: nat)
  {
    (serial + 1) % MODULUS
  }

  lemma NextSerialMoves(serial: nat)
    ensures NextSerial(serial) != serial
  {
  }

  /** A copy of a single-record SOA set with the serial advanced. */
  function BumpSOASerial(rrs: seq<RR>): Result<seq<RR>> {
    if |rrs| != 1 || !rrs[0].SOA? then Err(InvalidObject)
    else Ok([SOA(NextSerial(rrs[0].serial), rrs[0].rest)])
  }

  /** "Greater" in section 3.2 of RFC 1982, for 32-bit serials. */
  predicate SerialGreater(a: nat, b: nat) {
    || (a < b && b - a > MODULUS / 2)
    || (a > b && a - b < MODULUS / 2)
  }

  function BumpTimes(serial: nat, n: nat): nat {
    if n == 0 then serial else NextSerial(BumpTimes(serial, n - 1))
  }

  lemma NextOfMod(m: nat)
    ensures NextSerial(m % MODULUS) == (m + 1) % MODULUS
  {
  }

  lemma {:induction false} BumpTimesClosed(serial: nat, n: nat)
    requires serial < MODULUS
    ensures BumpTimes(serial, n) == (serial + n) % MODULUS
    decreases n
  {
    if n > 0 {
      BumpTimesClosed(serial, n - 1);
      NextOfMod(serial + n - 1);
    }
  }

  /** Up to 2^32 - 1 bumps compare greater exactly while fewer than 2^31. */
  lemma BumpsCompareGreater(serial: nat, n: nat)
    requires serial < MODULUS && n < MODULUS
    ensures SerialGreater(BumpTimes(serial, n), serial) <==> 0 < n < MODULUS / 2
  {
    BumpTimesClosed(serial, n);
    SumComparesGreater(serial, n, BumpTimes(serial, n));
  }

  lemma ComparesAfter(serial: nat, n: nat, last: nat)
    requires serial < MODULUS && n < MODULUS && last == BumpTimes(serial, n)
    ensures SerialGreater(last, serial) <==> 0 < n < MODULUS / 2
  {
    BumpsCompareGreater(serial, n);
  }

  lemma SumComparesGreater(serial: nat, n: nat, sum: nat)
    requires serial < MODULUS && n < MODULUS && sum == (serial + n) % MODULUS
    ensures SerialGreater(sum, serial) <==> 0 < n < MODULUS / 2
  {
    Wrapped(serial + n);
  }

  lemma BumpTimesInjective(serial: nat, i: nat, j: nat)
    requires serial < MODULUS && i < MODULUS && j < MODULUS && BumpTimes(serial, i) == BumpTimes(serial, j)
    ensures i == j
  {
    if i < j { BumpTimesApart(serial, i, j); }
    if j < i { BumpTimesApart(serial, j, i); }
  }

  /** Fewer than 2^32 bumps never meet the same serial twice. */
  lemma BumpTimesApart(serial: nat, i: nat, j: nat)
    requires serial < MODULUS && i < j < MODULUS
    ensures BumpTimes(serial, i) != BumpTimes(serial, j)
  {
    BumpTimesClosed(serial, i);
    BumpTimesClosed(serial, j);
    Wrapped(serial + i);
    Wrapped(serial + j);
  }

  lemma Wrapped(m: nat)
    requires m < 2 * MODULUS
    ensures m % MODULUS == if m < MODULUS then m else m - MODULUS
  {
  }
}
