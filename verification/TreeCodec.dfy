/** The byte form of a tree node (pkg/object/tree.go). Hashes are opaque
    32-byte strings here; names are byte strings. */
module TreeCodec {
  import opened Objects
  import opened TreeNode
  import opened Sequences
  import Sorting

  type WireEntry = Entry<string>

  const VERSION: char := 1 as char
  const HASH_SIZE: nat := 32
  const MAX_VARINT_LEN: nat := 10

  predicate IsBytes(s: string) {
    forall i :: 0 <= i < |s| ==> s[i] as int < 256
  }

  function Byte(n: nat): char
    requires n < 256
  {
    n as char
  }

  // ---------- unsigned varints ----------

  /** Seven bits per byte, low group first, high bit set on all but the last. */
  function PutUvarint(n: nat): (s: string)
    ensures |s| > 0
  {
    if n < 128 then [Byte(n)] else [Byte(n % 128 + 128)] + PutUvarint(n / 128)
  }

  /** Go's binary.Uvarint from byte `i` of the number on: the value and the
      number of bytes read, or nothing when the bytes run out or the number
      does not fit in 64 bits. */
  function GetUvarint(s: string, i: nat): (r: Option<(nat, nat)>)
    requires IsBytes(s)
    ensures r.Some? ==> 1 <= r.value.1 <= |s|
    decreases |s|
  {
    if s == "" then None
    else if i == MAX_VARINT_LEN then None
    else
      var b := s[0] as int;
      if b < 128 then
        if i == MAX_VARINT_LEN - 1 && b > 1 then None else Some((b, 1))
      else
        match GetUvarint(s[1..], i + 1)
        case None => None
        case Some((v, n)) => Some((b - 128 + 128 * v, n + 1))
  }

  /** The values that still fit when byte `i` is next. */
  function Room(i: nat): nat
    requires i < MAX_VARINT_LEN
    decreases MAX_VARINT_LEN - i
  {
    if i == MAX_VARINT_LEN - 1 then 2 else 128 * Room(i + 1)
  }

  lemma RoomIs64Bits()
    ensures Room(0) == 0x1_0000_0000_0000_0000
  {
    assert Room(9) == 2;
    assert Room(8) == 128 * 2;
    assert Room(7) == 128 * 128 * 2;
    assert Room(6) == 128 * (128 * 128 * 2);
    assert Room(5) == 128 * (128 * (128 * 128 * 2));
  }

  lemma {:induction false} UvarintRoundTripAt(n: nat, rest: string, i: nat)
    requires i < MAX_VARINT_LEN && n < Room(i) && IsBytes(rest)
    ensures IsBytes(PutUvarint(n) + rest)
    ensures GetUvarint(PutUvarint(n) + rest, i) == Some((n, |PutUvarint(n)|))
    decreases n
  {
    var s := PutUvarint(n) + rest;
    if n >= 128 {
      assert n / 128 < Room(i + 1);
      UvarintRoundTripAt(n / 128, rest, i + 1);
      assert s[1..] == PutUvarint(n / 128) + rest;
      assert n == n % 128 + 128 * (n / 128);
    } else {
      assert s == [Byte(n)] + rest;
    }
  }

  /** No padding: a number of several bytes does not end in a zero byte. */
  predicate Minimal(s: string) {
    |s| == 1 || (|s| > 1 && s[|s| - 1] as int != 0)
  }

  /** The bytes read are the canonical ones exactly when they are unpadded. */
  lemma {:induction false} UvarintCanonical(s: string, i: nat)
    requires IsBytes(s) && GetUvarint(s, i).Some?
    ensures var (v, n) := GetUvarint(s, i).value;
            && (s[..n] == PutUvarint(v) <==> Minimal(s[..n]))
            && (Minimal(s[..n]) && n > 1 ==> v > 0)
    decreases |s|
  {
    var (v, n) := GetUvarint(s, i).value;
    var b := s[0] as int;
    if b >= 128 {
      var (w, m) := GetUvarint(s[1..], i + 1).value;
      UvarintCanonical(s[1..], i + 1);
      assert s[..n] == [s[0]] + s[1..][..m];
      assert s[..n][|s[..n]| - 1] == s[1..][..m][m - 1];
      if w == 0 {
        ZeroIsOneByte(s[1..], i + 1);
        assert PutUvarint(v) == [Byte(b - 128)];
      } else {
        assert v % 128 == b - 128 && v / 128 == w;
        assert PutUvarint(v) == [s[0]] + PutUvarint(w);
        if m == 1 { assert s[1..][..1] == [s[1]]; }
        assert PutUvarint(v)[1..] == PutUvarint(w) && s[..n][1..] == s[1..][..m];
      }
    } else {
      assert s[..1] == [s[0]];
    }
  }

  /** A zero is unpadded only as a single byte. */
  lemma {:induction false} ZeroIsOneByte(s: string, i: nat)
    requires IsBytes(s) && GetUvarint(s, i).Some? && GetUvarint(s, i).value.0 == 0
    ensures var n := GetUvarint(s, i).value.1; s[n - 1] as int == 0
    decreases |s|
  {
    if s[0] as int >= 128 { ZeroIsOneByte(s[1..], i + 1); }
  }

  // ---------- entries ----------

  function KindByte(k: Kind): char {
    match k case Subtree => 0 as char case Leaf => 1 as char
  }

  predicate WireOk(e: WireEntry) {
    |e.name| <= 255 && IsBytes(e.name) && |e.hash| == HASH_SIZE && IsBytes(e.hash)
  }

  predicate AllWireOk(es: seq<WireEntry>) {
    forall i :: 0 <= i < |es| ==> WireOk(es[i])
  }

  function EncodeEntry(e: WireEntry): string {
    [KindByte(e.kind), Byte(|e.name| % 256)] + e.name + e.hash
  }

  function EncodeEntries(es: seq<WireEntry>): string {
    if es == [] then "" else EncodeEntry(es[0]) + EncodeEntries(es[1..])
  }

  /** Version byte, count, then the entries in canonical order. */
  function EncodeTree(es: seq<WireEntry>): string {
    [VERSION] + PutUvarint(|es|) + EncodeEntries(Sorting.Sort(EntryLe, es))
  }

  /** A node with one entry, byte by byte: version 1, one entry, its kind (0 for
      a subtree, 1 for a record set), the length of its name, the name, the hash. */
  lemma OneEntryBytes(name: string, h: string)
    requires 1 <= |name| <= 255 && |h| == 32 && IsBytes(name) && IsBytes(h)
    ensures EncodeTree([Entry(Leaf, name, h)]) == [1 as char, 1 as char, 1 as char, |name| as char] + name + h
    ensures EncodeTree([Entry(Subtree, name, h)]) == [1 as char, 1 as char, 0 as char, |name| as char] + name + h
  {
    OneEntry(Entry(Leaf, name, h));
    OneEntry(Entry(Subtree, name, h));
  }

  lemma OneEntry(e: WireEntry)
    ensures EncodeTree([e]) == [1 as char, 1 as char] + EncodeEntry(e)
  {
    assert [e][1..] == [] && Sorting.Sort(EntryLe, [e][1..]) == [];
    assert Sorting.Sort(EntryLe, [e]) == [e];
    assert EncodeEntries([e]) == EncodeEntry(e) + "";
    assert PutUvarint(1) == [1 as char];
  }

  /** One entry off the front of `rest`. */
  function DecodeEntry(rest: string): (r: Result<(WireEntry, string)>)
    requires IsBytes(rest)
    ensures r.Ok? ==> |r.value.1| < |rest| && IsBytes(r.value.1)
  {
    if |rest| < 2 then Err(InvalidObject)
    else
      var nameLen := rest[1] as int;
      if rest[0] as int > 1 then Err(InvalidObject)
      else if |rest| - 2 < nameLen + HASH_SIZE then Err(InvalidObject)
      else
        var kind := if rest[0] as int == 0 then Subtree else Leaf;
        var body := rest[2..];
        Ok((Entry(kind, body[..nameLen], body[nameLen..nameLen + HASH_SIZE]), body[nameLen + HASH_SIZE..]))
  }

  function DecodeEntries(rest: string, count: nat): (r: Result<(seq<WireEntry>, string)>)
    requires IsBytes(rest)
    decreases |rest|
  {
    if count == 0 then Ok(([], rest))
    else match DecodeEntry(rest)
      case Err(e) => Err(e)
      case Ok((e, rest')) =>
        match DecodeEntries(rest', count - 1)
        case Err(x) => Err(x)
        case Ok((es, end)) => Ok(([e] + es, end))
  }

  function DecodeTree(payload: string): Result<seq<WireEntry>>
    requires IsBytes(payload)
  {
    if |payload| < 1 then Err(InvalidObject)
    else if payload[0] != VERSION then Err(InvalidObject)
    else match GetUvarint(payload[1..], 0)
      case None => Err(InvalidObject)
      case Some((count, n)) =>
        CheckTree(DecodeEntries(payload[1..][n..], count))
  }

  /** The checks after the last entry: nothing left over, sorted, no duplicate. */
  function CheckTree(r: Result<(seq<WireEntry>, string)>): Result<seq<WireEntry>> {
    match r
    case Err(e) => Err(e)
    case Ok((es, end)) =>
      if end != "" then Err(InvalidObject)
      else if !AdjacentSorted(es) then Err(InvalidObject)
      else if FirstDuplicate(es, 1) != "" then Err(InvalidObject)
      else Ok(es)
  }

  // ---------- round trips ----------

  lemma EntryRoundTrip(e: WireEntry, rest: string)
    requires WireOk(e) && IsBytes(rest)
    ensures IsBytes(EncodeEntry(e) + rest)
    ensures DecodeEntry(EncodeEntry(e) + rest) == Ok((e, rest))
  {
    var s := EncodeEntry(e) + rest;
    var body := s[2..];
    assert body == e.name + e.hash + rest;
    assert body[..|e.name|] == e.name;
    assert body[|e.name|..|e.name| + HASH_SIZE] == e.hash;
    assert body[|e.name| + HASH_SIZE..] == rest;
  }

  lemma {:induction false} EntriesRoundTrip(es: seq<WireEntry>)
    requires AllWireOk(es)
    ensures IsBytes(EncodeEntries(es))
    ensures DecodeEntries(EncodeEntries(es), |es|) == Ok((es, ""))
    decreases |es|
  {
    if es != [] {
      var rest := EncodeEntries(es[1..]);
      EntriesRoundTrip(es[1..]);
      EntryRoundTrip(es[0], rest);
      assert EncodeEntries(es) == EncodeEntry(es[0]) + rest;
      assert es == [es[0]] + es[1..];
    }
  }

  lemma EncodeCons(e: WireEntry, es: seq<WireEntry>)
    ensures EncodeEntries([e] + es) == EncodeEntry(e) + EncodeEntries(es)
  {
    assert ([e] + es)[1..] == es;
  }

  lemma {:induction false} EntriesInverse(rest: string, count: nat)
    requires IsBytes(rest) && DecodeEntries(rest, count).Ok?
    ensures var (es, end) := DecodeEntries(rest, count).value;
            |es| == count && AllWireOk(es) && rest == EncodeEntries(es) + end
    decreases |rest|
  {
    if count > 0 {
      var (e, rest') := DecodeEntry(rest).value;
      EntriesInverse(rest', count - 1);
      var (es, end) := DecodeEntries(rest', count - 1).value;
      EntryInverse(rest);
      EncodeCons(e, es);
      ConcatAssoc(EncodeEntry(e), EncodeEntries(es), end);
    } else {
      assert rest == "" + rest;
    }
  }

  lemma CutTwice(s: string, i: nat, j: nat)
    requires i <= j <= |s|
    ensures s == s[..i] + s[i..j] + s[j..]
  {
  }

  lemma EntryInverse(rest: string)
    requires IsBytes(rest) && DecodeEntry(rest).Ok?
    ensures var (e, rest') := DecodeEntry(rest).value; WireOk(e) && rest == EncodeEntry(e) + rest'
  {
    var n, body := rest[1] as int, rest[2..];
    CutTwice(body, n, n + HASH_SIZE);
    assert rest == [rest[0], rest[1]] + body;
    var (e, rest') := DecodeEntry(rest).value;
    assert KindByte(e.kind) == rest[0] && Byte(|e.name| % 256) == rest[1];
    ConcatAssoc([rest[0], rest[1]], e.name + e.hash, rest');
    ConcatAssoc([rest[0], rest[1]], e.name, e.hash);
  }

  /** A payload cut where its count ends. */
  lemma DecodeFramed(count: string, body: string, n: nat)
    requires IsBytes(count + body) && GetUvarint(count + body, 0) == Some((n, |count|))
    ensures IsBytes(body) && IsBytes([VERSION] + count + body)
    ensures DecodeTree([VERSION] + count + body) == CheckTree(DecodeEntries(body, n))
  {
    var p := [VERSION] + count + body;
    assert p == [VERSION] + (count + body);
    assert p[1..] == count + body;
    assert (count + body)[|count|..] == body;
    forall i | 0 <= i < |body| ensures body[i] as int < 256 { assert body[i] == (count + body)[|count| + i]; }
  }

  /** Decoding an encoding returns the entries in canonical order, for any
      input order without repeated keys. */
  lemma DecodeOfEncode(es: seq<WireEntry>)
    requires AllWireOk(es) && Sorting.Apart(SameKey, es) && |es| < 0x1_0000_0000_0000_0000
    ensures IsBytes(EncodeTree(es))
    ensures DecodeTree(EncodeTree(es)) == Ok(Sorting.Sort(EntryLe, es))
    ensures Strict(Sorting.Sort(EntryLe, es))
  {
    var t := Sorting.Sort(EntryLe, es);
    SortedWireOk(es);
    SortStrict(es);
    AcceptedIffStrict(t);
    EntriesRoundTrip(t);
    RoomIs64Bits();
    UvarintRoundTripAt(|es|, EncodeEntries(t), 0);
    DecodeFramed(PutUvarint(|es|), EncodeEntries(t), |es|);
  }

  lemma SortedWireOk(es: seq<WireEntry>)
    requires AllWireOk(es)
    ensures AllWireOk(Sorting.Sort(EntryLe, es)) && |Sorting.Sort(EntryLe, es)| == |es|
  {
    var t := Sorting.Sort(EntryLe, es);
    Sorting.SortPermutes(EntryLe, es);
    forall i | 0 <= i < |t| ensures WireOk(t[i]) { assert t[i] in t; }
  }

  /** The bytes of the entry count in a payload. */
  function CountBytes(payload: string): string
    requires IsBytes(payload) && DecodeTree(payload).Ok?
  {
    payload[1..][..GetUvarint(payload[1..], 0).value.1]
  }

  /** An accepted payload without a repeated unnamed entry re-encodes to itself
      exactly when its entry count is unpadded. */
  lemma EncodeOfDecode(payload: string)
    requires IsBytes(payload) && DecodeTree(payload).Ok? && Strict(DecodeTree(payload).value)
    ensures EncodeTree(DecodeTree(payload).value) == payload <==> Minimal(CountBytes(payload))
  {
    var es := DecodeTree(payload).value;
    var p := payload[1..];
    var (count, n) := GetUvarint(p, 0).value;
    EntriesInverse(p[n..], count);
    UvarintCanonical(p, 0);
    SortOfStrict(es);
    assert p[n..] == EncodeEntries(es) + "";
    SameFrame(payload, PutUvarint(count), EncodeEntries(es), n);
  }

  lemma SameFrame(payload: string, count: string, body: string, n: nat)
    requires |payload| > 0 && payload[0] == VERSION && n <= |payload| - 1
    requires payload[1..][n..] == body
    ensures [VERSION] + count + body == payload <==> payload[1..][..n] == count
  {
    var p := payload[1..];
    assert payload == [VERSION] + p && p == p[..n] + body;
    if [VERSION] + count + body == payload {
      assert ([VERSION] + count + body)[1..] == count + body;
      assert |count| == n && (count + body)[..n] == count;
    }
  }

  /** Decoding does accept a second spelling of a tree, contrary to its comment:
      a padded count is read like the unpadded one. */
  lemma PaddedCountAccepted()
    ensures
      var padded, plain := [VERSION, Byte(128), Byte(0)], [VERSION, Byte(0)];
      && IsBytes(padded) && IsBytes(plain) && padded != plain
      && DecodeTree(padded) == Ok([]) && DecodeTree(plain) == Ok([])
      && EncodeTree([]) == plain
  {
    var padded, plain := [VERSION, Byte(128), Byte(0)], [VERSION, Byte(0)];
    assert padded[1..] == [Byte(128), Byte(0)] && padded[1..][1..] == [Byte(0)];
    assert GetUvarint([Byte(0)], 1) == Some((0, 1));
    assert GetUvarint(padded[1..], 0) == Some((0, 2));
    assert padded[1..][2..] == "";
    assert plain[1..] == [Byte(0)] && GetUvarint(plain[1..], 0) == Some((0, 1));
    assert plain[1..][1..] == "";
  }

  // ---------- the loops ----------

  lemma AppendEntry(buf: string, e: WireEntry)
    ensures buf + [KindByte(e.kind)] + [Byte(|e.name| % 256)] + e.name + e.hash == buf + EncodeEntry(e)
  {
  }

  /** Writes the buffer entry by entry. */
  method Encode(es: seq<WireEntry>) returns (payload: string)
    ensures payload == EncodeTree(es)
  {
    var entries := Sorting.Sort(EntryLe, es);
    Sorting.SortPermutes(EntryLe, es);
    var buf := [VERSION] + PutUvarint(|entries|);
    ghost var head := buf;
    assert entries[0..] == entries;
    for i := 0 to |entries|
      invariant buf + EncodeEntries(entries[i..]) == head + EncodeEntries(entries)
    {
      var e := entries[i];
      assert entries[i..][0] == e && entries[i..][1..] == entries[i + 1..];
      ConcatAssoc(buf, EncodeEntry(e), EncodeEntries(entries[i + 1..]));
      AppendEntry(buf, e);
      buf := buf + [KindByte(e.kind)] + [Byte(|e.name| % 256)] + e.name + e.hash;
    }
    assert buf + EncodeEntries([]) == buf;
    return buf;
  }

  /** Adds already decoded entries in front of what is still to come. */
  function Prepend(es: seq<WireEntry>, r: Result<(seq<WireEntry>, string)>): Result<(seq<WireEntry>, string)> {
    match r
    case Err(e) => Err(e)
    case Ok((more, end)) => Ok((es + more, end))
  }

  lemma PrependOne(es: seq<WireEntry>, e: WireEntry, r: Result<(seq<WireEntry>, string)>)
    ensures Prepend(es, Prepend([e], r)) == Prepend(es + [e], r)
  {
    if r.Ok? { assert es + ([e] + r.value.0) == (es + [e]) + r.value.0; }
  }

  /** Reads entries off a shrinking rest. */
  method Decode(payload: string) returns (r: Result<seq<WireEntry>>)
    requires IsBytes(payload)
    ensures r == DecodeTree(payload)
  {
    if |payload| < 1 { return Err(InvalidObject); }
    if payload[0] != VERSION { return Err(InvalidObject); }
    var c := GetUvarint(payload[1..], 0);
    if c.None? { return Err(InvalidObject); }
    var (count, n) := c.value;
    var rest := payload[1..][n..];
    ghost var goal := DecodeEntries(rest, count);
    var entries: seq<WireEntry> := [];
    assert goal == Prepend([], goal) by { if goal.Ok? { assert [] + goal.value.0 == goal.value.0; } }
    for i := 0 to count
      invariant IsBytes(rest)
      invariant goal == Prepend(entries, DecodeEntries(rest, count - i))
    {
      var d := DecodeEntry(rest);
      if d.Err? { return Err(InvalidObject); }
      PrependOne(entries, d.value.0, DecodeEntries(d.value.1, count - i - 1));
      entries, rest := entries + [d.value.0], d.value.1;
    }
    assert entries + [] == entries;
    if rest != "" { return Err(InvalidObject); }
    if !AdjacentSorted(entries) { return Err(InvalidObject); }
    if FirstDuplicate(entries, 1) != "" { return Err(InvalidObject); }
    return Ok(entries);
  }
}
