/** The pieces of text the commit format is made of: lines, words, decimal and
    hexadecimal numbers. Characters are Unicode code points. */
module Text {
  import opened Objects
  import opened TreeCodec

  type Hash32 = s: string | |s| == HASH_SIZE && IsBytes(s) witness seq(HASH_SIZE, _ => 0 as char)

  // ---------- white space ----------

  /** Go's unicode.IsSpace. */
  predicate IsSpace(c: char) {
    || '\t' <= c <= '\r'
    || c == ' '
    || c as int in {0x85, 0xA0, 0x1680, 0x2028, 0x2029, 0x202F, 0x205F, 0x3000}
    || 0x2000 <= c as int <= 0x200A
  }

  function TrimLeft(s: string): (t: string)
    ensures |t| <= |s|
  {
    if s != "" && IsSpace(s[0]) then TrimLeft(s[1..]) else s
  }

  function TrimRight(s: string): (t: string)
    ensures |t| <= |s|
  {
    if s != "" && IsSpace(s[|s| - 1]) then TrimRight(s[..|s| - 1]) else s
  }

  function TrimSpace(s: string): (t: string)
    ensures |t| <= |s|
  {
    TrimRight(TrimLeft(s))
  }

  predicate Trimmed(s: string) {
    s == "" || (!IsSpace(s[0]) && !IsSpace(s[|s| - 1]))
  }

  predicate Word(s: string) {
    s != "" && forall i :: 0 <= i < |s| ==> !IsSpace(s[i])
  }

  lemma {:induction false} TrimLeftPart(s: string)
    ensures TrimLeft(s) == s[|s| - |TrimLeft(s)|..]
    ensures TrimLeft(s) == "" || !IsSpace(TrimLeft(s)[0])
    decreases |s|
  {
    if s != "" && IsSpace(s[0]) { TrimLeftPart(s[1..]); }
  }

  lemma {:induction false} TrimRightPart(s: string)
    ensures TrimRight(s) <= s
    ensures TrimRight(s) == "" || !IsSpace(TrimRight(s)[|TrimRight(s)| - 1])
    decreases |s|
  {
    if s != "" && IsSpace(s[|s| - 1]) { TrimRightPart(s[..|s| - 1]); }
  }

  /** Trimming leaves a trimmed part of the text. */
  lemma TrimSpaceShape(s: string)
    ensures Trimmed(TrimSpace(s))
    ensures forall c :: c in TrimSpace(s) ==> c in s
    ensures Trimmed(s) ==> TrimSpace(s) == s
  {
    var left := TrimLeft(s);
    TrimLeftPart(s);
    TrimRightPart(left);
    PrefixShape(TrimRight(left), left);
    SuffixChars(left, s);
  }

  lemma PrefixShape(t: string, left: string)
    requires t <= left
    ensures t != "" ==> t[0] == left[0]
    ensures forall c :: c in t ==> c in left
  {
  }

  lemma SuffixChars(left: string, s: string)
    requires |left| <= |s| && left == s[|s| - |left|..]
    ensures forall c :: c in left ==> c in s
  {
  }

  lemma {:induction false} TrimRightSpace(s: string)
    requires Trimmed(s)
    ensures TrimRight(s + " ") == s
  {
    assert (s + " ")[..|s|] == s;
    TrimRightPart(s);
  }

  /** One separating space behind a trimmed text is trimmed away. */
  lemma TrimTrailingSpace(s: string)
    requires Trimmed(s)
    ensures TrimSpace(s + " ") == s
  {
    if s == "" {
      assert (s + " ") == " " && " "[1..] == "";
    } else {
      assert (s + " ")[0] == s[0];
      TrimRightSpace(s);
    }
  }

  lemma TrimLeadingSpace(s: string)
    requires Trimmed(s)
    ensures TrimSpace(" " + s) == s
  {
    assert (" " + s)[1..] == s;
    TrimSpaceShape(s);
  }

  // ---------- words ----------

  /** Characters before the first space. */
  function FirstWord(s: string): (w: string)
    ensures |w| <= |s|
    ensures s != "" && !IsSpace(s[0]) ==> |w| > 0
  {
    if s == "" || IsSpace(s[0]) then "" else [s[0]] + FirstWord(s[1..])
  }

  /** Go's strings.Fields. */
  function Fields(s: string): seq<string>
    decreases |s|
  {
    var t := TrimLeft(s);
    if t == "" then []
    else
      TrimLeftPart(s);
      [FirstWord(t)] + Fields(t[|FirstWord(t)|..])
  }

  lemma {:induction false} FirstWordThen(a: string, rest: string)
    requires forall i :: 0 <= i < |a| ==> !IsSpace(a[i])
    requires rest == "" || IsSpace(rest[0])
    ensures FirstWord(a + rest) == a
    decreases |a|
  {
    if a == "" {
      assert a + rest == rest;
    } else {
      assert (a + rest)[1..] == a[1..] + rest;
      FirstWordThen(a[1..], rest);
      assert a == [a[0]] + a[1..];
    }
  }

  lemma TwoFields(a: string, b: string)
    requires Word(a) && Word(b)
    ensures Fields(a + " " + b) == [a, b]
    ensures Trimmed(a + " " + b)
  {
    var s := a + " " + b;
    assert s == a + (" " + b);
    FirstWordThen(a, " " + b);
    assert s[|a|..] == " " + b;
    var t := " " + b;
    assert t[1..] == b;
    assert TrimLeft(t) == b;
    assert b + "" == b;
    FirstWordThen(b, "");
    assert b[|b|..] == "";
    assert Fields("") == [];
    assert Fields(t) == [b];
  }

  // ---------- lines ----------

  predicate OneLine(s: string) {
    '\n' !in s
  }

  /** The text up to the first newline, and what follows it. */
  function CutLine(s: string): (r: (string, string))
    requires s != ""
    ensures |r.1| < |s| && OneLine(r.0)
  {
    if s[0] == '\n' then ("", s[1..])
    else if |s| == 1 then (s, "")
    else var (line, rest) := CutLine(s[1..]); ([s[0]] + line, rest)
  }

  lemma {:induction false} CutLineAt(line: string, rest: string)
    requires OneLine(line)
    ensures CutLine(line + "\n" + rest) == (line, rest)
    decreases |line|
  {
    var s := line + "\n" + rest;
    if line == "" {
      assert s[1..] == rest;
    } else {
      assert s[1..] == line[1..] + "\n" + rest;
      CutLineAt(line[1..], rest);
      assert line == [line[0]] + line[1..];
    }
  }

  /** Go's strings.Cut at the first space. */
  function CutSpace(s: string): (r: Option<(string, string)>)
    ensures r.Some? ==> s == r.value.0 + " " + r.value.1
  {
    if s == "" then None
    else if s[0] == ' ' then Some(("", s[1..]))
    else match CutSpace(s[1..])
      case None => None
      case Some((a, b)) => Some(([s[0]] + a, b))
  }

  lemma {:induction false} CutSpaceAt(key: string, value: string)
    requires ' ' !in key
    ensures CutSpace(key + " " + value) == Some((key, value))
    decreases |key|
  {
    var s := key + " " + value;
    if key == "" {
      assert s[1..] == value;
    } else {
      assert s[1..] == key[1..] + " " + value;
      CutSpaceAt(key[1..], value);
      assert key == [key[0]] + key[1..];
    }
  }

  /** Drops every newline at the end. */
  function TrimNewlines(s: string): string {
    if s != "" && s[|s| - 1] == '\n' then TrimNewlines(s[..|s| - 1]) else s
  }

  lemma {:induction false} TrimNewlinesShape(s: string)
    ensures TrimNewlines(s) == "" || TrimNewlines(s)[|TrimNewlines(s)| - 1] != '\n'
    decreases |s|
  {
    if s != "" && s[|s| - 1] == '\n' { TrimNewlinesShape(s[..|s| - 1]); }
  }

  // ---------- decimal ----------

  function Digit(n: nat): char
    requires n < 10
  {
    ('0' as int + n) as char
  }

  predicate IsDigit(c: char) {
    '0' <= c <= '9'
  }

  /** Plain decimal notation. */
  function Dec(n: nat): (s: string)
    ensures s != "" && forall i :: 0 <= i < |s| ==> IsDigit(s[i])
  {
    if n < 10 then [Digit(n)] else Dec(n / 10) + [Digit(n % 10)]
  }

  function Digits(s: string): (n: nat)
    requires forall i :: 0 <= i < |s| ==> IsDigit(s[i])
  {
    if s == "" then 0
    else assert IsDigit(s[|s| - 1]); 10 * Digits(s[..|s| - 1]) + (s[|s| - 1] as int - '0' as int)
  }

  lemma {:induction false} DigitsOfDec(n: nat)
    ensures Digits(Dec(n)) == n
    decreases n
  {
    if n >= 10 {
      DigitsOfDec(n / 10);
      assert Dec(n)[..|Dec(n)| - 1] == Dec(n / 10);
    } else {
      assert Dec(n)[..0] == "";
    }
  }

  function FormatInt(n: int): string {
    if n < 0 then "-" + Dec(-n) else Dec(n)
  }

  const MIN_INT64 := -0x8000_0000_0000_0000
  const MAX_INT64 := 0x7FFF_FFFF_FFFF_FFFF

  /** Go's ParseInt in base 10 for 64 bits: an optional sign, then digits. */
  function ParseInt(s: string): (r: Option<int>)
    ensures r.Some? ==> MIN_INT64 <= r.value <= MAX_INT64
  {
    var signed := s != "" && (s[0] == '+' || s[0] == '-');
    var digits := if signed then s[1..] else s;
    if digits == "" || exists i :: 0 <= i < |digits| && !IsDigit(digits[i]) then None
    else
      var m: int := Digits(digits);
      var n := if signed && s[0] == '-' then -m else m;
      if MIN_INT64 <= n <= MAX_INT64 then Some(n) else None
  }

  /** Text that fits into an identity line after the brackets. */
  predicate Plain(s: string) {
    OneLine(s) && '<' !in s && '>' !in s
  }

  lemma PlainConcat(a: string, b: string)
    requires Plain(a) && Plain(b)
    ensures Plain(a + b)
  {
  }

  lemma DecPlain(n: nat)
    ensures Plain(Dec(n)) && Word(Dec(n))
  {
  }

  lemma FormatIntPlain(n: int)
    ensures Plain(FormatInt(n)) && Word(FormatInt(n))
  {
    DecPlain(if n < 0 then -n else n);
    assert Plain("-");
    if n < 0 { PlainConcat("-", Dec(-n)); }
  }

  lemma ParseIntOfFormat(n: int)
    requires MIN_INT64 <= n <= MAX_INT64
    ensures ParseInt(FormatInt(n)) == Some(n)
  {
    var m := if n < 0 then -n else n;
    DigitsOfDec(m);
    if n < 0 { ParseNegative(Dec(m)); } else { ParseDigits(Dec(m)); }
  }

  lemma ParseDigits(s: string)
    requires s != "" && forall i :: 0 <= i < |s| ==> IsDigit(s[i])
    ensures Digits(s) <= MAX_INT64 ==> ParseInt(s) == Some(Digits(s))
  {
    assert IsDigit(s[0]);
  }

  lemma ParseNegative(s: string)
    requires s != "" && forall i :: 0 <= i < |s| ==> IsDigit(s[i])
    ensures
      var m: int := Digits(s);
      MIN_INT64 <= -m ==> ParseInt("-" + s) == Some(-m)
  {
    assert ("-" + s)[1..] == s;
  }

  // ---------- hexadecimal ----------

  function HexDigit(n: nat): char
    requires n < 16
  {
    if n < 10 then ('0' as int + n) as char else ('a' as int + n - 10) as char
  }

  /** The value of a hexadecimal digit of either case. */
  function HexValue(c: char): (r: Option<nat>)
    ensures r.Some? ==> r.value < 16
  {
    if '0' <= c <= '9' then Some(c as int - '0' as int)
    else if 'a' <= c <= 'f' then Some(c as int - 'a' as int + 10)
    else if 'A' <= c <= 'F' then Some(c as int - 'A' as int + 10)
    else None
  }

  function Hex(b: string): (s: string)
    requires IsBytes(b)
    ensures |s| == 2 * |b|
  {
    if b == "" then ""
    else [HexDigit(b[0] as int / 16), HexDigit(b[0] as int % 16)] + Hex(b[1..])
  }

  function UnHex(s: string): (r: Option<string>)
    ensures r.Some? ==> IsBytes(r.value) && |s| == 2 * |r.value|
  {
    if s == "" then Some("")
    else if |s| == 1 then None
    else match (HexValue(s[0]), HexValue(s[1]), UnHex(s[2..]))
      case (Some(hi), Some(lo), Some(rest)) => Some([Byte(16 * hi + lo)] + rest)
      case _ => None
  }

  lemma {:induction false} UnHexOfHex(b: string)
    requires IsBytes(b)
    ensures UnHex(Hex(b)) == Some(b)
    ensures OneLine(Hex(b))
    decreases |b|
  {
    if b != "" {
      UnHexOfHex(b[1..]);
      var s := Hex(b);
      assert s[2..] == Hex(b[1..]);
      assert b == [b[0]] + b[1..];
      assert Byte(b[0] as int) == b[0];
    }
  }

  /** Go's ParseHash: full length only. */
  function ParseHash(s: string): Option<Hash32> {
    if |s| != 2 * HASH_SIZE then None
    else match UnHex(s)
      case None => None
      case Some(b) => Some(b)
  }
}
