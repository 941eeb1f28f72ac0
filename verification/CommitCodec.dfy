/** The text form of a commit (pkg/object/commit.go). */
module CommitCodec {
  import opened Objects
  import opened Text
  import opened Names
  import opened Sequences

  datatype Identity = Identity(name: string, email: string)

  /** An instant in seconds since 1970 and the zone offset in seconds. */
  datatype Time = Time(unix: int, offset: int)

  datatype Record = Record(
    tree: Hash32, parents: seq<Hash32>,
    author: Identity, committer: Identity, authorTime: Time, commitTime: Time,
    selector: string, signature: string, message: string)

  // ---------- identities and times ----------

  /** The year-one instant Go calls the zero time. */
  const ZERO_UNIX := -62135596800

  function Pad2(n: nat): string {
    if n < 10 then "0" + Dec(n) else Dec(n)
  }

  function FormatTime(t: Time): string {
    if t.unix == ZERO_UNIX then "0 +0000"
    else
      var off := if t.offset < 0 then -t.offset else t.offset;
      FormatInt(t.unix) + " " + ((if t.offset < 0 then "-" else "+") + Pad2(off / 3600) + Pad2(off % 3600 / 60))
  }

  function FormatIdentity(id: Identity): string {
    if id.email == "" then id.name else id.name + " <" + id.email + ">"
  }

  /** Offset in minutes of a sign and four digits. */
  function ParseTZOffset(s: string): Option<int> {
    if |s| != 5 || (s[0] != '+' && s[0] != '-') then None
    else match (ParseInt(s[1..3]), ParseInt(s[3..5]))
      case (Some(hh), Some(mm)) => Some(if s[0] == '-' then -(hh * 60 + mm) else hh * 60 + mm)
      case _ => None
  }

  /** A number of seconds and an offset, separated by white space. */
  function ParseClock(s: string): Option<Time> {
    var parts := Fields(TrimSpace(s));
    if |parts| != 2 then None
    else match (ParseInt(parts[0]), ParseTZOffset(parts[1]))
      case (Some(unix), Some(minutes)) => Some(Time(unix, minutes * 60))
      case _ => None
  }

  /** Splits at the last angle brackets. */
  function ParseIdentityLine(s: string): Result<(Identity, Time)> {
    var lt, gt := LastIndex(s, '<'), LastIndex(s, '>');
    if lt < 0 || gt < lt then Err(InvalidObject)
    else match ParseClock(s[gt + 1..])
      case None => Err(InvalidObject)
      case Some(t) => Ok((Identity(TrimSpace(s[..lt]), s[lt + 1..gt]), t))
  }

  // ---------- encoding ----------

  function ParentLines(ps: seq<Hash32>): string {
    if ps == [] then "" else "parent " + Hex(ps[0]) + "\n" + ParentLines(ps[1..])
  }

  function SignerLine(id: Identity, t: Time): string {
    FormatIdentity(id) + " " + FormatTime(t)
  }

  function OptionalLine(key: string, value: string): string {
    if value == "" then "" else key + " " + value + "\n"
  }

  /** What stands after the blank line: a final newline is added if missing. */
  function MessageText(m: string): string {
    if m != "" && m[|m| - 1] != '\n' then m + "\n" else m
  }

  function MessageTail(c: Record): string {
    "\n" + MessageText(c.message)
  }

  function SignatureTail(c: Record): string {
    OptionalLine("signature", c.signature) + MessageTail(c)
  }

  function SelectorTail(c: Record): string {
    OptionalLine("selector", c.selector) + SignatureTail(c)
  }

  function CommitterTail(c: Record): string {
    "committer" + " " + SignerLine(c.committer, c.commitTime) + "\n" + SelectorTail(c)
  }

  function AuthorTail(c: Record): string {
    "author" + " " + SignerLine(c.author, c.authorTime) + "\n" + CommitterTail(c)
  }

  function ParentTail(c: Record): string {
    ParentLines(c.parents) + AuthorTail(c)
  }

  function TreeTail(c: Record): string {
    "tree" + " " + Hex(c.tree) + "\n" + ParentTail(c)
  }

  /** Version, tree, parents, author, committer, the optional headers, a blank
      line and the message. */
  function Encode(c: Record): string {
    "version" + " " + "1" + "\n" + TreeTail(c)
  }

  // ---------- decoding ----------

  /** The headers read so far. */
  datatype Draft = Draft(
    version: bool, tree: Option<Hash32>, parents: seq<Hash32>,
    author: Option<(Identity, Time)>, committer: Option<(Identity, Time)>,
    selector: string, signature: string)

  const EMPTY_DRAFT := Draft(false, None, [], None, None, "", "")

  /** One header line; unknown keys are skipped. */
  function ApplyHeader(d: Draft, key: string, value: string): Result<Draft> {
    if key == "version" then
      if ParseInt(value) == Some(1) then Ok(d.(version := true)) else Err(InvalidObject)
    else if key == "tree" then
      (match ParseHash(value) case None => Err(InvalidObject) case Some(h) => Ok(d.(tree := Some(h))))
    else if key == "parent" then
      (match ParseHash(value) case None => Err(InvalidObject) case Some(h) => Ok(d.(parents := d.parents + [h])))
    else if key == "author" then
      (match ParseIdentityLine(value) case Err(e) => Err(e) case Ok(p) => Ok(d.(author := Some(p))))
    else if key == "committer" then
      (match ParseIdentityLine(value) case Err(e) => Err(e) case Ok(p) => Ok(d.(committer := Some(p))))
    else if key == "selector" then Ok(d.(selector := value))
    else if key == "signature" then Ok(d.(signature := value))
    else Ok(d)
  }

  /** Header lines up to the blank one; returns what follows it. */
  function Headers(s: string, d: Draft): Result<(Draft, string)>
    decreases |s|
  {
    if s == "" then Err(InvalidObject)
    else
      var (line, rest) := CutLine(s);
      if line == "" then Ok((d, rest))
      else match CutSpace(line)
        case None => Err(InvalidObject)
        case Some((key, value)) =>
          match ApplyHeader(d, key, value)
          case Err(e) => Err(e)
          case Ok(d') => Headers(rest, d')
  }

  function FinishDraft(d: Draft, rest: string): Result<Record> {
    if !d.version || d.tree.None? || d.author.None? || d.committer.None? then Err(InvalidObject)
    else Ok(Record(d.tree.value, d.parents, d.author.value.0, d.committer.value.0,
                   d.author.value.1, d.committer.value.1, d.selector, d.signature, TrimNewlines(rest)))
  }

  function Decode(payload: string): Result<Record> {
    match Headers(payload, EMPTY_DRAFT)
    case Err(e) => Err(e)
    case Ok((d, rest)) => FinishDraft(d, rest)
  }

  // ---------- which commits survive a round trip ----------

  predicate GoodIdentity(id: Identity) {
    Trimmed(id.name) && OneLine(id.name) && id.email != "" && '<' !in id.email && OneLine(id.email)
  }

  predicate GoodTime(t: Time) {
    && MIN_INT64 <= t.unix <= MAX_INT64 && t.unix != ZERO_UNIX
    && t.offset % 60 == 0 && -360000 < t.offset < 360000
  }

  predicate GoodMessage(m: string) {
    m == "" || m[|m| - 1] != '\n'
  }

  predicate WellFormed(c: Record) {
    && GoodIdentity(c.author) && GoodIdentity(c.committer)
    && GoodTime(c.authorTime) && GoodTime(c.commitTime)
    && OneLine(c.selector) && OneLine(c.signature) && GoodMessage(c.message)
  }

  // ---------- one identity line ----------

  lemma LastIndexIs(s: string, c: char, i: nat)
    requires i < |s| && s[i] == c && forall j :: i < j < |s| ==> s[j] != c
    ensures LastIndex(s, c) == i
  {
  }

  lemma TwoDigits(a: nat, b: nat)
    requires a < 10 && b < 10
    ensures ParseInt([Digit(a), Digit(b)]) == Some(10 * a + b)
  {
    var s := [Digit(a), Digit(b)];
    assert s[..1] == [Digit(a)] && [Digit(a)][..0] == "";
    assert Digits([Digit(a)]) == a;
    assert Digits(s) == 10 * a + b;
  }

  lemma Pad2Digits(n: nat)
    requires n < 100
    ensures Pad2(n) == [Digit(n / 10), Digit(n % 10)]
  {
    if n >= 10 {
      assert Dec(n / 10) == [Digit(n / 10)];
    }
  }

  lemma Pad2Parses(n: nat)
    requires n < 100
    ensures |Pad2(n)| == 2 && ParseInt(Pad2(n)) == Some(n)
    ensures Word(Pad2(n)) && OneLine(Pad2(n)) && '<' !in Pad2(n) && '>' !in Pad2(n)
  {
    Pad2Digits(n);
    TwoDigits(n / 10, n % 10);
  }

  function ZoneText(west: bool, hh: nat, mm: nat): string {
    (if west then "-" else "+") + Pad2(hh) + Pad2(mm)
  }

  lemma ZoneTextParses(west: bool, hh: nat, mm: nat)
    requires hh < 100 && mm < 100
    ensures ParseTZOffset(ZoneText(west, hh, mm)) == Some(if west then -(hh * 60 + mm) else hh * 60 + mm)
    ensures var z := ZoneText(west, hh, mm); Word(z) && OneLine(z) && '<' !in z && '>' !in z
  {
    Pad2Parses(hh);
    Pad2Parses(mm);
    var z := ZoneText(west, hh, mm);
    assert z[1..3] == Pad2(hh) && z[3..5] == Pad2(mm);
  }

  function Zone(offset: int): string {
    var off := if offset < 0 then -offset else offset;
    ZoneText(offset < 0, off / 3600, off % 3600 / 60)
  }

  lemma MinuteParts(off: nat)
    ensures off % 60 == 0 ==> (off / 3600 * 60 + off % 3600 / 60) * 60 == off
    ensures off < 360000 ==> off / 3600 < 100
    ensures off % 3600 / 60 < 60
  {
  }

  lemma ZoneParses(offset: int)
    requires offset % 60 == 0 && -360000 < offset < 360000
    ensures ParseTZOffset(Zone(offset)).Some? && ParseTZOffset(Zone(offset)).value * 60 == offset
    ensures Word(Zone(offset)) && OneLine(Zone(offset)) && '<' !in Zone(offset) && '>' !in Zone(offset)
  {
    var off := if offset < 0 then -offset else offset;
    var hh, mm := off / 3600, off % 3600 / 60;
    WholeMinutes(off, hh, mm);
    ZoneTextParses(offset < 0, hh, mm);
  }

  lemma WholeMinutes(off: nat, hh: nat, mm: nat)
    requires off % 60 == 0 && off < 360000 && hh == off / 3600 && mm == off % 3600 / 60
    ensures hh < 100 && mm < 100 && (hh * 60 + mm) * 60 == off
  {
    MinuteParts(off);
  }

  /** What a well-formed time adds to the line, and how it reads back. */
  lemma TimeParses(t: Time)
    requires GoodTime(t)
    ensures FormatTime(t) == FormatInt(t.unix) + " " + Zone(t.offset)
    ensures Fields(FormatTime(t)) == [FormatInt(t.unix), Zone(t.offset)] && Trimmed(FormatTime(t))
    ensures Plain(FormatTime(t))
  {
    FormatTimeOneLine(t);
    TimeForm(t);
    FormatIntPlain(t.unix);
    ZoneParses(t.offset);
    TwoFields(FormatInt(t.unix), Zone(t.offset));
  }

  lemma TimeForm(t: Time)
    requires t.unix != ZERO_UNIX
    ensures FormatTime(t) == FormatInt(t.unix) + " " + Zone(t.offset)
  {
  }

  /** A line cut at its last angle brackets. */
  lemma BracketsAt(a: string, email: string, tail: string)
    requires '<' !in email && '<' !in tail && '>' !in tail
    ensures
      var s := a + "<" + email + ">" + tail;
      && LastIndex(s, '<') == |a| && LastIndex(s, '>') == |a| + 1 + |email|
      && s[..|a|] == a && s[|a| + 1..|a| + 1 + |email|] == email && s[|a| + 2 + |email|..] == tail
  {
    var s := a + "<" + email + ">" + tail;
    var lt, gt := |a|, |a| + 1 + |email|;
    forall j | lt < j < |s| ensures s[j] != '<' {
      if j < gt { assert s[j] == email[j - lt - 1]; }
      if j > gt { assert s[j] == tail[j - gt - 1]; }
    }
    forall j | gt < j < |s| ensures s[j] != '>' { assert s[j] == tail[j - gt - 1]; }
    LastIndexIs(s, '<', lt);
    LastIndexIs(s, '>', gt);
  }

  lemma ClockParses(t: Time)
    requires GoodTime(t)
    ensures ParseClock(" " + FormatTime(t)) == Some(t)
  {
    TimeParses(t);
    ParseIntOfFormat(t.unix);
    ZoneParses(t.offset);
    TrimLeadingSpace(FormatTime(t));
  }

  lemma SignerForm(id: Identity, t: Time)
    requires id.email != ""
    ensures SignerLine(id, t) == (id.name + " ") + "<" + id.email + ">" + (" " + FormatTime(t))
  {
    assert FormatIdentity(id) == (id.name + " ") + "<" + id.email + ">";
  }

  lemma ParseCut(a: string, email: string, tail: string)
    requires '<' !in email && '<' !in tail && '>' !in tail
    ensures ParseIdentityLine(a + "<" + email + ">" + tail) ==
            if ParseClock(tail).None? then Err(InvalidObject)
            else Ok((Identity(TrimSpace(a), email), ParseClock(tail).value))
  {
    BracketsAt(a, email, tail);
  }

  lemma SignerParses(id: Identity, t: Time)
    requires GoodIdentity(id) && GoodTime(t)
    ensures ParseIdentityLine(SignerLine(id, t)) == Ok((id, t))
  {
    TimeParses(t);
    ClockParses(t);
    SignerForm(id, t);
    TrimTrailingSpace(id.name);
    ParseCut(id.name + " ", id.email, " " + FormatTime(t));
  }

  lemma SignerOneLine(id: Identity, t: Time)
    requires OneLine(id.name) && OneLine(id.email) && OneLine(FormatTime(t))
    ensures OneLine(SignerLine(id, t))
  {
  }

  // ---------- header by header ----------

  function Continue(r: Result<Draft>, rest: string): Result<(Draft, string)> {
    match r
    case Err(e) => Err(e)
    case Ok(d) => Headers(rest, d)
  }

  /** A header line in front of more text. */
  lemma HeaderLine(key: string, value: string, rest: string, d: Draft)
    requires key != "" && ' ' !in key && OneLine(key) && OneLine(value)
    ensures Headers(key + " " + value + "\n" + rest, d) == Continue(ApplyHeader(d, key, value), rest)
  {
    var line := key + " " + value;
    assert key + " " + value + "\n" + rest == line + "\n" + rest;
    CutLineAt(line, rest);
    CutSpaceAt(key, value);
  }

  lemma BlankLine(rest: string, d: Draft)
    ensures Headers("\n" + rest, d) == Ok((d, rest))
  {
    assert "" + "\n" + rest == "\n" + rest;
    CutLineAt("", rest);
  }

  lemma ParentHeader(p: Hash32, rest: string, d: Draft)
    ensures Headers("parent " + Hex(p) + "\n" + rest, d) == Headers(rest, d.(parents := d.parents + [p]))
  {
    UnHexOfHex(p);
    assert "parent " + Hex(p) + "\n" == "parent" + " " + Hex(p) + "\n";
    HeaderLine("parent", Hex(p), rest, d);
  }

  lemma {:induction false} ParentLinesRead(ps: seq<Hash32>, rest: string, d: Draft)
    ensures Headers(ParentLines(ps) + rest, d) == Headers(rest, d.(parents := d.parents + ps))
    decreases |ps|
  {
    if ps == [] {
      assert "" + rest == rest && d.parents + [] == d.parents;
    } else {
      var line := "parent " + Hex(ps[0]) + "\n";
      ConcatAssoc(line, ParentLines(ps[1..]), rest);
      ParentHeader(ps[0], ParentLines(ps[1..]) + rest, d);
      ParentLinesRead(ps[1..], rest, d.(parents := d.parents + [ps[0]]));
      assert ps == [ps[0]] + ps[1..];
      ConcatAssoc(d.parents, [ps[0]], ps[1..]);
    }
  }

  lemma OptionalRead(key: string, value: string, rest: string, d: Draft)
    requires key == "selector" || key == "signature"
    requires OneLine(value)
    requires (if key == "selector" then d.selector else d.signature) == ""
    ensures Headers(OptionalLine(key, value) + rest, d) ==
            Headers(rest, if key == "selector" then d.(selector := value) else d.(signature := value))
  {
    if value == "" {
      assert "" + rest == rest;
    } else {
      HeaderLine(key, value, rest, d);
    }
  }

  // ---------- the round trip ----------

  /** The headers up to the parents read back whatever the rest is. */
  lemma ReadToAuthor(c: Record)
    ensures Headers(Encode(c), EMPTY_DRAFT) ==
            Headers(AuthorTail(c), Draft(true, Some(c.tree), c.parents, None, None, "", ""))
  {
    ParseIntOfFormat(1);
    HeaderLine("version", "1", TreeTail(c), EMPTY_DRAFT);
    var d := EMPTY_DRAFT.(version := true);
    UnHexOfHex(c.tree);
    HeaderLine("tree", Hex(c.tree), ParentTail(c), d);
    ParentLinesRead(c.parents, AuthorTail(c), d.(tree := Some(c.tree)));
    assert [] + c.parents == c.parents;
  }

  function SignersThen(a: Result<(Identity, Time)>, b: Result<(Identity, Time)>, d: Draft,
      rest: string): Result<(Draft, string)> {
    if a.Err? then Err(a.error)
    else if b.Err? then Err(b.error)
    else Headers(rest, d.(author := Some(a.value)).(committer := Some(b.value)))
  }

  lemma ReadSigners(c: Record, d: Draft)
    requires OneLine(SignerLine(c.author, c.authorTime)) && OneLine(SignerLine(c.committer, c.commitTime))
    ensures Headers(AuthorTail(c), d) ==
            SignersThen(ParseIdentityLine(SignerLine(c.author, c.authorTime)),
                        ParseIdentityLine(SignerLine(c.committer, c.commitTime)), d, SelectorTail(c))
  {
    var a := ParseIdentityLine(SignerLine(c.author, c.authorTime));
    AuthorHeader(SignerLine(c.author, c.authorTime), CommitterTail(c), d);
    if a.Ok? {
      CommitterHeader(SignerLine(c.committer, c.commitTime), SelectorTail(c), d.(author := Some(a.value)));
    }
  }

  lemma AuthorHeader(value: string, rest: string, d: Draft)
    requires OneLine(value)
    ensures Headers("author" + " " + value + "\n" + rest, d) ==
            if ParseIdentityLine(value).Err? then Err(ParseIdentityLine(value).error)
            else Headers(rest, d.(author := Some(ParseIdentityLine(value).value)))
  {
    HeaderLine("author", value, rest, d);
  }

  lemma CommitterHeader(value: string, rest: string, d: Draft)
    requires OneLine(value)
    ensures Headers("committer" + " " + value + "\n" + rest, d) ==
            if ParseIdentityLine(value).Err? then Err(ParseIdentityLine(value).error)
            else Headers(rest, d.(committer := Some(ParseIdentityLine(value).value)))
  {
    HeaderLine("committer", value, rest, d);
  }

  lemma ReadOptionals(c: Record, d: Draft)
    requires OneLine(c.selector) && OneLine(c.signature) && d.selector == "" && d.signature == ""
    ensures Headers(SelectorTail(c), d) ==
            Ok((d.(selector := c.selector).(signature := c.signature), MessageText(c.message)))
  {
    OptionalRead("selector", c.selector, SignatureTail(c), d);
    OptionalRead("signature", c.signature, MessageTail(c), d.(selector := c.selector));
    BlankLine(MessageText(c.message), d.(selector := c.selector).(signature := c.signature));
  }

  lemma MessageReads(m: string)
    requires GoodMessage(m)
    ensures TrimNewlines(MessageText(m)) == m
  {
    if m != "" { assert (m + "\n")[..|m|] == m; }
  }

  lemma ZonePlain(offset: int)
    ensures Plain(Zone(offset))
  {
    var off := if offset < 0 then -offset else offset;
    var hh, mm := Pad2(off / 3600), Pad2(off % 3600 / 60);
    Pad2Plain(off / 3600);
    Pad2Plain(off % 3600 / 60);
    PlainConcat(if offset < 0 then "-" else "+", hh);
    PlainConcat((if offset < 0 then "-" else "+") + hh, mm);
  }

  lemma Pad2Plain(n: nat)
    ensures Plain(Pad2(n))
  {
    DecPlain(n);
    PlainConcat("0", Dec(n));
  }

  lemma FormatTimeOneLine(t: Time)
    ensures Plain(FormatTime(t))
  {
    if t.unix != ZERO_UNIX {
      FormatIntPlain(t.unix);
      ZonePlain(t.offset);
      PlainConcat(FormatInt(t.unix), " ");
      PlainConcat(FormatInt(t.unix) + " ", Zone(t.offset));
    }
  }

  /** The draft after the version, tree and parent lines. */
  function ParentsRead(c: Record): Draft {
    Draft(true, Some(c.tree), c.parents, None, None, "", "")
  }

  function SignersRead(c: Record): Draft {
    ParentsRead(c).(author := Some((c.author, c.authorTime)), committer := Some((c.committer, c.commitTime)))
  }

  lemma ReadHeaders(c: Record)
    requires OneLine(c.author.name) && OneLine(c.author.email)
    requires OneLine(c.committer.name) && OneLine(c.committer.email)
    ensures Headers(Encode(c), EMPTY_DRAFT) ==
            SignersThen(ParseIdentityLine(SignerLine(c.author, c.authorTime)),
                        ParseIdentityLine(SignerLine(c.committer, c.commitTime)), ParentsRead(c), SelectorTail(c))
  {
    ReadToAuthor(c);
    FormatTimeOneLine(c.authorTime);
    FormatTimeOneLine(c.commitTime);
    SignerOneLine(c.author, c.authorTime);
    SignerOneLine(c.committer, c.commitTime);
    ReadSigners(c, ParentsRead(c));
  }

  lemma DecodeOfEncode(c: Record)
    requires WellFormed(c)
    ensures Decode(Encode(c)) == Ok(c)
  {
    ReadHeaders(c);
    SignerParses(c.author, c.authorTime);
    SignerParses(c.committer, c.commitTime);
    FinishExact(c);
    ReadOptionals(c, SignersRead(c));
  }

  lemma FinishExact(c: Record)
    requires GoodMessage(c.message)
    ensures
      FinishDraft(SignersRead(c).(selector := c.selector).(signature := c.signature), MessageText(c.message)) == Ok(c)
  {
    MessageReads(c.message);
  }

  // ---------- and its converse ----------

  predicate DraftShape(d: Draft) {
    && (d.author.Some? ==> OneLine(d.author.value.0.name) && OneLine(d.author.value.0.email))
    && (d.committer.Some? ==> OneLine(d.committer.value.0.name) && OneLine(d.committer.value.0.email))
    && OneLine(d.selector) && OneLine(d.signature)
  }

  lemma IdentityOneLine(s: string)
    requires OneLine(s) && ParseIdentityLine(s).Ok?
    ensures OneLine(ParseIdentityLine(s).value.0.name) && OneLine(ParseIdentityLine(s).value.0.email)
  {
    TrimSpaceShape(s[..LastIndex(s, '<')]);
  }

  lemma ApplyShape(d: Draft, key: string, value: string)
    requires DraftShape(d) && OneLine(value) && ApplyHeader(d, key, value).Ok?
    ensures DraftShape(ApplyHeader(d, key, value).value)
  {
    if key == "author" || key == "committer" { IdentityOneLine(value); }
  }

  lemma {:induction false} HeadersShape(s: string, d: Draft)
    requires DraftShape(d) && Headers(s, d).Ok?
    ensures DraftShape(Headers(s, d).value.0)
    decreases |s|
  {
    var (line, rest) := CutLine(s);
    if line != "" {
      var (key, value) := CutSpace(line).value;
      ApplyShape(d, key, value);
      HeadersShape(rest, ApplyHeader(d, key, value).value);
    }
  }

  lemma Pad2Long(n: nat)
    requires n >= 100
    ensures |Pad2(n)| >= 3
  {
    assert Dec(n) == Dec(n / 10) + [Digit(n % 10)];
    assert Dec(n / 10) == Dec(n / 100) + [Digit(n / 10 % 10)];
  }

  lemma LongZone(offset: int)
    requires offset <= -360000 || offset >= 360000
    ensures |Zone(offset)| >= 6 && Word(Zone(offset))
  {
    var off := if offset < 0 then -offset else offset;
    Pad2Long(off / 3600);
    Pad2Word(off % 3600 / 60);
  }

  lemma Pad2Word(n: nat)
    ensures Word(Pad2(n)) && |Pad2(n)| >= 2
  {
    if n >= 10 { assert Dec(n) == Dec(n / 10) + [Digit(n % 10)]; }
  }

  /** An offset of a hundred hours or more does not fit the field. */
  lemma LongZoneFails(t: Time)
    requires t.unix != ZERO_UNIX && (t.offset <= -360000 || t.offset >= 360000)
    ensures ParseClock(" " + FormatTime(t)) == None
  {
    LongZone(t.offset);
    FormatIntPlain(t.unix);
    assert FormatTime(t) == FormatInt(t.unix) + " " + Zone(t.offset);
    TwoFields(FormatInt(t.unix), Zone(t.offset));
    TrimLeadingSpace(FormatTime(t));
  }

  /** The zero time is written as second 0. */
  lemma ZeroTimeReads(t: Time)
    requires t.unix == ZERO_UNIX
    ensures ParseClock(" " + FormatTime(t)) == Some(Time(0, 0))
  {
    ZeroFields();
    ZeroZone();
    ParseIntOfFormat(0);
  }

  lemma ZeroFields()
    ensures Fields(TrimSpace(" " + "0 +0000")) == ["0", "+0000"]
  {
    assert "0 +0000" == "0" + " " + "+0000";
    TwoFields("0", "+0000");
    TrimLeadingSpace("0 +0000");
  }

  lemma ZeroZone()
    ensures ParseTZOffset("+0000") == Some(0)
  {
    TwoDigits(0, 0);
    assert "+0000"[1..3] == [Digit(0), Digit(0)] && "+0000"[3..5] == [Digit(0), Digit(0)];
  }

  /** Without an email of its own, the line reads back a shorter name, if any. */
  lemma NoEmailShrinksName(name: string, t: Time)
    requires ParseIdentityLine(name + " " + FormatTime(t)).Ok?
    ensures |ParseIdentityLine(name + " " + FormatTime(t)).value.0.name| < |name|
  {
    var tail := " " + FormatTime(t);
    var s := name + tail;
    assert s == name + " " + FormatTime(t);
    FormatTimeOneLine(t);
    var lt := LastIndex(s, '<');
    forall j | |name| <= j < |s| ensures s[j] != '<' { assert s[j] == tail[j - |name|]; }
  }

  lemma ClockShape(s: string)
    ensures ParseClock(s).Some? ==>
              && MIN_INT64 <= ParseClock(s).value.unix <= MAX_INT64
              && ParseClock(s).value.offset % 60 == 0
  {
    if ParseClock(s).Some? { SixtyTimes(ParseTZOffset(Fields(TrimSpace(s))[1]).value); }
  }

  lemma SixtyTimes(m: int)
    ensures m * 60 % 60 == 0
  {
  }

  lemma ClockExact(t: Time)
    requires ParseClock(" " + FormatTime(t)) == Some(t)
    ensures GoodTime(t)
  {
    ClockShape(" " + FormatTime(t));
    if t.unix == ZERO_UNIX { ZeroTimeReads(t); }
    if t.unix != ZERO_UNIX && (t.offset <= -360000 || t.offset >= 360000) { LongZoneFails(t); }
  }

  /** An identity line reads back only if it is well formed. */
  lemma SignerExact(id: Identity, t: Time)
    requires OneLine(id.name) && OneLine(id.email)
    requires ParseIdentityLine(SignerLine(id, t)) == Ok((id, t))
    ensures GoodIdentity(id) && GoodTime(t)
  {
    var s := SignerLine(id, t);
    TrimSpaceShape(s[..LastIndex(s, '<')]);
    if id.email == "" { NoEmailShrinksName(id.name, t); }
    assert '<' !in id.email;
    FormatTimeOneLine(t);
    SignerForm(id, t);
    ParseCut(id.name + " ", id.email, " " + FormatTime(t));
    ClockExact(t);
  }

  /** Encoding then decoding gives the commit back exactly for the well-formed
      commits. */
  lemma RoundTripIffWellFormed(c: Record)
    ensures Decode(Encode(c)) == Ok(c) <==> WellFormed(c)
  {
    if WellFormed(c) { DecodeOfEncode(c); }
    if Decode(Encode(c)) == Ok(c) {
      DecodedShape(Encode(c));
      SurvivorSigners(c);
      SignerExact(c.author, c.authorTime);
      SignerExact(c.committer, c.commitTime);
    }
  }

  predicate OneLineFields(c: Record) {
    && OneLine(c.author.name) && OneLine(c.author.email)
    && OneLine(c.committer.name) && OneLine(c.committer.email)
    && OneLine(c.selector) && OneLine(c.signature)
  }

  /** What decoding reads was cut out of lines. */
  lemma DecodedShape(s: string)
    requires Decode(s).Ok?
    ensures OneLineFields(Decode(s).value) && GoodMessage(Decode(s).value.message)
  {
    HeadersShape(s, EMPTY_DRAFT);
    TrimNewlinesShape(Headers(s, EMPTY_DRAFT).value.1);
  }

  /** A commit that reads back got its two identities from their own lines. */
  lemma SurvivorSigners(c: Record)
    requires Decode(Encode(c)) == Ok(c) && OneLineFields(c)
    ensures ParseIdentityLine(SignerLine(c.author, c.authorTime)) == Ok((c.author, c.authorTime))
    ensures ParseIdentityLine(SignerLine(c.committer, c.commitTime)) == Ok((c.committer, c.commitTime))
  {
    var a := ParseIdentityLine(SignerLine(c.author, c.authorTime));
    var b := ParseIdentityLine(SignerLine(c.committer, c.commitTime));
    ReadHeaders(c);
    assert a.Ok? && b.Ok?;
    ReadOptionals(c, ParentsRead(c).(author := Some(a.value)).(committer := Some(b.value)));
  }

  /** Two well-formed commits with the same bytes are the same commit. */
  lemma EncodeInjective(c: Record, d: Record)
    requires WellFormed(c) && WellFormed(d) && Encode(c) == Encode(d)
    ensures c == d
  {
    DecodeOfEncode(c);
    DecodeOfEncode(d);
  }

  // ---------- the loops ----------

  /** The loop over the parents. */
  method AppendParents(start: string, parents: seq<Hash32>) returns (buf: string)
    ensures buf == start + ParentLines(parents)
  {
    buf := start;
    assert parents[0..] == parents;
    for i := 0 to |parents|
      invariant buf + ParentLines(parents[i..]) == start + ParentLines(parents)
    {
      var line := "parent " + Hex(parents[i]) + "\n";
      assert parents[i..][0] == parents[i] && parents[i..][1..] == parents[i + 1..];
      ConcatAssoc(buf, line, ParentLines(parents[i + 1..]));
      buf := buf + line;
    }
  }

  /** The lines written only when there is something to say, and the message. */
  method TailLines(c: Record) returns (optional: string, message: string)
    ensures optional == OptionalLine("selector", c.selector) + OptionalLine("signature", c.signature)
    ensures message == MessageTail(c)
  {
    optional := "";
    if c.selector != "" { optional := optional + ("selector" + " " + c.selector + "\n"); }
    if c.signature != "" { optional := optional + ("signature" + " " + c.signature + "\n"); }
    message := "\n" + c.message;
    if c.message != "" && c.message[|c.message| - 1] != '\n' { message := message + "\n"; }
  }

  /** Writes the buffer line by line. */
  method EncodeCommit(c: Record) returns (payload: string)
    ensures payload == Encode(c)
  {
    var buf := "version" + " " + "1" + "\n" + ("tree" + " " + Hex(c.tree) + "\n");
    buf := AppendParents(buf, c.parents);
    var signers := "author" + " " + SignerLine(c.author, c.authorTime) + "\n"
      + ("committer" + " " + SignerLine(c.committer, c.commitTime) + "\n");
    buf := buf + signers;
    var optional, message := TailLines(c);
    EncodePieces(c, signers, optional, message);
    return buf + optional + message;
  }

  lemma EncodePieces(c: Record, signers: string, optional: string, message: string)
    requires signers == "author" + " " + SignerLine(c.author, c.authorTime) + "\n"
                        + ("committer" + " " + SignerLine(c.committer, c.commitTime) + "\n")
    requires optional == OptionalLine("selector", c.selector) + OptionalLine("signature", c.signature)
    requires message == MessageTail(c)
    ensures Encode(c) == "version" + " " + "1" + "\n" + ("tree" + " " + Hex(c.tree) + "\n")
                         + ParentLines(c.parents) + signers + optional + message
  {
    var a := "author" + " " + SignerLine(c.author, c.authorTime) + "\n";
    var b := "committer" + " " + SignerLine(c.committer, c.commitTime) + "\n";
    ConcatAssoc(OptionalLine("selector", c.selector), OptionalLine("signature", c.signature), message);
    assert SelectorTail(c) == optional + message;
    ConcatAssoc(a, b, optional + message);
    assert AuthorTail(c) == signers + (optional + message);
    ConcatAssoc(signers, optional, message);
    var v, t, p := "version" + " " + "1" + "\n", "tree" + " " + Hex(c.tree) + "\n", ParentLines(c.parents);
    FiveParts(v, t, p, signers, optional, message);
  }

  lemma FiveParts(v: string, t: string, p: string, s: string, o: string, m: string)
    ensures v + (t + (p + (s + (o + m)))) == v + t + p + s + o + m
  {
  }

  /** Reads header lines until the blank one, then the message. */
  method DecodeCommit(payload: string) returns (r: Result<Record>)
    ensures r == Decode(payload)
  {
    var rest, d := payload, EMPTY_DRAFT;
    while true
      invariant Headers(payload, EMPTY_DRAFT) == Headers(rest, d)
      decreases |rest|
    {
      if rest == "" { return Err(InvalidObject); }
      var (line, after) := CutLine(rest);
      if line == "" {
        return FinishDraft(d, after);
      }
      var kv := CutSpace(line);
      if kv.None? { return Err(InvalidObject); }
      var applied := ApplyHeader(d, kv.value.0, kv.value.1);
      if applied.Err? { return Err(applied.error); }
      rest, d := after, applied.value;
    }
  }
}
