/** Which commits can be read again, and so which authors leave their branch
    usable (pkg/object/commit.go, pkg/repo). */
module CommitUse {
  import opened Objects
  import opened Text
  import opened Names
  import opened CommitCodec
  import opened Sequences

  // ---------- a clock behind other text ----------

  predicate AllSpace(s: string) {
    forall i :: 0 <= i < |s| ==> IsSpace(s[i])
  }

  lemma {:induction false} TrimSpaces(u: string, y: string)
    requires AllSpace(u)
    ensures TrimLeft(u + y) == TrimLeft(y)
    decreases |u|
  {
    if u == "" {
      assert u + y == y;
    } else {
      assert (u + y)[1..] == u[1..] + y;
      TrimSpaces(u[1..], y);
    }
  }

  lemma {:induction false} TrimLeftWord(u: string, y: string)
    requires !AllSpace(u)
    ensures TrimLeft(u + y) == TrimLeft(u) + y && TrimLeft(u) != "" && !IsSpace(TrimLeft(u)[0])
    decreases |u|
  {
    if IsSpace(u[0]) {
      assert (u + y)[1..] == u[1..] + y;
      assert !AllSpace(u[1..]) by {
        var i :| 0 <= i < |u| && !IsSpace(u[i]);
        assert u[1..][i - 1] == u[i];
      }
      TrimLeftWord(u[1..], y);
    }
  }

  lemma SameTrimSameFields(a: string, b: string)
    requires TrimLeft(a) == TrimLeft(b)
    ensures Fields(a) == Fields(b)
  {
  }

  lemma {:induction false} FirstWordShape(s: string)
    ensures FirstWord(s) <= s
    ensures |FirstWord(s)| < |s| ==> IsSpace(s[|FirstWord(s)|])
    ensures Word(FirstWord(s)) || FirstWord(s) == ""
    decreases |s|
  {
    if s != "" && !IsSpace(s[0]) { FirstWordShape(s[1..]); }
  }

  /** Text in front of a space adds words unless it is all white space. */
  lemma {:induction false} FieldsBehind(u: string, y: string)
    ensures AllSpace(u) ==> Fields(u + (" " + y)) == Fields(y)
    ensures !AllSpace(u) ==> |Fields(u + (" " + y))| > |Fields(y)|
    decreases |u|
  {
    if AllSpace(u) {
      assert u + (" " + y) == (u + " ") + y;
      TrimSpaces(u + " ", y);
      SameTrimSameFields(u + (" " + y), y);
    } else {
      var rest := DropWord(u, y);
      FieldsBehind(rest, y);
    }
  }

  lemma DropWord(u: string, y: string) returns (rest: string)
    requires !AllSpace(u)
    ensures |rest| < |u| && |Fields(u + (" " + y))| == 1 + |Fields(rest + (" " + y))|
  {
    var v := TrimLeft(u);
    TrimLeftWord(u, " " + y);
    TrimLeftPart(u);
    FirstWordShape(v);
    var w := FirstWord(v);
    rest := v[|w|..];
    ConcatAssoc(w, rest, " " + y);
    OneField(u + (" " + y), w, rest + (" " + y));
  }

  lemma OneField(s: string, w: string, x: string)
    requires TrimLeft(s) == w + x && Word(w) && (x == "" || IsSpace(x[0]))
    ensures |Fields(s)| == 1 + |Fields(x)|
  {
    FirstWordThen(w, x);
    assert (w + x)[|w|..] == x;
  }

  lemma TrimSpaceFields(s: string)
    requires s != "" && !IsSpace(s[|s| - 1])
    ensures Fields(TrimSpace(s)) == Fields(s)
  {
    var t := TrimLeft(s);
    TrimLeftPart(s);
    assert t != "" by { LastStays(s); }
    assert t[|t| - 1] == s[|s| - 1];
    assert TrimRight(t) == t && TrimLeft(t) == t;
    SameTrimSameFields(t, s);
  }

  lemma {:induction false} LastStays(s: string)
    requires s != "" && !IsSpace(s[|s| - 1])
    ensures TrimLeft(s) != ""
    decreases |s|
  {
    if IsSpace(s[0]) { LastStays(s[1..]); }
  }

  /** Behind other text the time reads iff that text is all white space. */
  lemma ClockBehindIff(rest: string, t: Time)
    requires GoodTime(t)
    ensures ParseClock(rest + (" " + FormatTime(t))).Some? <==> AllSpace(rest)
  {
    var f := FormatTime(t);
    var s := rest + (" " + f);
    TimeParses(t);
    ParseIntOfFormat(t.unix);
    ZoneParses(t.offset);
    ClockEnd(t);
    assert s[|s| - 1] == f[|f| - 1];
    TrimSpaceFields(s);
    FieldsBehind(rest, f);
  }

  lemma ClockEnd(t: Time)
    requires GoodTime(t)
    ensures FormatTime(t) != "" && !IsSpace(FormatTime(t)[|FormatTime(t)| - 1])
  {
    TimeParses(t);
    ZoneParses(t.offset);
    var z := Zone(t.offset);
    assert FormatTime(t)[|FormatTime(t)| - 1] == z[|z| - 1];
  }

  // ---------- one identity line ----------

  /** A name that ends in a bracketed part of its own. */
  predicate Bracketed(name: string) {
    var lt, gt := LastIndex(name, '<'), LastIndex(name, '>');
    0 <= lt <= gt && AllSpace(name[gt + 1..])
  }

  predicate SignerReads(id: Identity) {
    id.email != "" || Bracketed(id.name)
  }

  lemma LastIndexInFront(a: string, tail: string, c: char)
    requires c !in tail
    ensures LastIndex(a + tail, c) == LastIndex(a, c)
  {
    var s, i := a + tail, LastIndex(a, c);
    forall j | i < j < |s| ensures s[j] != c {
      if j >= |a| { assert s[j] == tail[j - |a|]; }
    }
    if i >= 0 {
      LastIndexIs(s, c, i);
    } else {
      assert LastIndex(s, c) < 0;
    }
  }

  /** With an email the line always reads. */
  lemma EmailLineReads(id: Identity, t: Time)
    requires id.email != "" && GoodTime(t)
    ensures ParseIdentityLine(SignerLine(id, t)).Ok?
  {
    var a, tail := id.name + " " + "<" + id.email, " " + FormatTime(t);
    var s := SignerLine(id, t);
    FormatTimeOneLine(t);
    SignerForm(id, t);
    assert s == (a + ">") + tail;
    LastIndexInFront(a + ">", tail, '<');
    LastIndexInFront(a + ">", tail, '>');
    LastIndexIs(a + ">", '>', |a|);
    assert a[|id.name| + 1] == '<' && (a + ">")[|id.name| + 1] == '<';
    assert s[|a| + 1..] == tail;
    ClockParses(t);
  }

  /** Without one it reads iff the name supplies the brackets. */
  lemma BareLineReadsIff(name: string, t: Time)
    requires GoodTime(t)
    ensures ParseIdentityLine(SignerLine(Identity(name, ""), t)).Ok? <==> Bracketed(name)
  {
    BareLine(name, t);
    FormatTimeOneLine(t);
    TailParsesIff(name, " " + FormatTime(t));
    TailReadsIff(name, t);
  }

  /** The last brackets are in the name and the rest of the line is a clock. */
  predicate TailReads(name: string, tail: string) {
    var lt, gt := LastIndex(name, '<'), LastIndex(name, '>');
    0 <= lt <= gt && ParseClock(name[gt + 1..] + tail).Some?
  }

  lemma TailReadsIff(name: string, t: Time)
    requires GoodTime(t)
    ensures TailReads(name, " " + FormatTime(t)) <==> Bracketed(name)
  {
    var gt := LastIndex(name, '>');
    if gt >= 0 {
      ClockBehindIff(name[gt + 1..], t);
      TailReadsFrom(name, name[gt + 1..], " " + FormatTime(t));
    }
  }

  lemma TailReadsFrom(name: string, rest: string, tail: string)
    requires LastIndex(name, '>') >= 0 && name[LastIndex(name, '>') + 1..] == rest
    requires ParseClock(rest + tail).Some? <==> AllSpace(rest)
    ensures TailReads(name, tail) <==> Bracketed(name)
  {
  }

  lemma BareLine(name: string, t: Time)
    ensures SignerLine(Identity(name, ""), t) == name + (" " + FormatTime(t))
  {
    ConcatAssoc(name, " ", FormatTime(t));
  }

  lemma TailParsesIff(name: string, tail: string)
    requires '<' !in tail && '>' !in tail
    ensures ParseIdentityLine(name + tail).Ok? <==> TailReads(name, tail)
  {
    LastIndexInFront(name, tail, '<');
    LastIndexInFront(name, tail, '>');
    var lt, gt := LastIndex(name, '<'), LastIndex(name, '>');
    RestOf(name, tail, gt + 1);
    LineReads(name + tail, lt, gt, name[gt + 1..] + tail);
  }

  lemma LineReads(s: string, lt: int, gt: int, rest: string)
    requires LastIndex(s, '<') == lt && LastIndex(s, '>') == gt && s[gt + 1..] == rest
    ensures ParseIdentityLine(s).Ok? <==> 0 <= lt <= gt && ParseClock(rest).Some?
  {
  }

  lemma RestOf(a: string, b: string, i: nat)
    requires i <= |a|
    ensures (a + b)[i..] == a[i..] + b
  {
  }

  lemma SignerReadsIff(id: Identity, t: Time)
    requires GoodTime(t)
    ensures ParseIdentityLine(SignerLine(id, t)).Ok? <==> SignerReads(id)
  {
    if id.email != "" {
      EmailLineReads(id, t);
    } else {
      BareLineReadsIff(id.name, t);
      assert id == Identity(id.name, "");
    }
  }

  // ---------- whole commits ----------

  /** What the object model keeps of a commit besides its tree and parents. */
  function MetaOf(c: Record): Meta {
    Meta(AuthorTail(c), Decode(Encode(c)).Ok?)
  }

  /** A commit can be read again iff each of its two identities has an email or a
      name that supplies the brackets; then its tree and parents come back. A
      branch whose tip cannot be read takes no further commit. */
  lemma LegibleIff(c: Record)
    requires OneLineFields(c) && GoodTime(c.authorTime) && GoodTime(c.commitTime)
    ensures MetaOf(c).legible <==> SignerReads(c.author) && SignerReads(c.committer)
    ensures MetaOf(c).legible ==>
              Decode(Encode(c)).value.tree == c.tree && Decode(Encode(c)).value.parents == c.parents
  {
    var a := ParseIdentityLine(SignerLine(c.author, c.authorTime));
    var b := ParseIdentityLine(SignerLine(c.committer, c.commitTime));
    SignerReadsIff(c.author, c.authorTime);
    SignerReadsIff(c.committer, c.commitTime);
    ReadHeaders(c);
    if a.Ok? && b.Ok? {
      ReadOptionals(c, ParentsRead(c).(author := Some(a.value)).(committer := Some(b.value)));
    }
  }

  /** Well-formed identities are always readable, an author with neither email
      nor brackets never is. */
  lemma AuthorDecides(c: Record)
    requires OneLineFields(c) && GoodTime(c.authorTime) && GoodTime(c.commitTime)
    ensures GoodIdentity(c.author) && GoodIdentity(c.committer) ==> MetaOf(c).legible
    ensures c.author.email == "" && '<' !in c.author.name ==> !MetaOf(c).legible
  {
    LegibleIff(c);
  }
}
