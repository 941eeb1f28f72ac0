/** Commit signatures (pkg/sign/sign.go) over an abstract signature scheme. */
module Sign {
  import opened Objects
  import opened CommitCodec
  import opened Text
  import opened Names

  /** The key pair's two operations and the text form of a signature. */
  datatype Scheme = Scheme(
    sign: string -> string,
    verify: (string, string) -> bool,
    toText: string -> string,
    fromText: string -> Option<string>)

  /** What a working scheme offers: its own signatures verify, and their text
      form is one line that reads back. */
  ghost predicate Works(k: Scheme) {
    && (forall m :: k.verify(m, k.sign(m)))
    && (forall s :: k.fromText(k.toText(s)) == Some(s) && OneLine(k.toText(s)))
  }

  /** No signature verifies for a message other than the signed one. */
  ghost predicate Binds(k: Scheme, m: string, s: string) {
    forall m' :: k.verify(m', s) ==> m' == m
  }

  const PREFIX := "ed25519:"

  datatype Verdict = Valid | Unsigned | BadFormat | Mismatch

  function Bare(c: Record): Record {
    c.(signature := "")
  }

  /** Signs the bytes of the commit without its signature line. */
  function SignCommit(k: Scheme, c: Record): Record {
    c.(signature := PREFIX + k.toText(k.sign(Encode(Bare(c)))))
  }

  function VerifyCommit(k: Scheme, c: Record): Verdict {
    if c.signature == "" then Unsigned
    else if !HasPrefix(c.signature, PREFIX) then BadFormat
    else match k.fromText(c.signature[|PREFIX|..])
      case None => BadFormat
      case Some(s) => if k.verify(Encode(Bare(c)), s) then Valid else Mismatch
  }

  /** A signed commit that is stored and read back verifies, whatever signature
      it carried before. */
  lemma SignedCommitVerifies(k: Scheme, c: Record)
    requires Works(k) && WellFormed(c)
    ensures Decode(Encode(SignCommit(k, c))) == Ok(SignCommit(k, c))
    ensures VerifyCommit(k, SignCommit(k, c)) == Valid
  {
    SignedWellFormed(k, c);
    DecodeOfEncode(SignCommit(k, c));
    SignedIsValid(k, c);
  }

  lemma SignedWellFormed(k: Scheme, c: Record)
    requires Works(k) && WellFormed(c)
    ensures WellFormed(SignCommit(k, c))
  {
    var text := k.toText(k.sign(Encode(Bare(c))));
    assert OneLine(text);
    PrefixedOneLine(text);
  }

  lemma PrefixedOneLine(text: string)
    requires OneLine(text)
    ensures OneLine(PREFIX + text)
  {
  }

  lemma SignedIsValid(k: Scheme, c: Record)
    requires Works(k)
    ensures VerifyCommit(k, SignCommit(k, c)) == Valid
  {
    var s := SignCommit(k, c);
    var sig := k.sign(Encode(Bare(c)));
    assert Bare(s) == Bare(c);
    assert s.signature[|PREFIX|..] == k.toText(sig);
  }

  /** The signature line is the prefix and a text that decodes to `s`. */
  ghost predicate SignatureIs(k: Scheme, c: Record, s: string) {
    exists t: string :: c.signature == "ed25519:" + t && k.fromText(t) == Some(s)
  }

  /** The key verifies some signature that the line spells, for the bytes of the
      commit without that line. */
  ghost predicate Endorsed(k: Scheme, c: Record) {
    exists s: string :: SignatureIs(k, c, s) && k.verify(Encode(c.(signature := "")), s)
  }

  /** The four answers, for every commit and every key: each is given in one
      case, and the cases exclude each other. */
  lemma VerdictExact(k: Scheme, c: Record)
    ensures VerifyCommit(k, c) == Valid <==> Endorsed(k, c)
    ensures VerifyCommit(k, c) == Unsigned <==> c.signature == ""
    ensures VerifyCommit(k, c) == BadFormat <==> c.signature != "" && forall s :: !SignatureIs(k, c, s)
    ensures VerifyCommit(k, c) == Mismatch <==> (exists s :: SignatureIs(k, c, s)) && !Endorsed(k, c)
  {
    var sig := c.signature;
    forall t: string | sig == "ed25519:" + t ensures HasPrefix(sig, PREFIX) && sig[|PREFIX|..] == t {}
    if HasPrefix(sig, PREFIX) {
      assert sig == "ed25519:" + sig[|PREFIX|..];
      var text := k.fromText(sig[|PREFIX|..]);
      if text.Some? { assert SignatureIs(k, c, text.value); }
    }
  }

  /** A signature moved to another commit verifies only if that commit is the
      signed one in every other field. */
  lemma SignatureCoversCommit(k: Scheme, c: Record, d: Record)
    requires Works(k) && WellFormed(c) && WellFormed(d)
    requires Binds(k, Encode(Bare(c)), k.sign(Encode(Bare(c))))
    requires d.signature == SignCommit(k, c).signature
    ensures VerifyCommit(k, d) == Valid <==> Bare(d) == Bare(c)
  {
    var sig := k.sign(Encode(Bare(c)));
    assert d.signature[|PREFIX|..] == k.toText(sig);
    if VerifyCommit(k, d) == Valid {
      EncodeInjective(Bare(c), Bare(d));
    }
  }
}
