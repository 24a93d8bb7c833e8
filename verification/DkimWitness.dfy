/** A signer and a scheme that meet all the hypotheses, and signatures that go wrong with them. */
module DkimWitness {
  import opened Common
  import opened Strings
  import opened DkimParser
  import opened DkimHeader
  import opened DkimCanon
  import opened DkimSelect
  import opened DkimTwoPass
  import opened DkimExact
  import opened DkimSign
  import opened DkimAgree
  import opened DkimVerified
  import opened DkimStatic

  function As(n: nat): (s: string)
    ensures |s| == n && forall i | 0 <= i < n :: s[i] == 'A'
  {
    seq(n, _ => 'A')
  }

  function Digest(): (HashAlgo, string) -> string { (_, s) => "d" + s }

  /** The two signatures there are have `n` characters; everything else is short. */
  function Base64(n: nat): string -> string
    requires n > 0
  {
    s => if s == "1" then As(n) else if s == "0" then As(n - 1) + "B" else "AAAA"
  }

  /** A scheme that signs the bytes `x` with one signature and all others with another. */
  function Scheme(n: nat, x: string): Crypto
    requires n > 0
  {
    Crypto(Digest(), Base64(n),
           t => if t == As(n) then Some("1") else Some("0"),
           (_, h) => if h == "d" + x then "1" else "0",
           (_, g, s, _) => Ok(s == if g == "d" + x then "1" else "0"),
           (_, _) => Some([0]))
  }

  function Example(): Signer {
    Signer(["from"], "example.com", "s", Simple, Simple, RsaSha256, "0", None, false)
  }

  lemma {:induction false} AsBase64(n: nat)
    requires n > 0
    ensures Base64Like(As(n)) && (n > 1 ==> Base64Like(As(n - 1) + "B"))
  {
    NoPadding(As(n));
    if n > 1 { NoPadding(As(n - 1) + "B"); }
  }

  lemma {:induction false} NoPadding(s: string)
    requires forall i | 0 <= i < |s| :: s[i] != '='
    ensures Padded(s)
  {
    if s != "" { NoPadding(s[1..]); }
  }

  lemma {:induction false} ExampleOk(n: nat, x: string)
    requires n > 1
    ensures SignerOk(Example(), Scheme(n, x))
  {
    AsBase64(n);
    assert ListOk(["from"]) by { assert Lower("from") == "from"; }
  }

  lemma {:induction false} SchemeAccepts(n: nat, x: string)
    requires n > 1
    ensures Accepting(Scheme(n, x), Example()) && NotFooled(Scheme(n, x), Example(), x)
  {
    var c, s := Scheme(n, x), Example();
    assert As(n)[n - 1] != (As(n - 1) + "B")[n - 1];
    forall h ensures KeyAccepts(c, s, h) {
      assert c.verify(s.algo, h, c.sign(s.algo, h), 0) == Ok(true) && 0 in c.keys(s.domain, s.selector).value;
    }
    forall y ensures y == x || Rejects(c, s, x, y) { SuffixSame("d", y, x); }
  }

  lemma {:induction false} SchemeSize(n: nat, x: string)
    requires n > 1
    ensures KeySize(Scheme(n, x), Example(), n)
  {
    var c, s := Scheme(n, x), Example();
    AsBase64(n);
    forall h ensures SizedSignature(c, s, h, n) {
      assert c.sign(s.algo, h) in {"0", "1"};
    }
    forall t ensures ShortHash(c, s, t) {
      assert ("d" + t)[0] == 'd';
    }
  }

  // ---- the bytes to be signed do not depend on the key ------------------------------------------

  lemma {:induction false} SameBody(c: Crypto, e: Crypto, algo: HashAlgo, ty: Type, body: string)
    requires c.digest == e.digest && c.base64 == e.base64
    ensures BodyHash(c, algo, ty, None, body) == BodyHash(e, algo, ty, None, body)
  {
  }

  lemma {:induction false} SameTagsSigned(signer: Signer, c: Crypto, e: Crypto, email: Email, name: string,
                                          extra: seq<Tag>)
    requires c.digest == e.digest && c.base64 == e.base64
    ensures BuilderTags(signer, c, email, name, extra) == BuilderTags(signer, e, email, name, extra)
  {
    var list := EffectiveList(signer, email);
    SameBody(c, e, signer.algo, signer.bodyCanon, email.body);
    assert MessageTags(signer, c, email, list) == MessageTags(signer, e, email, list);
    assert Plan(signer, c, email, list, name, extra) == Plan(signer, e, email, list, name, extra);
  }

  lemma {:induction false} SameInput(signer: Signer, c: Crypto, e: Crypto, email: Email, name: string, extra: seq<Tag>)
    requires c.digest == e.digest && c.base64 == e.base64
    ensures SignedInput(signer, c, email, name, extra) == SignedInput(signer, e, email, name, extra)
  {
    SameTagsSigned(signer, c, e, email, name, extra);
  }

  /** The scheme that tells the bytes of this message from all others. */
  function SchemeFor(n: nat, email: Email): Crypto
    requires n > 0
  {
    Scheme(n, SignedInput(Example(), Scheme(n, ""), email, DKIM_SIGNATURE, []))
  }

  /** The hypotheses about signer, scheme and key can all be met together, for every message and every key size. */
  lemma {:induction false} HypothesesHold(n: nat, email: Email)
    requires n > 1
    ensures var c, s := SchemeFor(n, email), Example();
            && SignerOk(s, c) && Accepting(c, s) && KeySize(c, s, n) && TameTexts(s)
            && NotFooled(c, s, SignedInput(s, c, email, DKIM_SIGNATURE, []))
  {
    var x := SignedInput(Example(), Scheme(n, ""), email, DKIM_SIGNATURE, []);
    ExampleOk(n, x);
    SchemeAccepts(n, x);
    SchemeSize(n, x);
    SameInput(Example(), Scheme(n, x), Scheme(n, ""), email, DKIM_SIGNATURE, []);
  }

  /** The header that the example signer puts in front of a message. */
  function ExampleHeader(n: nat, email: Email): Header
    requires n > 0
  {
    SignImpl(Example(), SchemeFor(n, email), email, DKIM_SIGNATURE, [], None)
  }

  lemma {:induction false} NotListed(h: Header, email: Email)
    requires h.name == DKIM_SIGNATURE
    ensures NoneListed([h], EffectiveList(Example(), email)) && !SameName(DKIM_SIGNATURE, ARC_SEAL)
  {
    assert |Lower(DKIM_SIGNATURE)| == 14 && |Lower("from")| == 4 && |Lower(ARC_SEAL)| == 8;
  }

  /** What verifying the example header on the message behind it gives. */
  lemma {:induction false} ExampleVerdict(n: nat, email: Email)
    requires n >= WIDTH
    ensures var h := ExampleHeader(n, email);
            && ParseHeader(h.value).Some? && HasTags(ParseHeader(h.value).value.tags, VERIFY_TAGS)
            && (VerifyEmailHeader(SchemeFor(n, email), DKIM_SIGNATURE, ParseHeader(h.value).value,
                                  Email([h] + email.headers, email.body)).Ok?
                <==> FoldSafe(n))
  {
    var h := ExampleHeader(n, email);
    HypothesesHold(n, email);
    NotListed(h, email);
    NoneListedSettled([h], email.headers, EffectiveList(Example(), email));
    SignedVerifiesByLength(Example(), SchemeFor(n, email), email, DKIM_SIGNATURE, [], [h], n);
  }

  /** With 148 characters, no message at all verifies as it was signed; with 172, every one does. */
  lemma {:induction false} Fails148(email: Email)
    ensures var h := ExampleHeader(148, email);
            && ParseHeader(h.value).Some? && HasTags(ParseHeader(h.value).value.tags, VERIFY_TAGS)
            && VerifyEmailHeader(SchemeFor(148, email), DKIM_SIGNATURE, ParseHeader(h.value).value,
                                 Email([h] + email.headers, email.body)).Err?
    ensures var h := ExampleHeader(172, email);
            && ParseHeader(h.value).Some? && HasTags(ParseHeader(h.value).value.tags, VERIFY_TAGS)
            && VerifyEmailHeader(SchemeFor(172, email), DKIM_SIGNATURE, ParseHeader(h.value).value,
                                 Email([h] + email.headers, email.body)).Ok?
  {
    ExampleVerdict(148, email);
    ExampleVerdict(172, email);
  }
}
