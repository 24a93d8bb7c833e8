/** What can be said of signatures before anything is signed: everything depends on the size of the key. */
module DkimStatic {
  import opened Common
  import opened DkimParser
  import opened DkimHeader
  import opened DkimCanon
  import opened DkimSelect
  import opened DkimTwoPass
  import opened DkimExact
  import opened DkimLong
  import opened DkimSign
  import opened DkimAgree
  import opened DkimVerified
  import opened DkimInserted

  /** Signatures of this key have `n` characters of base64, and hashes fit on a line. */
  ghost predicate KeySize(crypto: Crypto, signer: Signer, n: nat) {
    && (forall h :: SizedSignature(crypto, signer, h, n))
    && forall s :: ShortHash(crypto, signer, s)
  }

  predicate ShortHash(crypto: Crypto, signer: Signer, s: string) {
    |crypto.base64(crypto.digest(signer.algo, s))| < WIDTH
  }

  ghost predicate SizedSignature(crypto: Crypto, signer: Signer, h: string, n: nat) {
    var sig := crypto.base64(crypto.sign(signer.algo, h));
    Base64Like(sig) && '.' !in sig && |sig| == n
  }

  /** The configured texts fit on a line or are dotted. */
  predicate TameTexts(signer: Signer) {
    && Tame(T("d", signer.domain)) && Tame(T("s", signer.selector)) && Tame(T("t", signer.time))
    && (signer.expiry.Some? ==> Tame(T("x", signer.expiry.value)))
  }

  ghost predicate AllTame(tags: seq<Tag>) {
    forall t | t in tags :: Tame(t)
  }

  lemma {:induction false} AllTameConcat(a: seq<Tag>, b: seq<Tag>)
    requires AllTame(a) && AllTame(b)
    ensures AllTame(a + b)
  {
  }

  lemma {:induction false} MessageFits(signer: Signer, crypto: Crypto, email: Email, list: seq<string>, n: nat)
    requires KeySize(crypto, signer, n)
    ensures AllTame(MessageTags(signer, crypto, email, list))
  {
    var tags := MessageTags(signer, crypto, email, list);
    assert ShortHash(crypto, signer, Take(USIZE_MAX, CanonBody(signer.bodyCanon, email.body)));
    assert Tame(tags[0]) && Tame(tags[1]) && Tame(tags[2]);
  }

  lemma {:induction false} IdentityFits(signer: Signer)
    requires TameTexts(signer)
    ensures AllTame([T("a", AlgoName(signer.algo)), T("d", signer.domain), T("s", signer.selector)])
  {
    assert Tame(T("a", AlgoName(signer.algo)));
  }

  lemma {:induction false} CoreFits(signer: Signer, crypto: Crypto, email: Email, list: seq<string>, name: string,
                                    n: nat)
    requires KeySize(crypto, signer, n) && TameTexts(signer)
    ensures AllTame(Core(signer, crypto, email, list, name))
  {
    var v := if SameName(name, DKIM_SIGNATURE) then [T("v", "1")] else [];
    var id := [T("a", AlgoName(signer.algo)), T("d", signer.domain), T("s", signer.selector)];
    var msg := if SameName(name, ARC_SEAL) then [] else MessageTags(signer, crypto, email, list);
    var t := [T("t", signer.time)];
    var x := if signer.expiry.None? then [] else [T("x", signer.expiry.value)];
    IdentityFits(signer);
    MessageFits(signer, crypto, email, list, n);
    AllTameConcat(v, id);
    AllTameConcat(v + id, msg);
    AllTameConcat(v + id + msg, t);
    AllTameConcat(v + id + msg + t, x);
  }

  lemma {:induction false} SignTagsFit(signer: Signer, crypto: Crypto, email: Email, name: string, extra: seq<Tag>,
                                       n: nat)
    requires KeySize(crypto, signer, n) && TameTexts(signer) && AllTame(extra)
    ensures AllTame(SignTags(signer, crypto, email, name, extra))
  {
    var list := EffectiveList(signer, email);
    CoreFits(signer, crypto, email, list, name, n);
    PlanIsCore(signer, crypto, email, list, name, extra);
    AllTameConcat(extra, Core(signer, crypto, email, list, name));
  }

  /** What the tags and the signature of a key of this size are like. */
  lemma {:induction false} LongSignature(signer: Signer, crypto: Crypto, email: Email, name: string, extra: seq<Tag>,
                                         concrete: Option<seq<Header>>, n: nat)
    requires SignerOk(signer, crypto) && ExtraOk(extra) && KeySize(crypto, signer, n) && TameTexts(signer)
    requires AllTame(extra)
    ensures var tags := SignTags(signer, crypto, email, name, extra);
            var sig := SigText(signer, crypto, email, name, extra, concrete);
            && (forall t | t in tags :: ValidTag(t) && Tame(t)) && Base64Like(sig) && '.' !in sig && |sig| == n
  {
    var tags := SignTags(signer, crypto, email, name, extra);
    var sig := SigText(signer, crypto, email, name, extra, concrete);
    var input := SignerInput(signer, crypto, email, name, extra, SignHeaders(signer, email, concrete));
    assert SizedSignature(crypto, signer, crypto.digest(signer.algo, input), n);
    SignTagsFit(signer, crypto, email, name, extra, n);
    BuilderIsPlan(signer, crypto, email, name, extra, sig);
    ValidParts(tags, sig);
  }

  /** With a key of 75 or more characters, both texts agree exactly when the key's size is fold-safe. */
  lemma {:induction false} SameTextByLength(ty: Type, signer: Signer, crypto: Crypto, email: Email, name: string,
                                            extra: seq<Tag>, concrete: Option<seq<Header>>, n: nat)
    requires SignerOk(signer, crypto) && ExtraOk(extra) && KeySize(crypto, signer, n) && TameTexts(signer)
    requires AllTame(extra)
    requires n >= WIDTH
    ensures SameText(ty, name, SignTags(signer, crypto, email, name, extra),
                     SigText(signer, crypto, email, name, extra, concrete))
            <==> FoldSafe(n)
  {
    LongSignature(signer, crypto, email, name, extra, concrete, n);
    LongSameTextIff(ty, name, SignTags(signer, crypto, email, name, extra),
                    SigText(signer, crypto, email, name, extra, concrete));
  }

  /** Headers in front that the list reaches make the verifier hash more than was signed. */
  lemma {:induction false} UnsettledDiffers(signer: Signer, crypto: Crypto, email: Email, name: string, extra: seq<Tag>,
                                            pre: seq<Header>, n: nat)
    requires SignerOk(signer, crypto) && ExtraOk(extra) && !SameName(name, ARC_SEAL)
    requires KeySize(crypto, signer, n) && TameTexts(signer) && AllTame(extra) && n >= WIDTH
    requires !Settled(pre, email.headers, EffectiveList(signer, email))
    ensures var hdr := SignedHeader(signer, crypto, email, name, extra);
            && GetTag(hdr.tags, "h").Some? && GetTag(hdr.tags, "b").Some?
            && VerifierInput(hdr, signer.headerCanon, Email(pre + email.headers, email.body), name)
               != SignedInput(signer, crypto, email, name, extra)
  {
    var ty, list := signer.headerCanon, EffectiveList(signer, email);
    var tags, sig := SignTags(signer, crypto, email, name, extra), SigText(signer, crypto, email, name, extra, None);
    var now, signed := SelectedHeaders(pre + email.headers, list), SelectedHeaders(email.headers, list);
    LongSignature(signer, crypto, email, name, extra, None, n);
    LongNotBefore(tags, sig);
    OnceUnlessBefore(tags, sig);
    CutNotShorter(ty, name, tags, sig);
    UnsettledGrows(ty, pre, email.headers, list);
    HeaderList(signer, crypto, email, name, extra);
    SignImplIs(signer, crypto, email, name, extra, None);
    BuilderIsPlan(signer, crypto, email, name, extra, sig);
    ReceivedParses(tags, sig);
    GetInserted(BuilderTags(signer, crypto, email, name, extra), BTag(""));
    BuilderIsPlan(signer, crypto, email, name, extra, "");
    InputLengths(ty, now, name, tags, sig);
    InputLengths(ty, signed, name, tags, sig);
  }

  /**
   * A message signed with a key whose signatures have `n` characters verifies, with any headers in front,
   * if `n` is fold-safe and the list does not reach those headers; and if its signature is not taken for
   * one of other bytes, only then.
   */
  lemma {:induction false} SignedVerifiesByLength(signer: Signer, crypto: Crypto, email: Email, name: string,
                                                  extra: seq<Tag>, pre: seq<Header>, n: nat)
    requires SignerOk(signer, crypto) && ExtraOk(extra) && !SameName(name, ARC_SEAL) && Accepting(crypto, signer)
    requires KeySize(crypto, signer, n) && TameTexts(signer) && AllTame(extra) && n >= WIDTH
    ensures var hdr := SignedHeader(signer, crypto, email, name, extra);
            var later := Email(pre + email.headers, email.body);
            var good := FoldSafe(n) && Settled(pre, email.headers, EffectiveList(signer, email));
            && ParseHeader(SignImpl(signer, crypto, email, name, extra, None).value) == Some(hdr)
            && HasTags(hdr.tags, VERIFY_TAGS)
            && (good ==> VerifyEmailHeader(crypto, name, hdr, later).Ok?)
            && (!good && NotFooled(crypto, signer, SignedInput(signer, crypto, email, name, extra)) ==>
                  VerifyEmailHeader(crypto, name, hdr, later).Err?)
  {
    if Settled(pre, email.headers, EffectiveList(signer, email)) {
      SignedVerdict(signer, crypto, email, name, extra, pre);
      SameTextByLength(signer.headerCanon, signer, crypto, email, name, extra, None, n);
    } else {
      UnsettledVerdict(signer, crypto, email, name, extra, pre, n);
    }
  }

  lemma {:induction false} UnsettledVerdict(signer: Signer, crypto: Crypto, email: Email, name: string,
                                            extra: seq<Tag>, pre: seq<Header>, n: nat)
    requires SignerOk(signer, crypto) && ExtraOk(extra) && !SameName(name, ARC_SEAL) && Accepting(crypto, signer)
    requires KeySize(crypto, signer, n) && TameTexts(signer) && AllTame(extra) && n >= WIDTH
    requires !Settled(pre, email.headers, EffectiveList(signer, email))
    ensures var hdr := SignedHeader(signer, crypto, email, name, extra);
            && ParseHeader(SignImpl(signer, crypto, email, name, extra, None).value) == Some(hdr)
            && HasTags(hdr.tags, VERIFY_TAGS)
            && (NotFooled(crypto, signer, SignedInput(signer, crypto, email, name, extra)) ==>
                  VerifyEmailHeader(crypto, name, hdr, Email(pre + email.headers, email.body)).Err?)
  {
    var hdr := SignedHeader(signer, crypto, email, name, extra);
    NothingInFront(email.headers, EffectiveList(signer, email));
    HashedBytesSameIff(signer, crypto, email, name, extra, []);
    ReceivedReadsBack(signer, crypto, email, name, extra);
    UnsettledDiffers(signer, crypto, email, name, extra, pre, n);
    VerdictOnBytes(signer, crypto, name, hdr, Email(pre + email.headers, email.body),
                   SignedInput(signer, crypto, email, name, extra));
  }

  lemma {:induction false} NothingInFront(hs: seq<Header>, list: seq<string>)
    ensures Settled([], hs, list)
  {
    forall name | name in list ensures SettledFor([], hs, list, name) { assert NoneNamed([], name); }
  }
}
