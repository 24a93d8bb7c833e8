/** `ARC::seal`: the headers of a new set, and the proof that they extend a chain. */
module ArcSeal {
  import opened Common
  import opened DkimText
  import opened Strings
  import opened DkimParser
  import opened DkimHeader
  import opened DkimCanon
  import opened DkimSelect
  import opened DkimTwoPass
  import opened DkimSign
  import opened DkimAgree
  import opened DkimVerified
  import opened DkimStatic
  import opened DkimLong
  import opened ArcHeaders
  import opened ArcChain
  import Decimal

  // ---- the new headers --------------------------------------------------------------------

  function InstanceTag(n: nat): Tag { T("i", Decimal.Show(n)) }

  function CvTag(n: nat): Tag { T("cv", if n == 1 then "none" else "pass") }

  /** The tags of the caller in the two signature headers of set `n`. */
  function AmsExtra(n: nat): seq<Tag> { [InstanceTag(n)] }

  function SealExtra(n: nat): seq<Tag> { [InstanceTag(n), CvTag(n)] }

  /** The three headers of set `n` over the earlier sets; `aar` is the text of the authentication results. */
  function NewAms(signer: Signer, crypto: Crypto, email: Email, n: nat): Header {
    SignImpl(signer, crypto, email, AMS, AmsExtra(n), None)
  }

  function SealCovers(signer: Signer, crypto: Crypto, email: Email, sets: seq<ArcSet>, aar: string): seq<Header> {
    Links(sets) + [Header(AAR, aar), NewAms(signer, crypto, email, |sets| + 1)]
  }

  function NewSeal(signer: Signer, crypto: Crypto, email: Email, sets: seq<ArcSet>, aar: string): Header {
    SignImpl(signer, crypto, email, ARC_SEAL, SealExtra(|sets| + 1),
             Some(SealCovers(signer, crypto, email, sets, aar)))
  }

  /** `ARC::seal` */
  function Seal(signer: Signer, crypto: Crypto, arc: Arc, email: Email, aar: nat -> string): seq<Header> {
    if ChainStatus(arc) == StatusFail then []
    else
      var n := |arc.sets| + 1;
      [Header(AAR, aar(n)), NewAms(signer, crypto, email, n), NewSeal(signer, crypto, email, arc.sets, aar(n))]
  }

  // ---- the header names are different --------------------------------------------------------

  lemma {:induction false} NamesDiffer()
    ensures !SameName(ARC_SEAL, AMS) && !SameName(ARC_SEAL, AAR) && !SameName(AMS, AAR)
    ensures !SameName(AMS, ARC_SEAL) && !SameName(AAR, ARC_SEAL) && !SameName(AAR, AMS)
    ensures SameName(ARC_SEAL, ARC_SEAL) && SameName(AMS, AMS) && SameName(AAR, AAR)
  {
    assert |Lower(ARC_SEAL)| == 8 && |Lower(AMS)| == 21 && |Lower(AAR)| == 26;
  }

  lemma {:induction false} ShowValChars(n: nat)
    ensures All(ValChar, Decimal.Show(n))
  {
    forall i | 0 <= i < |Decimal.Show(n)| ensures In(ValChar, Decimal.Show(n)[i]) {
      assert Decimal.IsDigit(Decimal.Show(n)[i]);
    }
  }

  lemma {:induction false} ExtrasOk(n: nat)
    ensures ExtraOk(AmsExtra(n)) && ExtraOk(SealExtra(n))
  {
    ShowValChars(n);
    assert ValidTag(InstanceTag(n)) && ValidTag(CvTag(n));
  }

  // ---- the new AMS ---------------------------------------------------------------------------

  lemma {:induction false} FromListed(signer: Signer, crypto: Crypto, email: Email)
    requires SignerOk(signer, crypto) && "from" in signer.list
    ensures "from" in EffectiveList(signer, email)
  {
    if signer.overSign {
      var list := OverSigned(email.headers, signer.list);
      SortDedupOf(signer.list);
      OneMoreCount(email.headers, SortDedup(signer.list), "from");
      var j := OccurrenceAt(list, "from", 0);
    }
  }

  /** The tags of a header made by the signer that are looked at when an ARC header is parsed. */
  lemma {:induction false} ExtraValue(signer: Signer, crypto: Crypto, email: Email, name: string, extra: seq<Tag>,
                                      sig: string, t: Tag)
    requires SignerOk(signer, crypto) && ExtraOk(extra) && All(ValChar, sig) && t in extra
    ensures ValueOpt(Received(SignTags(signer, crypto, email, name, extra), sig).tags, t.name) == Some(t.value)
  {
    var tags := SignTags(signer, crypto, email, name, extra);
    BuilderIsPlan(signer, crypto, email, name, extra, sig);
    ReceivedParses(tags, sig);
    assert t in tags + [BTag(sig)];
    GetTagIn(tags + [BTag(sig)], t);
    ValueSame(Received(tags, sig).tags, tags + [BTag(sig)], t.name);
  }

  lemma {:induction false} InstanceRead(tags: seq<Tag>, n: nat)
    requires 1 <= n <= MAX_INSTANCE && ValueOpt(tags, "i") == Some(Decimal.Show(n))
    ensures Instance(tags) == Some(n)
  {
    Decimal.ParseShow(n, 255);
  }

  lemma {:induction false} NoQueryTag(extra: seq<Tag>, core: seq<Tag>, sig: string)
    requires (forall t | t in extra :: t.name != "q") && Ranked(core, 0, 9)
    ensures var all := extra + core + [BTag(sig)]; forall i | 0 <= i < |all| :: all[i].name != "q"
  {
  }

  lemma {:induction false} NoQuery(signer: Signer, crypto: Crypto, email: Email, name: string, n: nat, sig: string)
    requires SignerOk(signer, crypto) && All(ValChar, sig)
    ensures ValueOpt(Received(SignTags(signer, crypto, email, name, AmsExtra(n)), sig).tags, "q") == None
  {
    var extra, list := AmsExtra(n), EffectiveList(signer, email);
    var tags, core := SignTags(signer, crypto, email, name, extra), Core(signer, crypto, email, list, name);
    ExtrasOk(n);
    EffectiveOk(signer, crypto, email);
    PlanIsCore(signer, crypto, email, list, name, extra);
    CoreRanked(signer, crypto, email, list, name);
    var all := tags + [BTag(sig)];
    NoQueryTag(extra, core, sig);
    GetTagNone(all, "q");
    BuilderIsPlan(signer, crypto, email, name, extra, sig);
    ReceivedParses(tags, sig);
    ValueSame(Received(tags, sig).tags, all, "q");
  }

  lemma {:induction false} ExpiryValue(signer: Signer, crypto: Crypto, email: Email, name: string, n: nat, sig: string)
    requires SignerOk(signer, crypto) && All(ValChar, sig)
    ensures ValueOpt(Received(SignTags(signer, crypto, email, name, AmsExtra(n)), sig).tags, "x") == signer.expiry
  {
    var extra, list := AmsExtra(n), EffectiveList(signer, email);
    var tags, core := SignTags(signer, crypto, email, name, extra), Core(signer, crypto, email, list, name);
    var all := tags + [BTag(sig)];
    ExtrasOk(n);
    BuilderIsPlan(signer, crypto, email, name, extra, sig);
    ReceivedParses(tags, sig);
    ValueSame(Received(tags, sig).tags, all, "x");
    if signer.expiry.Some? {
      assert T("x", signer.expiry.value) in all;
      GetTagIn(all, T("x", signer.expiry.value));
    } else {
      NoExpiry(signer, crypto, email, name, n, sig);
    }
  }

  lemma {:induction false} NoExpiry(signer: Signer, crypto: Crypto, email: Email, name: string, n: nat, sig: string)
    requires SignerOk(signer, crypto) && All(ValChar, sig) && signer.expiry.None?
    ensures GetTag(SignTags(signer, crypto, email, name, AmsExtra(n)) + [BTag(sig)], "x") == None
  {
    var extra, list := AmsExtra(n), EffectiveList(signer, email);
    var all := SignTags(signer, crypto, email, name, extra) + [BTag(sig)];
    EffectiveOk(signer, crypto, email);
    PlanIsCore(signer, crypto, email, list, name, extra);
    CoreWithoutExpiry(signer, crypto, email, list, name);
    var core := Core(signer, crypto, email, list, name);
    forall i | 0 <= i < |all| ensures all[i].name != "x" {
      if 1 <= i < 1 + |core| { assert all[i] == core[i - 1]; }
    }
    GetTagNone(all, "x");
  }

  lemma {:induction false} CoreWithoutExpiry(signer: Signer, crypto: Crypto, email: Email, list: seq<string>,
                                             name: string)
    requires SignerOk(signer, crypto) && ListOk(list) && signer.expiry.None?
    ensures forall i | 0 <= i < |Core(signer, crypto, email, list, name)| ::
              Core(signer, crypto, email, list, name)[i].name != "x"
  {
    var core := Core(signer, crypto, email, list, name);
    CoreRanked(signer, crypto, email, list, name);
    assert core[|core| - 1] == T("t", signer.time);
    forall i | 0 <= i < |core| ensures Rank(core[i].name) <= 8 {
      if i < |core| - 1 { assert Rank(core[i].name) < Rank(core[|core| - 1].name); }
    }
  }

  /** The new AMS as it is parsed back. */
  function AmsParsed(signer: Signer, crypto: Crypto, email: Email, n: nat): TaggedHeader {
    Received(SignTags(signer, crypto, email, AMS, AmsExtra(n)), SigText(signer, crypto, email, AMS, AmsExtra(n), None))
  }

  function SealParsed(signer: Signer, crypto: Crypto, email: Email, sets: seq<ArcSet>, aar: string): TaggedHeader {
    var n := |sets| + 1;
    Received(SignTags(signer, crypto, email, ARC_SEAL, SealExtra(n)),
             SigText(signer, crypto, email, ARC_SEAL, SealExtra(n), Some(SealCovers(signer, crypto, email, sets, aar))))
  }

  lemma {:induction false} HasAmsTags(tags: seq<Tag>)
    requires HasTags(tags, VERIFY_TAGS) && GetTag(tags, "bh").Some? && GetTag(tags, "i").Some?
    ensures HasTags(tags, AMS_TAGS)
  {
    assert VERIFY_TAGS[0] == "d" && VERIFY_TAGS[1] == "s" && VERIFY_TAGS[2] == "a";
    assert VERIFY_TAGS[3] == "h" && VERIFY_TAGS[4] == "b";
  }

  lemma {:induction false} ListSigned(signer: Signer, crypto: Crypto, email: Email, n: nat)
    requires SignerOk(signer, crypto) && "from" in signer.list
    ensures var tags := AmsParsed(signer, crypto, email, n).tags;
            && GetTag(tags, "h").Some?
            && ListOf(Value(tags, "h")) == EffectiveList(signer, email)
            && exists x | x in Split(Value(tags, "h"), ':') :: SameName(x, "from")
  {
    var extra, list := AmsExtra(n), EffectiveList(signer, email);
    var sig := SigText(signer, crypto, email, AMS, extra, None);
    var tags := SignTags(signer, crypto, email, AMS, extra);
    ExtrasOk(n);
    NamesDiffer();
    assert All(ValChar, sig) by { SignImplIs(signer, crypto, email, AMS, extra, None); }
    EffectiveOk(signer, crypto, email);
    FromListed(signer, crypto, email);
    BuilderIsPlan(signer, crypto, email, AMS, extra, sig);
    ReceivedParses(tags, sig);
    MessageValues(signer, crypto, email, list, AMS, extra, sig);
    ValueSame(Received(tags, sig).tags, tags + [BTag(sig)], "h");
    ListRead(list);
    SplitJoin(list, ':');
    assert "from" in Split(Join(list, ":"), ':') && SameName("from", "from");
  }

  /** A signer whose headers parse: it signs From, and what it signs has not expired. */
  ghost predicate SealerOk(env: Env, signer: Signer) {
    && SignerOk(signer, env.crypto) && "from" in signer.list
    && (signer.expiry.Some? ==> !env.expired(signer.expiry.value))
  }

  /** A key whose signatures have `size` characters, and texts that fit on a line. */
  ghost predicate KeyOk(env: Env, signer: Signer, size: nat) {
    Accepting(env.crypto, signer) && KeySize(env.crypto, signer, size) && TameTexts(signer) && size >= WIDTH
  }

  lemma {:induction false} HeaderParses(signer: Signer, crypto: Crypto, email: Email, name: string, extra: seq<Tag>,
                                        concrete: Option<seq<Header>>)
    requires SignerOk(signer, crypto) && ExtraOk(extra)
    ensures var sig := SigText(signer, crypto, email, name, extra, concrete);
            && All(ValChar, sig)
            && ParseHeader(SignImpl(signer, crypto, email, name, extra, concrete).value)
               == Some(Received(SignTags(signer, crypto, email, name, extra), sig))
  {
    var sig := SigText(signer, crypto, email, name, extra, concrete);
    SignImplIs(signer, crypto, email, name, extra, concrete);
    BuilderIsPlan(signer, crypto, email, name, extra, sig);
    ReceivedParses(SignTags(signer, crypto, email, name, extra), sig);
  }

  lemma {:induction false} AmsTagsRead(signer: Signer, crypto: Crypto, email: Email, n: nat)
    requires SignerOk(signer, crypto) && 1 <= n <= MAX_INSTANCE
    ensures var tags := AmsParsed(signer, crypto, email, n).tags;
            HasTags(tags, AMS_TAGS) && Instance(tags) == Some(n)
  {
    var extra, tags := AmsExtra(n), AmsParsed(signer, crypto, email, n).tags;
    ExtrasOk(n);
    NamesDiffer();
    HeaderParses(signer, crypto, email, AMS, extra, None);
    ReceivedReadsBack(signer, crypto, email, AMS, extra);
    ExtraValue(signer, crypto, email, AMS, extra, SigText(signer, crypto, email, AMS, extra, None), InstanceTag(n));
    HasAmsTags(tags);
    InstanceRead(tags, n);
  }

  lemma {:induction false} AmsCommon(env: Env, signer: Signer, email: Email, n: nat)
    requires SignerOk(signer, env.crypto) && "from" in signer.list
    requires signer.expiry.Some? ==> !env.expired(signer.expiry.value)
    ensures CommonOk(env, AmsParsed(signer, env.crypto, email, n).tags)
  {
    var sig := SigText(signer, env.crypto, email, AMS, AmsExtra(n), None);
    ExtrasOk(n);
    HeaderParses(signer, env.crypto, email, AMS, AmsExtra(n), None);
    ListSigned(signer, env.crypto, email, n);
    NoQuery(signer, env.crypto, email, AMS, n, sig);
    ExpiryValue(signer, env.crypto, email, AMS, n, sig);
  }

  lemma {:induction false} AmsHitOf(env: Env, value: string, hdr: TaggedHeader, n: nat)
    requires ParseHeader(value) == Some(hdr) && HasTags(hdr.tags, AMS_TAGS) && CommonOk(env, hdr.tags)
    requires Instance(hdr.tags) == Some(n)
    ensures AmsHit(env, value) == Some(Hit(n, hdr))
  {
  }

  /** The new AMS parses, with the right instance. */
  lemma {:induction false} AmsParses(env: Env, signer: Signer, email: Email, n: nat)
    requires SealerOk(env, signer) && 1 <= n <= MAX_INSTANCE
    ensures AmsHit(env, NewAms(signer, env.crypto, email, n).value)
         == Some(Hit(n, AmsParsed(signer, env.crypto, email, n)))
    ensures HasTags(AmsParsed(signer, env.crypto, email, n).tags, AMS_TAGS)
  {
    ExtrasOk(n);
    HeaderParses(signer, env.crypto, email, AMS, AmsExtra(n), None);
    AmsTagsRead(signer, env.crypto, email, n);
    AmsCommon(env, signer, email, n);
    AmsHitOf(env, NewAms(signer, env.crypto, email, n).value, AmsParsed(signer, env.crypto, email, n), n);
  }

  /** There is no instance above 50: an AMS for it does not parse. */
  lemma {:induction false} AmsTooMany(env: Env, signer: Signer, email: Email)
    requires SignerOk(signer, env.crypto)
    ensures AmsHit(env, NewAms(signer, env.crypto, email, MAX_INSTANCE + 1).value) == None
  {
    var n := MAX_INSTANCE + 1;
    ExtrasOk(n);
    HeaderParses(signer, env.crypto, email, AMS, AmsExtra(n), None);
    ExtraValue(signer, env.crypto, email, AMS, AmsExtra(n), SigText(signer, env.crypto, email, AMS, AmsExtra(n), None),
               InstanceTag(n));
    Decimal.ParseShow(n, 255);
  }

  lemma {:induction false} ExtrasFit(n: nat)
    requires n < 100
    ensures AllTame(AmsExtra(n)) && AllTame(SealExtra(n))
  {
    Decimal.ShowShort(n);
    assert Tame(InstanceTag(n)) && Tame(CvTag(n));
  }

  /**
   * The new AMS verifies on the sealed message if the key's size is fold-safe and the list does not reach
   * the headers in front; and if its signature is not taken for one of other bytes, only then.
   */
  lemma {:induction false} NewAmsVerifies(env: Env, signer: Signer, email: Email, n: nat, pre: seq<Header>, size: nat)
    requires SealerOk(env, signer) && KeyOk(env, signer, size) && 1 <= n <= MAX_INSTANCE
    requires HasTags(AmsParsed(signer, env.crypto, email, n).tags, AMS_TAGS)
    ensures var hdr, later := AmsParsed(signer, env.crypto, email, n), Email(pre + email.headers, email.body);
            var good := FoldSafe(size) && Settled(pre, email.headers, EffectiveList(signer, email));
            && (good ==> AmsVerifies(env, hdr, later))
            && (!good && NotFooled(env.crypto, signer, SignedInput(signer, env.crypto, email, AMS, AmsExtra(n)))
                ==> !AmsVerifies(env, hdr, later))
  {
    ExtrasOk(n);
    ExtrasFit(n);
    NamesDiffer();
    SignedVerifiesByLength(signer, env.crypto, email, AMS, AmsExtra(n), pre, size);
  }

  // ---- the new seal ------------------------------------------------------------------------------

  lemma {:induction false} HasSealTags(tags: seq<Tag>)
    requires GetTag(tags, "a").Some? && GetTag(tags, "b").Some? && GetTag(tags, "d").Some? && GetTag(tags, "s").Some?
    requires GetTag(tags, "i").Some? && GetTag(tags, "cv").Some?
    ensures HasTags(tags, SEAL_TAGS)
  {
  }

  /** What the verifier reads from a seal. */
  ghost predicate SealReads(signer: Signer, tags: seq<Tag>, sig: string) {
    && ValueOpt(tags, "a") == Some(AlgoName(signer.algo)) && ValueOpt(tags, "b") == Some(sig)
    && ValueOpt(tags, "d") == Some(signer.domain) && ValueOpt(tags, "s") == Some(signer.selector)
  }

  lemma {:induction false} SealReadsBack(signer: Signer, crypto: Crypto, email: Email, extra: seq<Tag>, sig: string)
    requires SignerOk(signer, crypto) && ExtraOk(extra) && All(ValChar, sig)
    ensures SealReads(signer, Received(SignTags(signer, crypto, email, ARC_SEAL, extra), sig).tags, sig)
  {
    var tags := SignTags(signer, crypto, email, ARC_SEAL, extra);
    EffectiveOk(signer, crypto, email);
    BuilderIsPlan(signer, crypto, email, ARC_SEAL, extra, sig);
    ReceivedParses(tags, sig);
    CoreValues(signer, crypto, email, EffectiveList(signer, email), ARC_SEAL, extra, sig);
    SameValues(Received(tags, sig).tags, tags + [BTag(sig)]);
  }

  lemma {:induction false} SealTagsRead(signer: Signer, crypto: Crypto, email: Email, n: nat, sig: string)
    requires SignerOk(signer, crypto) && 1 <= n <= MAX_INSTANCE && All(ValChar, sig)
    ensures var hdr := Received(SignTags(signer, crypto, email, ARC_SEAL, SealExtra(n)), sig);
            HasTags(hdr.tags, SEAL_TAGS) && Instance(hdr.tags) == Some(n) && CvOk(hdr, n)
  {
    var extra := SealExtra(n);
    var hdr := Received(SignTags(signer, crypto, email, ARC_SEAL, extra), sig);
    ExtrasOk(n);
    SealReadsBack(signer, crypto, email, extra, sig);
    ExtraValue(signer, crypto, email, ARC_SEAL, extra, sig, InstanceTag(n));
    ExtraValue(signer, crypto, email, ARC_SEAL, extra, sig, CvTag(n));
    HasSealTags(hdr.tags);
    InstanceRead(hdr.tags, n);
    CvReads(hdr, n);
  }

  lemma {:induction false} SealHitOf(value: string, hdr: TaggedHeader, n: nat)
    requires ParseHeader(value) == Some(hdr) && HasTags(hdr.tags, SEAL_TAGS) && Instance(hdr.tags) == Some(n)
    ensures SealHit(value) == Some(Hit(n, hdr))
  {
  }

  /** The new seal parses, with the right instance and `cv=`. */
  lemma {:induction false} SealParses(env: Env, signer: Signer, email: Email, sets: seq<ArcSet>, aar: string)
    requires SignerOk(signer, env.crypto) && |sets| < MAX_INSTANCE
    ensures var n, hdr := |sets| + 1, SealParsed(signer, env.crypto, email, sets, aar);
            && SealHit(NewSeal(signer, env.crypto, email, sets, aar).value) == Some(Hit(n, hdr))
            && HasTags(hdr.tags, SEAL_TAGS) && CvOk(hdr, n)
  {
    var n := |sets| + 1;
    var extra, covers := SealExtra(n), SealCovers(signer, env.crypto, email, sets, aar);
    ExtrasOk(n);
    HeaderParses(signer, env.crypto, email, ARC_SEAL, extra, Some(covers));
    SealTagsRead(signer, env.crypto, email, n, SigText(signer, env.crypto, email, ARC_SEAL, extra, Some(covers)));
    SealHitOf(NewSeal(signer, env.crypto, email, sets, aar).value, SealParsed(signer, env.crypto, email, sets, aar), n);
  }

  lemma {:induction false} CvReads(hdr: TaggedHeader, n: nat)
    requires HasTags(hdr.tags, SEAL_TAGS) && ValueOpt(hdr.tags, "cv") == Some(CvTag(n).value)
    ensures CvOk(hdr, n)
  {
    SealHas(hdr.tags);
    var pass := Lower("pass");
    assert pass[0] == 'p' && Lower("none")[0] == 'n' && Lower("fail")[0] == 'f';
  }

  lemma {:induction false} SealVerdict(env: Env, signer: Signer, hdr: TaggedHeader, hs: seq<Header>, input: string)
    requires HasTags(hdr.tags, SEAL_TAGS) && GetTag(hdr.tags, "b").Some? && Accepting(env.crypto, signer)
    requires SealReads(signer, hdr.tags, Signature(signer, env.crypto, input))
    ensures HeadersInput(Relaxed, hs, hdr, ARC_SEAL) == input ==> SealVerifies(env, hdr, hs)
    ensures NotFooled(env.crypto, signer, input) && SealVerifies(env, hdr, hs)
            ==> HeadersInput(Relaxed, hs, hdr, ARC_SEAL) == input
  {
    var hash, other := env.crypto.digest(signer.algo, input), HeadersInput(Relaxed, hs, hdr, ARC_SEAL);
    assert KeyAccepts(env.crypto, signer, hash);
    assert NotFooled(env.crypto, signer, input) ==> other == input || Rejects(env.crypto, signer, input, other);
    NamesParse(signer.algo, Relaxed, Relaxed);
    TryKeysAccepts(env.crypto, signer.algo, env.crypto.digest(signer.algo, other), env.crypto.sign(signer.algo, hash),
                   env.crypto.keys(signer.domain, signer.selector).value, SignatureDidNotVerify);
  }

  /** The bytes that the new seal signs. */
  function SealInput(signer: Signer, crypto: Crypto, email: Email, sets: seq<ArcSet>, aar: string): string {
    SignerInput(signer, crypto, email, ARC_SEAL, SealExtra(|sets| + 1), SealCovers(signer, crypto, email, sets, aar))
  }

  /**
   * The new seal verifies over all the headers it was made for if the key's size is fold-safe; and if its
   * signature is not taken for one of other bytes, only then.
   */
  lemma {:induction false} NewSealVerifies(env: Env, signer: Signer, email: Email, sets: seq<ArcSet>, aar: string,
                                           size: nat)
    requires SignerOk(signer, env.crypto) && KeyOk(env, signer, size) && |sets| < MAX_INSTANCE
    requires HasTags(SealParsed(signer, env.crypto, email, sets, aar).tags, SEAL_TAGS)
    ensures var hdr, covers := SealParsed(signer, env.crypto, email, sets, aar),
                               SealCovers(signer, env.crypto, email, sets, aar);
            && (FoldSafe(size) ==> SealVerifies(env, hdr, covers))
            && (!FoldSafe(size) && NotFooled(env.crypto, signer, SealInput(signer, env.crypto, email, sets, aar))
                ==> !SealVerifies(env, hdr, covers))
  {
    var n, hdr := |sets| + 1, SealParsed(signer, env.crypto, email, sets, aar);
    var extra, covers := SealExtra(n), SealCovers(signer, env.crypto, email, sets, aar);
    var sig := SigText(signer, env.crypto, email, ARC_SEAL, extra, Some(covers));
    var tags := SignTags(signer, env.crypto, email, ARC_SEAL, extra);
    ExtrasOk(n);
    ExtrasFit(n);
    NamesDiffer();
    SignImplIs(signer, env.crypto, email, ARC_SEAL, extra, Some(covers));
    SealReadsBack(signer, env.crypto, email, extra, sig);
    var input := SignerInput(signer, env.crypto, email, ARC_SEAL, extra, covers);
    assert HeadersInput(Relaxed, covers, hdr, ARC_SEAL) == input <==> FoldSafe(size) by {
      BuilderIsPlan(signer, env.crypto, email, ARC_SEAL, extra, sig);
      ReceivedParses(tags, sig);
      SameTextByLength(Relaxed, signer, env.crypto, email, ARC_SEAL, extra, Some(covers), size);
      InputsSameIff(Relaxed, covers, ARC_SEAL, tags, sig);
    }
    SealVerdict(env, signer, hdr, covers, input);
  }
}
