/** A signed message verifies: the agreement of both sides put together. */
module DkimVerified {
  import opened Common
  import opened DkimText
  import opened DkimParser
  import opened DkimHeader
  import opened DkimSelect
  import opened DkimTwoPass
  import opened DkimExact
  import opened DkimSign
  import opened DkimAgree

  /** The tags of a signature header, before `b=`. */
  function SignTags(signer: Signer, crypto: Crypto, email: Email, name: string, extra: seq<Tag>): seq<Tag> {
    Plan(signer, crypto, email, EffectiveList(signer, email), name, extra)
  }

  function SignHeaders(signer: Signer, email: Email, concrete: Option<seq<Header>>): seq<Header> {
    if concrete.Some? then concrete.value else SelectedHeaders(email.headers, EffectiveList(signer, email))
  }

  /** The bytes that are signed. */
  function SignedInput(signer: Signer, crypto: Crypto, email: Email, name: string, extra: seq<Tag>): string {
    SignerInput(signer, crypto, email, name, extra, SignHeaders(signer, email, None))
  }

  /** The text put into `b=`. */
  function SigText(signer: Signer, crypto: Crypto, email: Email, name: string, extra: seq<Tag>,
                   concrete: Option<seq<Header>>): string
  {
    Signature(signer, crypto, SignerInput(signer, crypto, email, name, extra, SignHeaders(signer, email, concrete)))
  }

  /** The signature header put in front of a message, as the verifier parses it. */
  function SignedHeader(signer: Signer, crypto: Crypto, email: Email, name: string, extra: seq<Tag>): TaggedHeader {
    Received(SignTags(signer, crypto, email, name, extra), SigText(signer, crypto, email, name, extra, None))
  }

  lemma {:induction false} BuilderIsPlan(signer: Signer, crypto: Crypto, email: Email, name: string, extra: seq<Tag>,
                                         x: string)
    requires SignerOk(signer, crypto) && ExtraOk(extra) && All(ValChar, x)
    ensures var tags := SignTags(signer, crypto, email, name, extra);
            && BuilderTags(signer, crypto, email, name, extra) == tags
            && InsertTag(tags, BTag(x)) == tags + [BTag(x)] && ValidTags(tags + [BTag(x)])
  {
    var tags := SignTags(signer, crypto, email, name, extra);
    var all := tags + [BTag(x)];
    EffectiveOk(signer, crypto, email);
    PlanValid(signer, crypto, email, EffectiveList(signer, email), name, extra, x);
    assert Distinct(tags) by {
      forall i, j | 0 <= i < j < |tags| ensures tags[i].name != tags[j].name { assert all[i].name != all[j].name; }
    }
    CollectedDistinct(tags);
    forall i | 0 <= i < |tags| ensures tags[i].name != "b" { assert all[i].name != all[|tags|].name; }
    InsertNew(tags, BTag(x));
  }

  /** What signing produces, and what its first pass hashed. */
  lemma {:induction false} SignImplIs(signer: Signer, crypto: Crypto, email: Email, name: string, extra: seq<Tag>,
                                      concrete: Option<seq<Header>>)
    requires SignerOk(signer, crypto) && ExtraOk(extra)
    ensures var tags, hs := SignTags(signer, crypto, email, name, extra), SignHeaders(signer, email, concrete);
            var sig := SigText(signer, crypto, email, name, extra, concrete);
            && All(ValChar, sig)
            && SignImpl(signer, crypto, email, name, extra, concrete) == Header(name, SecondPass(tags, sig))
            && GetTag(tags + [BTag("")], "b").Some?
            && SignerInput(signer, crypto, email, name, extra, hs)
               == HeadersInput(SigningCanon(signer, name), hs, Built(tags + [BTag("")]), name)
  {
    var tags := SignTags(signer, crypto, email, name, extra);
    var sig := SigText(signer, crypto, email, name, extra, concrete);
    BuilderIsPlan(signer, crypto, email, name, extra, "");
    BuilderIsPlan(signer, crypto, email, name, extra, sig);
    FirstRaw(tags);
  }

  /** With the signature header in front, everything depends on its own two texts. */
  lemma {:induction false} HashedBytesSameIff(signer: Signer, crypto: Crypto, email: Email, name: string,
                                              extra: seq<Tag>, pre: seq<Header>)
    requires SignerOk(signer, crypto) && ExtraOk(extra) && !SameName(name, ARC_SEAL)
    requires Settled(pre, email.headers, EffectiveList(signer, email))
    ensures var sig := SigText(signer, crypto, email, name, extra, None);
            var tags := SignTags(signer, crypto, email, name, extra);
            var hdr := Received(tags, sig);
            var later := Email(pre + email.headers, email.body);
            && ParseHeader(SignImpl(signer, crypto, email, name, extra, None).value) == Some(hdr)
            && GetTag(hdr.tags, "h").Some? && GetTag(hdr.tags, "b").Some?
            && (VerifierInput(hdr, signer.headerCanon, later, name)
                == SignedInput(signer, crypto, email, name, extra)
                <==> SameText(signer.headerCanon, name, tags, sig))
  {
    var sig := SigText(signer, crypto, email, name, extra, None);
    var tags := SignTags(signer, crypto, email, name, extra);
    var list := EffectiveList(signer, email);
    SignImplIs(signer, crypto, email, name, extra, None);
    BuilderIsPlan(signer, crypto, email, name, extra, sig);
    ReceivedParses(tags, sig);
    HeaderList(signer, crypto, email, name, extra);
    PrependIrrelevant(pre, email.headers, list);
    InputsSameIff(signer.headerCanon, SelectedHeaders(email.headers, list), name, tags, sig);
  }

  /**
   * The bytes hashed when signing equal the bytes hashed when verifying the message with the
   * signature header (and any other headers with unlisted names) in front, exactly when the
   * signature folds safely.
   */
  lemma {:induction false} HashedBytesAgreeIff(signer: Signer, crypto: Crypto, email: Email, name: string,
                                               extra: seq<Tag>, pre: seq<Header>)
    requires SignerOk(signer, crypto) && ExtraOk(extra) && !SameName(name, ARC_SEAL)
    requires Settled(pre, email.headers, EffectiveList(signer, email))
    requires OnceInHeader(SignTags(signer, crypto, email, name, extra),
                          SigText(signer, crypto, email, name, extra, None))
    ensures var sig := SigText(signer, crypto, email, name, extra, None);
            var hdr := Received(SignTags(signer, crypto, email, name, extra), sig);
            var later := Email(pre + email.headers, email.body);
            && ParseHeader(SignImpl(signer, crypto, email, name, extra, None).value) == Some(hdr)
            && GetTag(hdr.tags, "h").Some? && GetTag(hdr.tags, "b").Some?
            && (VerifierInput(hdr, signer.headerCanon, later, name)
                == SignedInput(signer, crypto, email, name, extra)
                <==> FoldSafe(|sig|))
  {
    var sig, tags := SigText(signer, crypto, email, name, extra, None), SignTags(signer, crypto, email, name, extra);
    HashedBytesSameIff(signer, crypto, email, name, extra, pre);
    BuilderIsPlan(signer, crypto, email, name, extra, sig);
    ValidParts(tags, sig);
    SameTextIff(signer.headerCanon, name, tags, sig);
  }

  /** The same without assuming that the signature's text occurs once, for signatures in base64. */
  lemma {:induction false} HashedBytesAgreeExactly(signer: Signer, crypto: Crypto, email: Email, name: string,
                                                   extra: seq<Tag>, pre: seq<Header>)
    requires SignerOk(signer, crypto) && ExtraOk(extra) && !SameName(name, ARC_SEAL)
    requires Settled(pre, email.headers, EffectiveList(signer, email))
    requires Base64Like(SigText(signer, crypto, email, name, extra, None))
    ensures var sig := SigText(signer, crypto, email, name, extra, None);
            var tags := SignTags(signer, crypto, email, name, extra);
            var hdr := Received(tags, sig);
            var later := Email(pre + email.headers, email.body);
            && ParseHeader(SignImpl(signer, crypto, email, name, extra, None).value) == Some(hdr)
            && GetTag(hdr.tags, "h").Some? && GetTag(hdr.tags, "b").Some?
            && (VerifierInput(hdr, signer.headerCanon, later, name)
                == SignedInput(signer, crypto, email, name, extra)
                <==> FoldSafe(|sig|) && !Occurs(UpToB(tags), BodyRaw(BBody(sig))))
  {
    var sig, tags := SigText(signer, crypto, email, name, extra, None), SignTags(signer, crypto, email, name, extra);
    HashedBytesSameIff(signer, crypto, email, name, extra, pre);
    BuilderIsPlan(signer, crypto, email, name, extra, sig);
    ValidParts(tags, sig);
    SameTextExactly(signer.headerCanon, name, tags, sig);
  }

  /** The names the verifier selects by are those the signer selected by. */
  lemma {:induction false} HeaderList(signer: Signer, crypto: Crypto, email: Email, name: string, extra: seq<Tag>)
    requires SignerOk(signer, crypto) && ExtraOk(extra) && !SameName(name, ARC_SEAL)
    ensures var hdr := SignedHeader(signer, crypto, email, name, extra);
            && GetTag(hdr.tags, "h").Some?
            && ListOf(Value(hdr.tags, "h")) == EffectiveList(signer, email)
  {
    var sig := SigText(signer, crypto, email, name, extra, None);
    var tags := SignTags(signer, crypto, email, name, extra);
    var list := EffectiveList(signer, email);
    EffectiveOk(signer, crypto, email);
    SignImplIs(signer, crypto, email, name, extra, None);
    BuilderIsPlan(signer, crypto, email, name, extra, sig);
    ReceivedParses(tags, sig);
    MessageValues(signer, crypto, email, list, name, extra, sig);
    ValueSame(Received(tags, sig).tags, tags + [BTag(sig)], "h");
    ListRead(list);
  }

  // ---- the verdict --------------------------------------------------------------------------------

  /** The published keys accept what the signer's key signed, and base64 can be undone on signatures. */
  ghost predicate Accepting(crypto: Crypto, signer: Signer) {
    && crypto.keys(signer.domain, signer.selector).Some?
    && forall h :: KeyAccepts(crypto, signer, h)
  }

  ghost predicate KeyAccepts(crypto: Crypto, signer: Signer, h: string)
    requires crypto.keys(signer.domain, signer.selector).Some?
  {
    var sig := crypto.sign(signer.algo, h);
    && crypto.decode(crypto.base64(sig)) == Some(sig)
    && exists k | k in crypto.keys(signer.domain, signer.selector).value ::
         crypto.verify(signer.algo, h, sig, k) == Ok(true)
  }

  /** No key takes the signature of the bytes `x` for one of other bytes. */
  ghost predicate NotFooled(crypto: Crypto, signer: Signer, x: string) {
    forall y :: y == x || Rejects(crypto, signer, x, y)
  }

  ghost predicate Rejects(crypto: Crypto, signer: Signer, x: string, y: string) {
    var sig := crypto.sign(signer.algo, crypto.digest(signer.algo, x));
    forall k :: crypto.verify(signer.algo, crypto.digest(signer.algo, y), sig, k) != Ok(true)
  }

  lemma {:induction false} TryKeysAccepts(crypto: Crypto, algo: HashAlgo, hash: string, sig: string, keys: seq<Key>,
                                          e: DkimError)
    ensures TryKeys(crypto, algo, hash, sig, keys, e).Ok?
            <==> exists k | k in keys :: crypto.verify(algo, hash, sig, k) == Ok(true)
  {
    if keys != [] {
      match crypto.verify(algo, hash, sig, keys[0])
      case Ok(_) => TryKeysAccepts(crypto, algo, hash, sig, keys[1..], e);
      case Err(reason) => TryKeysAccepts(crypto, algo, hash, sig, keys[1..], KeyFailed(reason));
    }
  }

  /** What the verifier reads from a header the signer made. */
  ghost predicate ReadsBack(signer: Signer, crypto: Crypto, hdr: TaggedHeader, body: string, sig: string) {
    && HasTags(hdr.tags, VERIFY_TAGS)
    && ValueOpt(hdr.tags, "d") == Some(signer.domain) && ValueOpt(hdr.tags, "s") == Some(signer.selector)
    && ValueOpt(hdr.tags, "a") == Some(AlgoName(signer.algo)) && ValueOpt(hdr.tags, "b") == Some(sig)
    && ValueOpt(hdr.tags, "c") == Some(CanonName(signer.headerCanon) + "/" + CanonName(signer.bodyCanon))
    && ValueOpt(hdr.tags, "bh") == Some(BodyHash(crypto, signer.algo, signer.bodyCanon, None, body))
    && ValueOpt(hdr.tags, "l") == None
  }

  lemma {:induction false} ReadsBackFrom(signer: Signer, crypto: Crypto, hdr: TaggedHeader, tags: seq<Tag>,
                                         body: string, sig: string)
    requires SameTags(hdr.tags, tags)
    requires GetTag(tags, "d") == Some(T("d", signer.domain)) && GetTag(tags, "s") == Some(T("s", signer.selector))
    requires GetTag(tags, "a") == Some(T("a", AlgoName(signer.algo))) && GetTag(tags, "b") == Some(BTag(sig))
    requires GetTag(tags, "c") == Some(T("c", CanonName(signer.headerCanon) + "/" + CanonName(signer.bodyCanon)))
    requires GetTag(tags, "bh") == Some(T("bh", BodyHash(crypto, signer.algo, signer.bodyCanon, None, body)))
    requires GetTag(tags, "h").Some? && GetTag(tags, "l").None?
    ensures ReadsBack(signer, crypto, hdr, body, sig)
  {
    SameValues(hdr.tags, tags);
  }

  lemma {:induction false} ReceivedReadsBack(signer: Signer, crypto: Crypto, email: Email, name: string,
                                             extra: seq<Tag>)
    requires SignerOk(signer, crypto) && ExtraOk(extra) && !SameName(name, ARC_SEAL)
    ensures var sig := SigText(signer, crypto, email, name, extra, None);
            ReadsBack(signer, crypto, Received(SignTags(signer, crypto, email, name, extra), sig), email.body, sig)
  {
    var sig := SigText(signer, crypto, email, name, extra, None);
    var tags, list := SignTags(signer, crypto, email, name, extra), EffectiveList(signer, email);
    assert All(ValChar, sig) && ListOk(list) && SameTags(Received(tags, sig).tags, tags + [BTag(sig)]) by {
      EffectiveOk(signer, crypto, email);
      SignImplIs(signer, crypto, email, name, extra, None);
      BuilderIsPlan(signer, crypto, email, name, extra, sig);
      ReceivedParses(tags, sig);
    }
    CoreValues(signer, crypto, email, list, name, extra, sig);
    MessageValues(signer, crypto, email, list, name, extra, sig);
    NoLength(signer, crypto, email, list, name, extra, sig);
    ReadsBackFrom(signer, crypto, Received(tags, sig), tags + [BTag(sig)], email.body, sig);
  }

  lemma {:induction false} SameValues(xs: seq<Tag>, ys: seq<Tag>)
    requires SameTags(xs, ys)
    ensures forall n :: ValueOpt(xs, n) == ValueOpt(ys, n)
    ensures forall n :: GetTag(xs, n).Some? <==> GetTag(ys, n).Some?
  {
    forall n ensures ValueOpt(xs, n) == ValueOpt(ys, n) && (GetTag(xs, n).Some? <==> GetTag(ys, n).Some?) {
      ValueSame(xs, ys, n);
    }
  }

  lemma {:induction false} VerifyReads(signer: Signer, crypto: Crypto, name: string, hdr: TaggedHeader, later: Email,
                                       sig: string)
    requires ReadsBack(signer, crypto, hdr, later.body, sig) && crypto.keys(signer.domain, signer.selector).Some?
    requires GetTag(hdr.tags, "h").Some? && GetTag(hdr.tags, "b").Some?
    ensures VerifyEmailHeader(crypto, name, hdr, later)
         == match crypto.decode(sig)
            case None => Err(SignatureSyntaxError)
            case Some(bytes) =>
              TryKeys(crypto, signer.algo,
                      crypto.digest(signer.algo, VerifierInput(hdr, signer.headerCanon, later, name)),
                      bytes, crypto.keys(signer.domain, signer.selector).value, SignatureDidNotVerify)
  {
    NamesParse(signer.algo, signer.headerCanon, signer.bodyCanon);
  }

  /** Once the header reads back, all depends on the hashed bytes. */
  lemma {:induction false} VerdictOnBytes(signer: Signer, crypto: Crypto, name: string, hdr: TaggedHeader, later: Email,
                                          input: string)
    requires ReadsBack(signer, crypto, hdr, later.body, Signature(signer, crypto, input)) && Accepting(crypto, signer)
    requires GetTag(hdr.tags, "h").Some? && GetTag(hdr.tags, "b").Some?
    ensures var verdict, same := VerifyEmailHeader(crypto, name, hdr, later),
                                 VerifierInput(hdr, signer.headerCanon, later, name) == input;
            && (same ==> verdict.Ok?)
            && (NotFooled(crypto, signer, input) && verdict.Ok? ==> same)
  {
    var hash := crypto.digest(signer.algo, input);
    var other := VerifierInput(hdr, signer.headerCanon, later, name);
    assert KeyAccepts(crypto, signer, hash);
    assert NotFooled(crypto, signer, input) ==> other == input || Rejects(crypto, signer, input, other);
    VerifyReads(signer, crypto, name, hdr, later, Signature(signer, crypto, input));
    TryKeysAccepts(crypto, signer.algo, crypto.digest(signer.algo, VerifierInput(hdr, signer.headerCanon, later, name)),
                   crypto.sign(signer.algo, hash), crypto.keys(signer.domain, signer.selector).value,
                   SignatureDidNotVerify);
  }

  /** The signature header reads back, and its verdict depends on its own two texts. */
  lemma {:induction false} SignedVerdict(signer: Signer, crypto: Crypto, email: Email, name: string,
                                         extra: seq<Tag>, pre: seq<Header>)
    requires SignerOk(signer, crypto) && ExtraOk(extra) && !SameName(name, ARC_SEAL) && Accepting(crypto, signer)
    requires Settled(pre, email.headers, EffectiveList(signer, email))
    ensures var sig := SigText(signer, crypto, email, name, extra, None);
            var tags := SignTags(signer, crypto, email, name, extra);
            var hdr := Received(tags, sig);
            var later := Email(pre + email.headers, email.body);
            && ParseHeader(SignImpl(signer, crypto, email, name, extra, None).value) == Some(hdr)
            && HasTags(hdr.tags, VERIFY_TAGS)
            && (SameText(signer.headerCanon, name, tags, sig) ==> VerifyEmailHeader(crypto, name, hdr, later).Ok?)
            && (!SameText(signer.headerCanon, name, tags, sig)
                && NotFooled(crypto, signer, SignedInput(signer, crypto, email, name, extra))
                ==> VerifyEmailHeader(crypto, name, hdr, later).Err?)
  {
    var hdr := SignedHeader(signer, crypto, email, name, extra);
    HashedBytesSameIff(signer, crypto, email, name, extra, pre);
    ReceivedReadsBack(signer, crypto, email, name, extra);
    VerdictOnBytes(signer, crypto, name, hdr, Email(pre + email.headers, email.body),
                   SignedInput(signer, crypto, email, name, extra));
  }

  /**
   * A signature header made by `sign_impl` verifies on the message it is put in front of if its text
   * occurs once and folds safely; and with a scheme that cannot be fooled, only then.
   */
  lemma {:induction false} SignedVerifiesIff(signer: Signer, crypto: Crypto, email: Email, name: string,
                                             extra: seq<Tag>, pre: seq<Header>)
    requires SignerOk(signer, crypto) && ExtraOk(extra) && !SameName(name, ARC_SEAL) && Accepting(crypto, signer)
    requires Settled(pre, email.headers, EffectiveList(signer, email))
    requires OnceInHeader(SignTags(signer, crypto, email, name, extra),
                          SigText(signer, crypto, email, name, extra, None))
    ensures var sig := SigText(signer, crypto, email, name, extra, None);
            var hdr := Received(SignTags(signer, crypto, email, name, extra), sig);
            var later := Email(pre + email.headers, email.body);
            && ParseHeader(SignImpl(signer, crypto, email, name, extra, None).value) == Some(hdr)
            && HasTags(hdr.tags, VERIFY_TAGS)
            && (FoldSafe(|sig|) ==> VerifyEmailHeader(crypto, name, hdr, later).Ok?)
            && (NotFooled(crypto, signer, SignedInput(signer, crypto, email, name, extra)) && !FoldSafe(|sig|) ==>
                  VerifyEmailHeader(crypto, name, hdr, later).Err?)
  {
    var sig, tags := SigText(signer, crypto, email, name, extra, None), SignTags(signer, crypto, email, name, extra);
    SignedVerdict(signer, crypto, email, name, extra, pre);
    BuilderIsPlan(signer, crypto, email, name, extra, sig);
    ValidParts(tags, sig);
    SameTextIff(signer.headerCanon, name, tags, sig);
  }

  /** With a scheme that cannot be fooled and signatures in base64, this is all it takes. */
  lemma {:induction false} SignedVerifiesExactly(signer: Signer, crypto: Crypto, email: Email, name: string,
                                                 extra: seq<Tag>, pre: seq<Header>)
    requires SignerOk(signer, crypto) && ExtraOk(extra) && !SameName(name, ARC_SEAL)
    requires Accepting(crypto, signer) && NotFooled(crypto, signer, SignedInput(signer, crypto, email, name, extra))
    requires Settled(pre, email.headers, EffectiveList(signer, email))
    requires Base64Like(SigText(signer, crypto, email, name, extra, None))
    ensures var sig := SigText(signer, crypto, email, name, extra, None);
            var tags := SignTags(signer, crypto, email, name, extra);
            var hdr := Received(tags, sig);
            && ParseHeader(SignImpl(signer, crypto, email, name, extra, None).value) == Some(hdr)
            && HasTags(hdr.tags, VERIFY_TAGS)
            && (VerifyEmailHeader(crypto, name, hdr, Email(pre + email.headers, email.body)).Ok?
                <==> FoldSafe(|sig|) && !Occurs(UpToB(tags), BodyRaw(BBody(sig))))
  {
    var sig, tags := SigText(signer, crypto, email, name, extra, None), SignTags(signer, crypto, email, name, extra);
    SignedVerdict(signer, crypto, email, name, extra, pre);
    BuilderIsPlan(signer, crypto, email, name, extra, sig);
    ValidParts(tags, sig);
    SameTextExactly(signer.headerCanon, name, tags, sig);
  }
}
