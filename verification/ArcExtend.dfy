/** Sealing extends a chain (section 5.1 of RFC 8617). */
module ArcExtend {
  import opened Common
  import opened DkimHeader
  import opened DkimSelect
  import opened DkimSign
  import opened DkimTwoPass
  import opened DkimAgree
  import opened DkimVerified
  import opened ArcHeaders
  import opened ArcChain
  import opened ArcPass
  import opened ArcLinks
  import opened ArcSeal

  // ---- headers in front --------------------------------------------------------------------

  lemma {:induction false} EntriesPrepend(name: string, parse: HitParser, pre: seq<Header>, hs: seq<Header>)
    ensures Entries(name, parse, pre + hs) == Entries(name, parse, pre) + Entries(name, parse, hs)
    ensures Unparsed(name, parse, pre + hs) == Unparsed(name, parse, pre) + Unparsed(name, parse, hs)
  {
    if hs == [] {
      assert pre + hs == pre;
    } else {
      var init, h := hs[..|hs| - 1], hs[|hs| - 1];
      assert hs == init + [h] && pre + hs == (pre + init) + [h];
      EntriesPrepend(name, parse, pre, init);
      EntriesSnoc(name, parse, pre + init, h);
      EntriesSnoc(name, parse, init, h);
    }
  }

  lemma {:induction false} GroupConcat(xs: seq<Entry>, ys: seq<Entry>, i: nat)
    ensures Group(xs + ys, i) == Group(xs, i) + Group(ys, i)
  {
    if ys == [] {
      assert xs + ys == xs;
    } else {
      var n := |ys| - 1;
      assert (xs + ys)[..|xs| + n] == xs + ys[..n];
      GroupConcat(xs, ys[..n], i);
    }
  }

  lemma {:induction false} EntriesSnoc(name: string, parse: HitParser, hs: seq<Header>, h: Header)
    ensures Entries(name, parse, hs + [h])
         == if SameName(h.name, name) && parse(h.value).Some?
            then Entries(name, parse, hs) + [Entry(h, parse(h.value).value)]
            else Entries(name, parse, hs)
    ensures Unparsed(name, parse, hs + [h])
         == Unparsed(name, parse, hs) + if SameName(h.name, name) && parse(h.value).None? then 1 else 0
  {
    assert (hs + [h])[..|hs|] == hs;
  }

  /** Of three headers with different names, one is picked up by its name. */
  lemma {:induction false} EntriesOfThree(name: string, parse: HitParser, a: Header, b: Header, c: Header, x: Header,
                                          hit: Hit)
    requires x in [a, b, c] && SameName(x.name, name) && parse(x.value) == Some(hit)
    requires forall h | h in [a, b, c] && h != x :: !SameName(h.name, name)
    requires a != b && a != c && b != c
    ensures Entries(name, parse, [a, b, c]) == [Entry(x, hit)] && Unparsed(name, parse, [a, b, c]) == 0
  {
    EntriesSnoc(name, parse, [], a);
    EntriesSnoc(name, parse, [a], b);
    EntriesSnoc(name, parse, [a, b], c);
    assert [] + [a] == [a] && [a] + [b] == [a, b] && [a, b] + [c] == [a, b, c];
    assert a in [a, b, c] && b in [a, b, c] && c in [a, b, c];
  }

  // ---- the sealed message ----------------------------------------------------------------------

  function NewSet(env: Env, signer: Signer, email: Email, sets: seq<ArcSet>, aar: string): ArcSet {
    var n := |sets| + 1;
    ArcSet(n, Header(AAR, aar), NewAms(signer, env.crypto, email, n), AmsParsed(signer, env.crypto, email, n),
           NewSeal(signer, env.crypto, email, sets, aar), SealParsed(signer, env.crypto, email, sets, aar))
  }

  /** The headers of a set have the three different names and parse to the set's parts. */
  ghost predicate Emitted(env: Env, s: ArcSet) {
    && ArcHeaded(s)
    && SealHit(s.sealHeader.value) == Some(Hit(s.instance, s.seal))
    && AmsHit(env, s.ams.value) == Some(Hit(s.instance, s.sig))
    && AarHit(env, s.aar.value) == Some(Hit(s.instance, NO_TAGS))
  }

  lemma {:induction false} NewSetEmitted(env: Env, signer: Signer, email: Email, sets: seq<ArcSet>, aar: string)
    requires SealerOk(env, signer) && |sets| < MAX_INSTANCE && env.aarInstance(aar) == Some(|sets| + 1)
    ensures Emitted(env, NewSet(env, signer, email, sets, aar)) && ValidSet(NewSet(env, signer, email, sets, aar))
  {
    var n := |sets| + 1;
    AmsParses(env, signer, email, n);
    SealParses(env, signer, email, sets, aar);
    SetEmitted(env, n, aar, NewAms(signer, env.crypto, email, n), AmsParsed(signer, env.crypto, email, n),
               NewSeal(signer, env.crypto, email, sets, aar), SealParsed(signer, env.crypto, email, sets, aar));
  }

  lemma {:induction false} SetEmitted(env: Env, n: nat, aar: string, ams: Header, sig: TaggedHeader, sealHeader: Header,
                                      seal: TaggedHeader)
    requires ams.name == AMS && sealHeader.name == ARC_SEAL && env.aarInstance(aar) == Some(n) && 1 <= n <= MAX_INSTANCE
    requires AmsHit(env, ams.value) == Some(Hit(n, sig)) && SealHit(sealHeader.value) == Some(Hit(n, seal))
    requires HasTags(sig.tags, AMS_TAGS) && HasTags(seal.tags, SEAL_TAGS)
    ensures var s := ArcSet(n, Header(AAR, aar), ams, sig, sealHeader, seal); Emitted(env, s) && ValidSet(s)
  {
  }

  /** With the new headers in front, every kind has one more entry. */
  lemma {:induction false} PartsPrepend(env: Env, s: ArcSet, hs: seq<Header>)
    requires Emitted(env, s)
    ensures var p, q := PartsOf(env, hs), PartsOf(env, NewHeaders(s) + hs);
            && q.seals == [Entry(s.sealHeader, Hit(s.instance, s.seal))] + p.seals
            && q.sigs == [Entry(s.ams, Hit(s.instance, s.sig))] + p.sigs
            && q.aars == [Entry(s.aar, Hit(s.instance, NO_TAGS))] + p.aars
    ensures UnparsedOf(env, NewHeaders(s) + hs) == UnparsedOf(env, hs)
  {
    NamesDiffer();
    PrependKind(ARC_SEAL, SealHit, s, hs, s.sealHeader, Hit(s.instance, s.seal));
    PrependKind(AMS, AmsParser(env), s, hs, s.ams, Hit(s.instance, s.sig));
    PrependKind(AAR, AarParser(env), s, hs, s.aar, Hit(s.instance, NO_TAGS));
  }

  lemma {:induction false} PrependKind(name: string, parse: HitParser, s: ArcSet, hs: seq<Header>, x: Header, hit: Hit)
    requires ArcHeaded(s)
    requires x in NewHeaders(s) && x.name == name && parse(x.value) == Some(hit)
    ensures Entries(name, parse, NewHeaders(s) + hs) == [Entry(x, hit)] + Entries(name, parse, hs)
    ensures Unparsed(name, parse, NewHeaders(s) + hs) == Unparsed(name, parse, hs)
  {
    NamesDiffer();
    EntriesPrepend(name, parse, NewHeaders(s), hs);
    EntriesOfThree(name, parse, s.aar, s.ams, s.sealHeader, x, hit);
  }

  lemma {:induction false} GroupPrepend(e: Entry, es: seq<Entry>, i: nat)
    ensures Group([e] + es, i) == if e.hit.instance == i then [e] + Group(es, i) else Group(es, i)
  {
    GroupConcat([e], es, i);
    assert [e][..0] == [];
  }

  lemma {:induction false} GroupsPrepend(env: Env, s: ArcSet, hs: seq<Header>, i: nat)
    requires Emitted(env, s)
    ensures var p, q := PartsOf(env, hs), PartsOf(env, NewHeaders(s) + hs);
            && (i != s.instance ==> Group(q.seals, i) == Group(p.seals, i) && Group(q.sigs, i) == Group(p.sigs, i)
                                    && Group(q.aars, i) == Group(p.aars, i))
            && (i == s.instance && NoneAt(p, i) ==> OneEach(q, i, s))
  {
    var p := PartsOf(env, hs);
    PartsPrepend(env, s, hs);
    GroupPrepend(Entry(s.sealHeader, Hit(s.instance, s.seal)), p.seals, i);
    GroupPrepend(Entry(s.ams, Hit(s.instance, s.sig)), p.sigs, i);
    GroupPrepend(Entry(s.aar, Hit(s.instance, NO_TAGS)), p.aars, i);
  }

  lemma {:induction false} GrowsAt(env: Env, hs: seq<Header>, sets: seq<ArcSet>, s: ArcSet, i: nat)
    requires IsChain(env, hs, sets) && |sets| < MAX_INSTANCE && Emitted(env, s) && s.instance == |sets| + 1
    requires 1 <= i <= MAX_INSTANCE
    ensures var q, all := PartsOf(env, NewHeaders(s) + hs), sets + [s];
            if i <= |all| then OneEach(q, i, all[i - 1]) else NoneAt(q, i)
  {
    var p := PartsOf(env, hs);
    GroupsPrepend(env, s, hs, i);
    if i <= |sets| {
      var k := i - 1;
      assert OneEach(p, k + 1, sets[k]) && (sets + [s])[k] == sets[k];
    } else {
      assert NoneAt(p, i);
    }
  }

  /** The new set continues the chain. */
  lemma {:induction false} ChainGrows(env: Env, hs: seq<Header>, sets: seq<ArcSet>, s: ArcSet)
    requires IsChain(env, hs, sets) && |sets| < MAX_INSTANCE && Emitted(env, s) && s.instance == |sets| + 1
    ensures IsChain(env, NewHeaders(s) + hs, sets + [s])
  {
    var q, all := PartsOf(env, NewHeaders(s) + hs), sets + [s];
    PartsPrepend(env, s, hs);
    forall k | 0 <= k < |all| ensures OneEach(q, k + 1, all[k]) { GrowsAt(env, hs, sets, s, k + 1); }
    forall i | |all| < i <= MAX_INSTANCE ensures NoneAt(q, i) { GrowsAt(env, hs, sets, s, i); }
  }

  // ---- the links -----------------------------------------------------------------------------------

  lemma {:induction false} NewAmsLink(env: Env, signer: Signer, email: Email, n: nat, pre: seq<Header>, size: nat)
    requires SealerOk(env, signer) && KeyOk(env, signer, size) && FoldSafe(size) && 1 <= n <= MAX_INSTANCE
    requires Settled(pre, email.headers, EffectiveList(signer, email))
    ensures var sig := AmsParsed(signer, env.crypto, email, n);
            HasTags(sig.tags, AMS_TAGS) && AmsVerifies(env, sig, Email(pre + email.headers, email.body))
  {
    AmsParses(env, signer, email, n);
    NewAmsVerifies(env, signer, email, n, pre, size);
  }

  lemma {:induction false} NewSealLink(env: Env, signer: Signer, email: Email, sets: seq<ArcSet>, aar: string,
                                       size: nat)
    requires SignerOk(signer, env.crypto) && KeyOk(env, signer, size) && FoldSafe(size) && |sets| < MAX_INSTANCE
    ensures var seal := SealParsed(signer, env.crypto, email, sets, aar);
            && HasTags(seal.tags, SEAL_TAGS) && CvOk(seal, |sets| + 1)
            && SealVerifies(env, seal, SealCovers(signer, env.crypto, email, sets, aar))
  {
    SealParses(env, signer, email, sets, aar);
    NewSealVerifies(env, signer, email, sets, aar, size);
  }

  lemma {:induction false} NewLink(env: Env, signer: Signer, email: Email, sets: seq<ArcSet>, aar: string,
                                   pre: seq<Header>, size: nat)
    requires SealerOk(env, signer) && KeyOk(env, signer, size) && FoldSafe(size) && |sets| < MAX_INSTANCE
    requires Settled(pre, email.headers, EffectiveList(signer, email))
    ensures LinkOk(env, Email(pre + email.headers, email.body), sets, NewSet(env, signer, email, sets, aar))
  {
    NewAmsLink(env, signer, email, |sets| + 1, pre, size);
    NewSealLink(env, signer, email, sets, aar, size);
  }

  /** Whatever holds of every element after those before it goes on holding when one more is added. */
  lemma {:induction false} OneMoreLink(ok: (seq<ArcSet>, ArcSet) -> bool, sets: seq<ArcSet>, s: ArcSet)
    requires (forall i | 0 <= i < |sets| :: ok(sets[..i], sets[i])) && ok(sets, s)
    ensures var all := sets + [s]; forall i | 0 <= i < |all| :: ok(all[..i], all[i])
  {
    var all := sets + [s];
    forall i | 0 <= i < |all| ensures ok(all[..i], all[i]) {
      if i < |sets| { assert all[..i] == sets[..i]; } else { assert all[..i] == sets; }
    }
  }

  lemma {:induction false} LinkedGrows(env: Env, later: Email, sets: seq<ArcSet>, s: ArcSet)
    requires Linked(env, later, sets) && LinkOk(env, later, sets, s)
    ensures Linked(env, later, sets + [s])
  {
    OneMoreLink((earlier, t) => LinkOk(env, later, earlier, t), sets, s);
  }

  function WithSet(s: ArcSet, email: Email): Email {
    Email(NewHeaders(s) + email.headers, email.body)
  }

  /** The message with the headers of a new set in front; `arc` is what verifying it gave. */
  function Sealed(env: Env, signer: Signer, arc: Arc, email: Email, aar: nat -> string): Email {
    if ChainStatus(arc) == StatusFail then email
    else WithSet(NewSet(env, signer, email, arc.sets, aar(|arc.sets| + 1)), email)
  }

  /** That is the message with what `seal` gives in front of it. */
  lemma {:induction false} SealedIs(env: Env, signer: Signer, arc: Arc, email: Email, aar: nat -> string)
    ensures Sealed(env, signer, arc, email, aar)
         == Email(Seal(signer, env.crypto, arc, email, aar) + email.headers, email.body)
  {
    if ChainStatus(arc) == StatusFail {
      assert [] + email.headers == email.headers;
    } else {
      var s := NewSet(env, signer, email, arc.sets, aar(|arc.sets| + 1));
      assert Seal(signer, env.crypto, arc, email, aar) == NewHeaders(s);
    }
  }

  /** The new headers continue the chain. */
  lemma {:induction false} NewChain(env: Env, signer: Signer, email: Email, sets: seq<ArcSet>, aar: string)
    requires IsChain(env, email.headers, sets) && |sets| < MAX_INSTANCE
    requires SealerOk(env, signer) && env.aarInstance(aar) == Some(|sets| + 1)
    ensures var s := NewSet(env, signer, email, sets, aar);
            && IsChain(env, WithSet(s, email).headers, sets + [s])
            && ArcHeaded(s)
  {
    NewSetEmitted(env, signer, email, sets, aar);
    ChainGrows(env, email.headers, sets, NewSet(env, signer, email, sets, aar));
  }

  /** A chain whose links hold, none of them reaching for more ARC headers than there are. */
  ghost predicate Clean(env: Env, email: Email, sets: seq<ArcSet>) {
    && IsChain(env, email.headers, sets) && Linked(env, email, sets)
    && forall s | s in sets :: AmsSettled(email.headers, s.sig)
  }

  lemma {:induction false} CleanGrows(env: Env, email: Email, sets: seq<ArcSet>, s: ArcSet)
    requires Clean(env, email, sets) && ArcHeaded(s)
    requires LinkOk(env, WithSet(s, email), sets, s)
    ensures Linked(env, WithSet(s, email), sets + [s])
  {
    OldLinks(env, email, sets, s);
    LinkedGrows(env, WithSet(s, email), sets, s);
  }

  /** Sealing a clean chain of fewer than 50 sets gives one with a set more, all of whose links hold. */
  lemma {:induction false} CleanSealed(env: Env, signer: Signer, email: Email, sets: seq<ArcSet>, aar: string,
                                       size: nat)
    requires Clean(env, email, sets) && |sets| < MAX_INSTANCE && env.aarInstance(aar) == Some(|sets| + 1)
    requires SealerOk(env, signer) && KeyOk(env, signer, size) && FoldSafe(size)
    requires ArcSettled(email.headers, EffectiveList(signer, email))
    ensures var s := NewSet(env, signer, email, sets, aar);
            IsChain(env, WithSet(s, email).headers, sets + [s]) && Linked(env, WithSet(s, email), sets + [s])
  {
    var s := NewSet(env, signer, email, sets, aar);
    NewChain(env, signer, email, sets, aar);
    NewSettled(s, email.headers, EffectiveList(signer, email));
    NewLink(env, signer, email, sets, aar, NewHeaders(s), size);
    CleanGrows(env, email, sets, s);
  }

  /** The message passes, and these are its sets. */
  ghost predicate PassesWith(env: Env, email: Email, sets: seq<ArcSet>) {
    ChainStatus(Verified(env, email)) == StatusPass && Verified(env, email).sets == sets
  }

  lemma {:induction false} CleanPasses(env: Env, signer: Signer, email: Email, sets: seq<ArcSet>, aar: string,
                                       size: nat)
    requires Clean(env, email, sets) && |sets| < MAX_INSTANCE && env.aarInstance(aar) == Some(|sets| + 1)
    requires SealerOk(env, signer) && KeyOk(env, signer, size) && FoldSafe(size)
    requires ArcSettled(email.headers, EffectiveList(signer, email))
    ensures var s := NewSet(env, signer, email, sets, aar); PassesWith(env, WithSet(s, email), sets + [s])
  {
    var s := NewSet(env, signer, email, sets, aar);
    CleanSealed(env, signer, email, sets, aar, size);
    PassIff(env, WithSet(s, email), sets + [s]);
  }

  // ---- what the verifier says -----------------------------------------------------------------------

  lemma {:induction false} NotFailed(env: Env, email: Email)
    requires ChainStatus(Verified(env, email)) != StatusFail
    ensures IsChain(env, email.headers, Verified(env, email).sets) && Linked(env, email, Verified(env, email).sets)
    ensures |Verified(env, email).sets| <= MAX_INSTANCE
  {
    NoIssuesIff(env, email);
  }

  /**
   * Sealing a message whose chain is none or passes with n < 50 sets gives three headers that, put
   * in front of it, make a message that passes with exactly one set more.
   */
  lemma {:induction false} SealExtends(env: Env, signer: Signer, arc: Arc, email: Email, aar: nat -> string, size: nat)
    requires arc == Verified(env, email) && ChainStatus(arc) != StatusFail && |arc.sets| < MAX_INSTANCE
    requires SealerOk(env, signer) && KeyOk(env, signer, size) && FoldSafe(size)
    requires env.aarInstance(aar(|arc.sets| + 1)) == Some(|arc.sets| + 1)
    requires ArcSettled(email.headers, EffectiveList(signer, email))
    requires forall s | s in arc.sets :: AmsSettled(email.headers, s.sig)
    ensures PassesWith(env, Sealed(env, signer, arc, email, aar),
                       arc.sets + [NewSet(env, signer, email, arc.sets, aar(|arc.sets| + 1))])
  {
    NotFailed(env, email);
    SealedPasses(env, signer, arc, email, aar, size);
  }

  lemma {:induction false} SealedPasses(env: Env, signer: Signer, arc: Arc, email: Email, aar: nat -> string, size: nat)
    requires Clean(env, email, arc.sets) && ChainStatus(arc) != StatusFail && |arc.sets| < MAX_INSTANCE
    requires SealerOk(env, signer) && KeyOk(env, signer, size) && FoldSafe(size)
    requires env.aarInstance(aar(|arc.sets| + 1)) == Some(|arc.sets| + 1)
    requires ArcSettled(email.headers, EffectiveList(signer, email))
    ensures PassesWith(env, Sealed(env, signer, arc, email, aar),
                       arc.sets + [NewSet(env, signer, email, arc.sets, aar(|arc.sets| + 1))])
  {
    CleanPasses(env, signer, email, arc.sets, aar(|arc.sets| + 1), size);
  }

  // ---- where sealing breaks ---------------------------------------------------------------------------

  lemma {:induction false} OneUnparsed(name: string, parse: HitParser, hs: seq<Header>, i: nat)
    requires i < |hs| && SameName(hs[i].name, name) && parse(hs[i].value).None?
    ensures Unparsed(name, parse, hs) > 0
  {
    if i < |hs| - 1 { OneUnparsed(name, parse, hs[..|hs| - 1], i); }
  }

  lemma {:induction false} SecondUnparsed(env: Env, a: Header, b: Header, c: Header, hs: seq<Header>)
    requires b.name == AMS && AmsHit(env, b.value).None?
    ensures UnparsedOf(env, [a, b, c] + hs) > 0
  {
    OneUnparsed(AMS, AmsParser(env), [a, b, c] + hs, 1);
  }

  lemma {:induction false} SomeUnparsed(env: Env, email: Email)
    requires UnparsedOf(env, email.headers) > 0
    ensures ChainStatus(Verified(env, email)) == StatusFail
  {
    NoIssuesIff(env, email);
  }

  /** Sealing a chain of 50 sets adds a set 51, whose AMS does not parse: the message then fails. */
  lemma {:induction false} SealTooMany(env: Env, signer: Signer, arc: Arc, email: Email, aar: nat -> string)
    requires ChainStatus(arc) != StatusFail && |arc.sets| == MAX_INSTANCE && SignerOk(signer, env.crypto)
    ensures ChainStatus(Verified(env, Sealed(env, signer, arc, email, aar))) == StatusFail
  {
    var s := NewSet(env, signer, email, arc.sets, aar(|arc.sets| + 1));
    AmsTooMany(env, signer, email);
    SecondUnparsed(env, s.aar, s.ams, s.sealHeader, email.headers);
    SomeUnparsed(env, WithSet(s, email));
  }

  lemma {:induction false} LastLinkBroken(env: Env, later: Email, sets: seq<ArcSet>, s: ArcSet)
    requires IsChain(env, later.headers, sets + [s]) && !LinkOk(env, later, sets, s)
    ensures ChainStatus(Verified(env, later)) != StatusPass
  {
    var all := sets + [s];
    assert all[|sets|] == s && all[..|sets|] == sets;
    ChainSets(env, later.headers, all);
    PassIff(env, later, all);
  }

  /** The key and the list with which a new AMS verifies. */
  ghost predicate Good(signer: Signer, email: Email, size: nat) {
    FoldSafe(size) && ArcSettled(email.headers, EffectiveList(signer, email))
  }

  lemma {:induction false} NewAmsBroken(env: Env, signer: Signer, email: Email, n: nat, pre: seq<Header>, size: nat)
    requires SealerOk(env, signer) && KeyOk(env, signer, size) && 1 <= n <= MAX_INSTANCE
    requires !FoldSafe(size) || !Settled(pre, email.headers, EffectiveList(signer, email))
    requires NotFooled(env.crypto, signer, SignedInput(signer, env.crypto, email, AMS, AmsExtra(n)))
    ensures var sig := AmsParsed(signer, env.crypto, email, n);
            HasTags(sig.tags, AMS_TAGS) && !AmsVerifies(env, sig, Email(pre + email.headers, email.body))
  {
    AmsParses(env, signer, email, n);
    NewAmsVerifies(env, signer, email, n, pre, size);
  }

  lemma {:induction false} AmsBreaksLink(env: Env, later: Email, sets: seq<ArcSet>, s: ArcSet)
    requires HasTags(s.sig.tags, AMS_TAGS) && !AmsVerifies(env, s.sig, later)
    requires IsChain(env, later.headers, sets + [s])
    ensures ChainStatus(Verified(env, later)) != StatusPass
  {
    assert !LinkOk(env, later, sets, s);
    LastLinkBroken(env, later, sets, s);
  }

  /** A key or a list that is not good breaks the chain. */
  lemma {:induction false} NewBreaks(env: Env, signer: Signer, email: Email, sets: seq<ArcSet>, aar: string, size: nat)
    requires IsChain(env, email.headers, sets) && |sets| < MAX_INSTANCE && env.aarInstance(aar) == Some(|sets| + 1)
    requires SealerOk(env, signer) && KeyOk(env, signer, size) && !Good(signer, email, size)
    requires NotFooled(env.crypto, signer, SignedInput(signer, env.crypto, email, AMS, AmsExtra(|sets| + 1)))
    ensures ChainStatus(Verified(env, WithSet(NewSet(env, signer, email, sets, aar), email))) != StatusPass
  {
    var s := NewSet(env, signer, email, sets, aar);
    NewChain(env, signer, email, sets, aar);
    NewSettled(s, email.headers, EffectiveList(signer, email));
    NewAmsBroken(env, signer, email, |sets| + 1, NewHeaders(s), size);
    AmsBreaksLink(env, WithSet(s, email), sets, s);
  }

  lemma {:induction false} SomeLinkBroken(env: Env, later: Email, sets: seq<ArcSet>, s: ArcSet, i: nat)
    requires IsChain(env, later.headers, sets + [s]) && i < |sets| && !LinkOk(env, later, sets[..i], sets[i])
    ensures ChainStatus(Verified(env, later)) != StatusPass
  {
    var all := sets + [s];
    assert all[i] == sets[i] && all[..i] == sets[..i];
    ChainSets(env, later.headers, all);
    PassIff(env, later, all);
  }

  /** So does an AMS of the chain that reaches for the new headers. */
  lemma {:induction false} OldBreaks(env: Env, signer: Signer, email: Email, sets: seq<ArcSet>, aar: string, i: nat)
    requires IsChain(env, email.headers, sets) && Linked(env, email, sets) && |sets| < MAX_INSTANCE
    requires SealerOk(env, signer) && env.aarInstance(aar) == Some(|sets| + 1) && AllGenuine(env.crypto, sets, email)
    requires i < |sets| && !AmsSettled(email.headers, sets[i].sig)
    ensures ChainStatus(Verified(env, WithSet(NewSet(env, signer, email, sets, aar), email))) != StatusPass
  {
    var s := NewSet(env, signer, email, sets, aar);
    NewChain(env, signer, email, sets, aar);
    OldLinkBroken(env, email, sets, s, i);
    SomeLinkBroken(env, WithSet(s, email), sets, s, i);
  }

  ghost predicate AllSettled(hs: seq<Header>, sets: seq<ArcSet>) {
    forall s | s in sets :: AmsSettled(hs, s.sig)
  }

  /** A new set on a chain whose links hold makes a message that passes exactly when all is well with it. */
  lemma {:induction false} WithSetIff(env: Env, signer: Signer, email: Email, sets: seq<ArcSet>, aar: string, size: nat)
    requires IsChain(env, email.headers, sets) && Linked(env, email, sets) && |sets| < MAX_INSTANCE
    requires SealerOk(env, signer) && KeyOk(env, signer, size) && env.aarInstance(aar) == Some(|sets| + 1)
    requires AllGenuine(env.crypto, sets, email)
    requires NotFooled(env.crypto, signer, SignedInput(signer, env.crypto, email, AMS, AmsExtra(|sets| + 1)))
    ensures ChainStatus(Verified(env, WithSet(NewSet(env, signer, email, sets, aar), email))) == StatusPass
            <==> Good(signer, email, size) && AllSettled(email.headers, sets)
  {
    if !Good(signer, email, size) {
      NewBreaks(env, signer, email, sets, aar, size);
    } else if AllSettled(email.headers, sets) {
      CleanPasses(env, signer, email, sets, aar, size);
    } else {
      var t :| t in sets && !AmsSettled(email.headers, t.sig);
      var i :| 0 <= i < |sets| && sets[i] == t;
      OldBreaks(env, signer, email, sets, aar, i);
    }
  }

  /**
   * Sealing a chain that does not fail gives a message that passes exactly when there were fewer than 50
   * sets, the key's size is fold-safe, and no AMS, old or new, reaches for more ARC headers than there were.
   */
  lemma {:induction false} SealPassesIff(env: Env, signer: Signer, arc: Arc, email: Email, aar: nat -> string,
                                         size: nat)
    requires arc == Verified(env, email) && ChainStatus(arc) != StatusFail
    requires SealerOk(env, signer) && KeyOk(env, signer, size) && AllGenuine(env.crypto, arc.sets, email)
    requires var n := |arc.sets| + 1;
             n <= MAX_INSTANCE ==>
               && env.aarInstance(aar(n)) == Some(n)
               && NotFooled(env.crypto, signer, SignedInput(signer, env.crypto, email, AMS, AmsExtra(n)))
    ensures ChainStatus(Verified(env, Sealed(env, signer, arc, email, aar))) == StatusPass
            <==> |arc.sets| < MAX_INSTANCE && Good(signer, email, size) && AllSettled(email.headers, arc.sets)
  {
    NotFailed(env, email);
    if |arc.sets| == MAX_INSTANCE {
      SealTooMany(env, signer, arc, email, aar);
    } else {
        WithSetIff(env, signer, email, arc.sets, aar(|arc.sets| + 1), size);
    }
  }
}
