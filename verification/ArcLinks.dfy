/** What new headers in front of a message do to the links of its chain. */
module ArcLinks {
  import opened Common
  import opened DkimParser
  import opened DkimHeader
  import opened DkimCanon
  import opened DkimSelect
  import opened DkimTwoPass
  import opened DkimSign
  import opened DkimVerified
  import opened DkimInserted
  import opened ArcHeaders
  import opened ArcChain
  import opened ArcPass

  function NewHeaders(s: ArcSet): seq<Header> { [s.aar, s.ams, s.sealHeader] }

  /** The three headers have their names. */
  predicate ArcHeaded(s: ArcSet) {
    s.aar.name == AAR && s.ams.name == AMS && s.sealHeader.name == ARC_SEAL
  }

  predicate ArcName(name: string) {
    SameName(ARC_SEAL, name) || SameName(AMS, name) || SameName(AAR, name)
  }

  /** The list asks for no more ARC headers than there are. */
  ghost predicate ArcSettled(hs: seq<Header>, list: seq<string>) {
    forall name | name in list && ArcName(name) :: Occurrences(list, name) <= CountFrom(hs, name, 0)
  }

  lemma {:induction false} NewNamed(s: ArcSet, name: string)
    requires ArcHeaded(s)
    ensures NoneNamed(NewHeaders(s), name) <==> !ArcName(name)
  {
    assert s.aar in NewHeaders(s) && s.ams in NewHeaders(s) && s.sealHeader in NewHeaders(s);
  }

  /** That is what it takes for a new set not to be reached. */
  lemma {:induction false} NewSettled(s: ArcSet, hs: seq<Header>, list: seq<string>)
    requires ArcHeaded(s)
    ensures Settled(NewHeaders(s), hs, list) <==> ArcSettled(hs, list)
  {
    forall name ensures NoneNamed(NewHeaders(s), name) <==> !ArcName(name) { NewNamed(s, name); }
    if Settled(NewHeaders(s), hs, list) {
      forall name | name in list && ArcName(name) ensures Occurrences(list, name) <= CountFrom(hs, name, 0) {
        assert SettledFor(NewHeaders(s), hs, list, name);
      }
    }
  }

  /** It stays so when headers are added. */
  lemma {:induction false} SettledGrows(pre: seq<Header>, hs: seq<Header>, list: seq<string>)
    requires ArcSettled(hs, list)
    ensures ArcSettled(pre + hs, list)
  {
    forall name | name in list && ArcName(name) ensures Occurrences(list, name) <= CountFrom(pre + hs, name, 0) {
      CountConcat(pre, hs, name, 0);
    }
  }

  ghost predicate AmsSettled(hs: seq<Header>, tagged: TaggedHeader) {
    GetTag(tagged.tags, "h").Some? && ArcSettled(hs, ListOf(Value(tagged.tags, "h")))
  }

  // ---- an AMS ---------------------------------------------------------------------------------

  lemma {:induction false} SameVerdict(crypto: Crypto, name: string, hdr: TaggedHeader, a: Email, b: Email)
    requires HasTags(hdr.tags, VERIFY_TAGS) && GetTag(hdr.tags, "h").Some? && a.body == b.body
    requires var list := ListOf(Value(hdr.tags, "h"));
             SelectedHeaders(a.headers, list) == SelectedHeaders(b.headers, list)
    ensures VerifyEmailHeader(crypto, name, hdr, a).Ok? == VerifyEmailHeader(crypto, name, hdr, b).Ok?
  {
  }

  /** An AMS that does not reach the headers in front is not affected by them. */
  lemma {:induction false} AmsUnaffected(env: Env, hdr: TaggedHeader, pre: seq<Header>, email: Email)
    requires HasTags(hdr.tags, AMS_TAGS) && GetTag(hdr.tags, "h").Some?
    requires Settled(pre, email.headers, ListOf(Value(hdr.tags, "h")))
    ensures AmsVerifies(env, hdr, Email(pre + email.headers, email.body)) == AmsVerifies(env, hdr, email)
  {
    AmsHas(hdr.tags);
    PrependIrrelevant(pre, email.headers, ListOf(Value(hdr.tags, "h")));
    SameVerdict(env.crypto, AMS, hdr, Email(pre + email.headers, email.body), email);
  }

  function HeaderCanon(hdr: TaggedHeader): Type {
    match ParseCanonicalization(ValueOpt(hdr.tags, "c"))
    case None => Simple
    case Some(tys) => tys.0
  }

  /** No key takes the signature in the header for one of other bytes than those it covers in the message. */
  ghost predicate Genuine(crypto: Crypto, hdr: TaggedHeader, email: Email)
    requires GetTag(hdr.tags, "h").Some? && GetTag(hdr.tags, "b").Some?
  {
    forall y :: y == VerifierInput(hdr, HeaderCanon(hdr), email, AMS) || NotTaken(crypto, hdr, y)
  }

  ghost predicate NotTaken(crypto: Crypto, hdr: TaggedHeader, y: string)
    requires GetTag(hdr.tags, "b").Some?
  {
    forall algo, sig, k | crypto.decode(Value(hdr.tags, "b")) == Some(sig) ::
      crypto.verify(algo, crypto.digest(algo, y), sig, k) != Ok(true)
  }

  lemma {:induction false} InputGrows(hdr: TaggedHeader, ty: Type, pre: seq<Header>, email: Email, name: string)
    requires GetTag(hdr.tags, "h").Some? && GetTag(hdr.tags, "b").Some?
    requires !Settled(pre, email.headers, ListOf(Value(hdr.tags, "h")))
    ensures VerifierInput(hdr, ty, Email(pre + email.headers, email.body), name) != VerifierInput(hdr, ty, email, name)
  {
    var list := ListOf(Value(hdr.tags, "h"));
    UnsettledGrows(ty, pre, email.headers, list);
    LongerDiffers(CanonHeaders(ty, SelectedHeaders(pre + email.headers, list)),
                  CanonHeaders(ty, SelectedHeaders(email.headers, list)),
                  Chopped(ty, name, Replace(hdr.raw, GetTag(hdr.tags, "b").value.raw)));
  }

  lemma {:induction false} NotTakenFails(crypto: Crypto, hdr: TaggedHeader, email: Email)
    requires HasTags(hdr.tags, VERIFY_TAGS) && GetTag(hdr.tags, "h").Some? && GetTag(hdr.tags, "b").Some?
    requires NotTaken(crypto, hdr, VerifierInput(hdr, HeaderCanon(hdr), email, AMS))
    ensures VerifyEmailHeader(crypto, AMS, hdr, email).Err?
  {
    assert VERIFY_TAGS[0] == "d" && VERIFY_TAGS[1] == "s" && VERIFY_TAGS[2] == "a";
    var keys := crypto.keys(Value(hdr.tags, "d"), Value(hdr.tags, "s"));
    var algo, sig := ParseHashAlgo(Value(hdr.tags, "a")), crypto.decode(Value(hdr.tags, "b"));
    if keys.Some? && algo.Some? && sig.Some? {
      KeysReject(crypto, hdr, algo.value, VerifierInput(hdr, HeaderCanon(hdr), email, AMS), sig.value, keys.value);
    }
  }

  lemma {:induction false} KeysReject(crypto: Crypto, hdr: TaggedHeader, algo: HashAlgo, y: string, sig: string,
                                      keys: seq<Key>)
    requires GetTag(hdr.tags, "b").Some? && NotTaken(crypto, hdr, y)
    requires crypto.decode(Value(hdr.tags, "b")) == Some(sig)
    ensures TryKeys(crypto, algo, crypto.digest(algo, y), sig, keys, SignatureDidNotVerify).Err?
  {
    TryKeysAccepts(crypto, algo, crypto.digest(algo, y), sig, keys, SignatureDidNotVerify);
  }

  /** An AMS that reaches them no longer verifies. */
  lemma {:induction false} AmsAffected(env: Env, hdr: TaggedHeader, pre: seq<Header>, email: Email)
    requires HasTags(hdr.tags, AMS_TAGS) && GetTag(hdr.tags, "h").Some? && GetTag(hdr.tags, "b").Some?
    requires !Settled(pre, email.headers, ListOf(Value(hdr.tags, "h"))) && Genuine(env.crypto, hdr, email)
    ensures !AmsVerifies(env, hdr, Email(pre + email.headers, email.body))
  {
    var later := Email(pre + email.headers, email.body);
    AmsHas(hdr.tags);
    InputGrows(hdr, HeaderCanon(hdr), pre, email, AMS);
    assert NotTaken(env.crypto, hdr, VerifierInput(hdr, HeaderCanon(hdr), later, AMS));
    NotTakenFails(env.crypto, hdr, later);
  }

  // ---- the links of a chain -------------------------------------------------------------------

  lemma {:induction false} LinkUnaffected(env: Env, pre: seq<Header>, email: Email, earlier: seq<ArcSet>, s: ArcSet)
    requires LinkOk(env, email, earlier, s) && GetTag(s.sig.tags, "h").Some?
    requires Settled(pre, email.headers, ListOf(Value(s.sig.tags, "h")))
    ensures LinkOk(env, Email(pre + email.headers, email.body), earlier, s)
  {
    AmsUnaffected(env, s.sig, pre, email);
  }

  /** The links of a chain go on holding if none of its AMS reaches the new set. */
  lemma {:induction false} OldLinks(env: Env, email: Email, sets: seq<ArcSet>, s: ArcSet)
    requires Linked(env, email, sets) && (forall t | t in sets :: AmsSettled(email.headers, t.sig)) && ArcHeaded(s)
    ensures Linked(env, Email(NewHeaders(s) + email.headers, email.body), sets)
  {
    forall i | 0 <= i < |sets|
      ensures LinkOk(env, Email(NewHeaders(s) + email.headers, email.body), sets[..i], sets[i])
    {
      assert AmsSettled(email.headers, sets[i].sig) && LinkOk(env, email, sets[..i], sets[i]);
      NewSettled(s, email.headers, ListOf(Value(sets[i].sig.tags, "h")));
      LinkUnaffected(env, NewHeaders(s), email, sets[..i], sets[i]);
    }
  }

  lemma {:induction false} AmsNeeds(tags: seq<Tag>)
    requires HasTags(tags, AMS_TAGS)
    ensures GetTag(tags, "h").Some? && GetTag(tags, "b").Some?
  {
    assert AMS_TAGS[4] == "h" && AMS_TAGS[1] == "b";
  }

  /** Every AMS of the sets covers the bytes it was made for, and no others. */
  ghost predicate AllGenuine(crypto: Crypto, sets: seq<ArcSet>, email: Email) {
    forall s | s in sets && GetTag(s.sig.tags, "h").Some? && GetTag(s.sig.tags, "b").Some? ::
      Genuine(crypto, s.sig, email)
  }

  /** A link whose AMS reaches the new set is broken by it. */
  lemma {:induction false} OldLinkBroken(env: Env, email: Email, sets: seq<ArcSet>, s: ArcSet, i: nat)
    requires Linked(env, email, sets) && i < |sets| && ArcHeaded(s)
    requires !AmsSettled(email.headers, sets[i].sig) && AllGenuine(env.crypto, sets, email)
    ensures !LinkOk(env, Email(NewHeaders(s) + email.headers, email.body), sets[..i], sets[i])
  {
    var t := sets[i];
    assert LinkOk(env, email, sets[..i], t);
    AmsNeeds(t.sig.tags);
    assert t in sets && Genuine(env.crypto, t.sig, email);
    NewSettled(s, email.headers, ListOf(Value(t.sig.tags, "h")));
    AmsAffected(env, t.sig, NewHeaders(s), email);
  }
}
