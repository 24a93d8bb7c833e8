/** Sealing again and again. */
module ArcRounds {
  import opened Common
  import opened DkimSelect
  import opened DkimSign
  import opened DkimTwoPass
  import opened DkimAgree
  import opened DkimVerified
  import opened ArcHeaders
  import opened ArcChain
  import opened ArcPass
  import opened ArcLinks
  import opened ArcSeal
  import opened ArcExtend

  type Verifier = Email -> Arc

  type Sealer = Email -> Email

  type Readiness = Email -> bool

  /** The message after `k` rounds. */
  function Rounds(seal: Sealer, email: Email, k: nat): Email {
    if k == 0 then email else seal(Rounds(seal, email, k - 1))
  }

  /** A message that can be sealed: its chain has not failed, and it is ready. */
  ghost predicate Sealable(verify: Verifier, ready: Readiness, email: Email) {
    ChainStatus(verify(email)) != StatusFail && ready(email)
  }

  /** A round that adds one set to a chain and leaves it passing. */
  ghost predicate Adds(verify: Verifier, ready: Readiness, before: Email, after: Email) {
    && Sealable(verify, ready, after) && ChainStatus(verify(after)) == StatusPass
    && |verify(after).sets| == |verify(before).sets| + 1 && verify(before).sets <= verify(after).sets
  }

  /** What one round does: it adds a set while there is room, breaks a full chain, and leaves a failed one alone. */
  ghost predicate RoundBy(verify: Verifier, ready: Readiness, seal: Sealer, e: Email) {
    && (Sealable(verify, ready, e) ==> |verify(e).sets| <= MAX_INSTANCE)
    && (Sealable(verify, ready, e) && |verify(e).sets| < MAX_INSTANCE ==> Adds(verify, ready, e, seal(e)))
    && (Sealable(verify, ready, e) && |verify(e).sets| == MAX_INSTANCE ==> ChainStatus(verify(seal(e))) == StatusFail)
    && (ChainStatus(verify(e)) == StatusFail ==> seal(e) == e)
  }

  ghost predicate RoundsBy(verify: Verifier, ready: Readiness, seal: Sealer) {
    forall e :: RoundBy(verify, ready, seal, e)
  }

  lemma {:induction false} RoundsAdd(verify: Verifier, ready: Readiness, seal: Sealer, email: Email, k: nat)
    requires RoundsBy(verify, ready, seal) && Sealable(verify, ready, email) && |verify(email).sets| + k <= MAX_INSTANCE
    ensures var later := Rounds(seal, email, k);
            && Sealable(verify, ready, later) && |verify(later).sets| == |verify(email).sets| + k
            && verify(email).sets <= verify(later).sets && (k > 0 ==> ChainStatus(verify(later)) == StatusPass)
  {
    if k > 0 {
      RoundsAdd(verify, ready, seal, email, k - 1);
      assert RoundBy(verify, ready, seal, Rounds(seal, email, k - 1));
    }
  }

  lemma {:induction false} RoundsIff(verify: Verifier, ready: Readiness, seal: Sealer, email: Email, k: nat)
    requires RoundsBy(verify, ready, seal) && Sealable(verify, ready, email) && k > 0
    ensures ChainStatus(verify(Rounds(seal, email, k)))
         == if |verify(email).sets| + k <= MAX_INSTANCE then StatusPass else StatusFail
  {
    var n, e := |verify(email).sets|, Rounds(seal, email, k - 1);
    assert RoundBy(verify, ready, seal, email) && RoundBy(verify, ready, seal, e);
    if n + k <= MAX_INSTANCE {
      RoundsAdd(verify, ready, seal, email, k);
    } else if n + k == MAX_INSTANCE + 1 {
      RoundsAdd(verify, ready, seal, email, k - 1);
    } else {
      RoundsIff(verify, ready, seal, email, k - 1);
    }
  }

  // ---- rounds of verifying and sealing ------------------------------------------------------------

  function ArcVerifier(env: Env): Verifier { e => Verified(env, e) }

  function ArcSealer(env: Env, signer: Signer, aar: nat -> string): Sealer {
    e => Sealed(env, signer, Verified(env, e), e, aar)
  }

  /** The authentication results of every instance parse as such. */
  ghost predicate AarsOk(env: Env, aar: nat -> string) {
    forall n | 1 <= n <= MAX_INSTANCE :: env.aarInstance(aar(n)) == Some(n)
  }

  /** No AMS, old or to be made, reaches for more ARC headers than there are. */
  ghost predicate IsReady(env: Env, signer: Signer, email: Email) {
    && ArcSettled(email.headers, EffectiveList(signer, email))
    && AllSettled(email.headers, Verified(env, email).sets)
  }

  ghost function Ready(env: Env, signer: Signer): Readiness { e => IsReady(env, signer, e) }

  /** Over-signing always asks for one header more, so it must not name ARC headers at all. */
  lemma {:induction false} OverSignedNoArc(signer: Signer, crypto: Crypto, email: Email)
    requires SignerOk(signer, crypto) && signer.overSign && ArcSettled(email.headers, EffectiveList(signer, email))
    ensures forall name | name in signer.list :: !ArcName(name)
  {
    forall name | name in signer.list ensures !ArcName(name) {
      var list := EffectiveList(signer, email);
      SortDedupOf(signer.list);
      OneMoreCount(email.headers, SortDedup(signer.list), name);
      var j := OccurrenceAt(list, name, 0);
      assert name in list;
    }
  }

  /** The signer's own list stays settled when headers are added. */
  lemma {:induction false} StaysSettled(signer: Signer, crypto: Crypto, pre: seq<Header>, email: Email)
    requires SignerOk(signer, crypto) && ArcSettled(email.headers, EffectiveList(signer, email))
    ensures var later := Email(pre + email.headers, email.body); ArcSettled(later.headers, EffectiveList(signer, later))
  {
    if signer.overSign {
      OverSignedNoArc(signer, crypto, email);
      EffectiveOk(signer, crypto, Email(pre + email.headers, email.body));
    } else {
      SettledGrows(pre, email.headers, signer.list);
    }
  }

  lemma {:induction false} AllStaySettled(pre: seq<Header>, hs: seq<Header>, sets: seq<ArcSet>, s: ArcSet)
    requires AllSettled(hs, sets) && AmsSettled(hs, s.sig)
    ensures AllSettled(pre + hs, sets + [s])
  {
    forall t | t in sets + [s] ensures AmsSettled(pre + hs, t.sig) {
      assert AmsSettled(hs, t.sig);
      SettledGrows(pre, hs, ListOf(Value(t.sig.tags, "h")));
    }
  }

  lemma {:induction false} StaysReady(env: Env, signer: Signer, email: Email, s: ArcSet)
    requires SignerOk(signer, env.crypto) && IsReady(env, signer, email) && AmsSettled(email.headers, s.sig)
    requires Verified(env, WithSet(s, email)).sets == Verified(env, email).sets + [s]
    ensures IsReady(env, signer, WithSet(s, email))
  {
    StaysSettled(signer, env.crypto, NewHeaders(s), email);
    AllStaySettled(NewHeaders(s), email.headers, Verified(env, email).sets, s);
  }

  /** One round adds a set and keeps a message sealable. */
  lemma {:induction false} SealAdds(env: Env, signer: Signer, email: Email, aar: nat -> string, size: nat)
    requires Sealable(ArcVerifier(env), Ready(env, signer), email) && |Verified(env, email).sets| < MAX_INSTANCE
    requires SealerOk(env, signer) && KeyOk(env, signer, size) && FoldSafe(size) && AarsOk(env, aar)
    ensures Adds(ArcVerifier(env), Ready(env, signer), email, Sealed(env, signer, Verified(env, email), email, aar))
  {
    var arc := Verified(env, email);
    var n := |arc.sets| + 1;
    assert IsReady(env, signer, email);
    SealExtends(env, signer, arc, email, aar, size);
    ListSigned(signer, env.crypto, email, n);
    StaysReady(env, signer, email, NewSet(env, signer, email, arc.sets, aar(n)));
  }

  lemma {:induction false} SealingRounds(env: Env, signer: Signer, aar: nat -> string, size: nat)
    requires SealerOk(env, signer) && KeyOk(env, signer, size) && FoldSafe(size) && AarsOk(env, aar)
    ensures RoundsBy(ArcVerifier(env), Ready(env, signer), ArcSealer(env, signer, aar))
  {
    forall e ensures RoundBy(ArcVerifier(env), Ready(env, signer), ArcSealer(env, signer, aar), e) {
      SealRound(env, signer, e, aar, size);
    }
  }

  lemma {:induction false} SealRound(env: Env, signer: Signer, e: Email, aar: nat -> string, size: nat)
    requires SealerOk(env, signer) && KeyOk(env, signer, size) && FoldSafe(size) && AarsOk(env, aar)
    ensures RoundBy(ArcVerifier(env), Ready(env, signer), ArcSealer(env, signer, aar), e)
  {
    var arc := Verified(env, e);
    if Sealable(ArcVerifier(env), Ready(env, signer), e) {
      NotFailed(env, e);
      if |arc.sets| < MAX_INSTANCE {
        SealAdds(env, signer, e, aar, size);
      } else {
        SealTooMany(env, signer, arc, e, aar);
      }
    }
  }

  /** As long as there is room, each round adds one set in front of a chain that keeps passing. */
  lemma {:induction false} SealRun(env: Env, signer: Signer, email: Email, aar: nat -> string, size: nat, k: nat)
    requires SealerOk(env, signer) && KeyOk(env, signer, size) && FoldSafe(size) && AarsOk(env, aar)
    requires Sealable(ArcVerifier(env), Ready(env, signer), email) && |Verified(env, email).sets| + k <= MAX_INSTANCE
    ensures var before, after := Verified(env, email), Verified(env, Rounds(ArcSealer(env, signer, aar), email, k));
            && |after.sets| == |before.sets| + k && before.sets <= after.sets
            && (k > 0 ==> ChainStatus(after) == StatusPass)
  {
    SealingRounds(env, signer, aar, size);
    RoundsAdd(ArcVerifier(env), Ready(env, signer), ArcSealer(env, signer, aar), email, k);
  }

  /** Over any number of rounds, the chain passes exactly as long as it has no more than 50 sets. */
  lemma {:induction false} SealRunIff(env: Env, signer: Signer, email: Email, aar: nat -> string, size: nat, k: nat)
    requires SealerOk(env, signer) && KeyOk(env, signer, size) && FoldSafe(size) && AarsOk(env, aar)
    requires Sealable(ArcVerifier(env), Ready(env, signer), email) && k > 0
    ensures ChainStatus(Verified(env, Rounds(ArcSealer(env, signer, aar), email, k)))
         == if |Verified(env, email).sets| + k <= MAX_INSTANCE then StatusPass else StatusFail
  {
    SealingRounds(env, signer, aar, size);
    RoundsIff(ArcVerifier(env), Ready(env, signer), ArcSealer(env, signer, aar), email, k);
  }

  /** A failed chain stays failed. */
  lemma {:induction false} StaysFailed(env: Env, signer: Signer, email: Email, aar: nat -> string, k: nat)
    requires k > 0 && ChainStatus(Verified(env, ArcSealer(env, signer, aar)(email))) == StatusFail
    ensures ChainStatus(Verified(env, Rounds(ArcSealer(env, signer, aar), email, k))) == StatusFail
  {
    if k > 1 { StaysFailed(env, signer, email, aar, k - 1); }
  }

  /** A sealed message has ARC headers. */
  lemma {:induction false} SealedNotNone(env: Env, signer: Signer, email: Email, aar: nat -> string)
    requires ChainStatus(Verified(env, email)) != StatusFail
    ensures ChainStatus(Verified(env, ArcSealer(env, signer, aar)(email))) != StatusNone
  {
    var sets := Verified(env, email).sets;
    var s := NewSet(env, signer, email, sets, aar(|sets| + 1));
    NoneIff(env, WithSet(s, email));
    assert s.aar in WithSet(s, email).headers && ArcNamed(s.aar);
  }

  /** No key takes an AMS of the message, or the one to be made, for a signature of other bytes. */
  ghost predicate Trusted(env: Env, signer: Signer, email: Email) {
    var sets := Verified(env, email).sets;
    && AllGenuine(env.crypto, sets, email)
    && NotFooled(env.crypto, signer, SignedInput(signer, env.crypto, email, AMS, AmsExtra(|sets| + 1)))
  }

  lemma {:induction false} FirstRoundFails(env: Env, signer: Signer, email: Email, aar: nat -> string, size: nat)
    requires SealerOk(env, signer) && KeyOk(env, signer, size) && AarsOk(env, aar)
    requires ChainStatus(Verified(env, email)) != StatusFail && Trusted(env, signer, email)
    requires !(FoldSafe(size) && IsReady(env, signer, email))
    ensures ChainStatus(Verified(env, ArcSealer(env, signer, aar)(email))) == StatusFail
  {
    SealPassesIff(env, signer, Verified(env, email), email, aar, size);
    SealedNotNone(env, signer, email, aar);
  }

  /** Whatever the key and the lists, rounds of sealing pass exactly in these cases, and otherwise fail. */
  lemma {:induction false} SealRunExactly(env: Env, signer: Signer, email: Email, aar: nat -> string, size: nat, k: nat)
    requires SealerOk(env, signer) && KeyOk(env, signer, size) && AarsOk(env, aar)
    requires ChainStatus(Verified(env, email)) != StatusFail && Trusted(env, signer, email) && k > 0
    ensures ChainStatus(Verified(env, Rounds(ArcSealer(env, signer, aar), email, k)))
         == if |Verified(env, email).sets| + k <= MAX_INSTANCE && FoldSafe(size) && IsReady(env, signer, email)
            then StatusPass else StatusFail
  {
    if FoldSafe(size) && IsReady(env, signer, email) {
      SealRunIff(env, signer, email, aar, size, k);
    } else {
      FirstRoundFails(env, signer, email, aar, size);
      StaysFailed(env, signer, email, aar, k);
    }
  }
}
