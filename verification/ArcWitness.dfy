/** Sealing with a scheme that meets all the hypotheses. */
module ArcWitness {
  import opened Common
  import opened Strings
  import opened DkimSelect
  import opened DkimSign
  import opened DkimTwoPass
  import opened DkimWitness
  import opened ArcHeaders
  import opened ArcChain
  import opened ArcPass
  import opened ArcLinks
  import opened ArcSeal
  import opened ArcRounds
  import Decimal

  /** Signatures of 172 characters, and results that are just their number. */
  function ExampleEnv(): Env {
    Env(Scheme(172, ""), _ => false, s => Decimal.Parse(s, 255))
  }

  function Results(): nat -> string { (n: nat) => Decimal.Show(n) }

  lemma {:induction false} ExampleSealerOk()
    ensures SealerOk(ExampleEnv(), Example()) && KeyOk(ExampleEnv(), Example(), 172) && FoldSafe(172)
  {
    ExampleOk(172, "");
    SchemeAccepts(172, "");
    SchemeSize(172, "");
    assert Example().list[0] == "from";
  }

  lemma {:induction false} ExampleResultsOk()
    ensures AarsOk(ExampleEnv(), Results())
  {
    forall n | 1 <= n <= MAX_INSTANCE ensures ExampleEnv().aarInstance(Results()(n)) == Some(n) {
      Decimal.ParseShow(n, 255);
    }
  }

  lemma {:induction false} FromNoArc(hs: seq<Header>)
    ensures ArcSettled(hs, Example().list)
  {
    assert |Lower("from")| == 4 && |Lower(ARC_SEAL)| == 8 && |Lower(AMS)| == 21 && |Lower(AAR)| == 26;
  }

  lemma {:induction false} NothingSealed(env: Env, email: Email)
    requires forall h | h in email.headers :: !ArcNamed(h)
    ensures Verified(env, email).sets == [] && Sealable(ArcVerifier(env), Ready(env, Example()), email)
  {
    NoneIff(env, email);
    FromNoArc(email.headers);
    assert EffectiveList(Example(), email) == Example().list && IsReady(env, Example(), email);
  }

  /** A message without ARC headers, sealed again and again: it passes 50 times, and then no more. */
  lemma {:induction false} ExampleRounds(email: Email, k: nat)
    requires (forall h | h in email.headers :: !ArcNamed(h)) && k > 0
    ensures ChainStatus(Verified(ExampleEnv(), Rounds(ArcSealer(ExampleEnv(), Example(), Results()), email, k)))
         == if k <= 50 then StatusPass else StatusFail
  {
    ExampleSealerOk();
    ExampleResultsOk();
    NothingSealed(ExampleEnv(), email);
    SealRunIff(ExampleEnv(), Example(), email, Results(), 172, k);
  }
}
