/** Exactly which messages pass, and why a chain without issues is fully validated. */
module ArcPass {
  import opened DkimSelect
  import opened DkimSign
  import opened ArcHeaders
  import opened ArcChain

  // ---- the rules -----------------------------------------------------------------------

  /** Exactly one seal, one AMS and one AAR carry the instance, and they make up the set. */
  ghost predicate OneEach(p: Parts, i: nat, s: ArcSet) {
    && s.instance == i
    && Group(p.seals, i) == [Entry(s.sealHeader, Hit(i, s.seal))]
    && Group(p.sigs, i) == [Entry(s.ams, Hit(i, s.sig))]
    && |Group(p.aars, i)| == 1 && Group(p.aars, i)[0].header == s.aar
  }

  ghost predicate NoneAt(p: Parts, i: nat) {
    Group(p.seals, i) == [] && Group(p.sigs, i) == [] && Group(p.aars, i) == []
  }

  /** Every ARC header parses, and the instances are exactly 1 to n, once each. */
  ghost predicate IsChain(env: Env, hs: seq<Header>, sets: seq<ArcSet>) {
    && UnparsedOf(env, hs) == 0 && |sets| <= MAX_INSTANCE
    && (forall k | 0 <= k < |sets| :: OneEach(PartsOf(env, hs), k + 1, sets[k]))
    && forall i | |sets| < i <= MAX_INSTANCE :: NoneAt(PartsOf(env, hs), i)
  }

  /** The AMS verifies, the seal verifies over all that came before, and `cv` is as it must be. */
  ghost predicate LinkOk(env: Env, email: Email, earlier: seq<ArcSet>, s: ArcSet) {
    && ValidSet(s) && AmsVerifies(env, s.sig, email)
    && SealVerifies(env, s.seal, Links(earlier) + [s.aar, s.ams]) && CvOk(s.seal, s.instance)
  }

  ghost predicate Linked(env: Env, email: Email, sets: seq<ArcSet>) {
    forall i | 0 <= i < |sets| :: LinkOk(env, email, sets[..i], sets[i])
  }

  // ---- classes ---------------------------------------------------------------------------

  lemma {:induction false} ClassIff(p: Parts, i: nat, s: ArcSet)
    ensures ClassOf(p, i) == Present(s) <==> OneEach(p, i, s)
    ensures ClassOf(p, i) == Absent <==> NoneAt(p, i)
  {
    var seals, sigs, aars := Group(p.seals, i), Group(p.sigs, i), Group(p.aars, i);
    if ClassOf(p, i) == Present(s) {
      GroupIn(p.seals, i, seals[0]);
      GroupIn(p.sigs, i, sigs[0]);
      assert seals == [seals[0]] && sigs == [sigs[0]];
    }
  }

  lemma {:induction false} RepeatedEmpty(n: nat)
    ensures Repeated(n) == [] <==> n == 0
  {
  }

  lemma {:induction false} SetIssuesEmpty(cls: Classes, i: nat)
    ensures SetIssues(cls, i) == [] <==> forall j | 1 <= j <= i :: cls(j).Present? || cls(j).Absent?
  {
    if i > 0 { SetIssuesEmpty(cls, i - 1); }
  }

  lemma {:induction false} GapIssuesEmpty(cls: Classes, i: nat)
    ensures GapIssues(cls, i) == [] <==> forall j | 2 <= j <= i :: cls(j).Present? ==> cls(j - 1).Present?
  {
    if i >= 2 { GapIssuesEmpty(cls, i - 1); }
  }

  /** The instances from 1 to n are there, and none after. */
  ghost predicate UpTo(cls: Classes, sets: seq<ArcSet>, i: nat) {
    && |sets| <= i
    && (forall k | 0 <= k < |sets| :: cls(k + 1) == Present(sets[k]))
    && forall j | |sets| < j <= i :: !cls(j).Present?
  }

  /** Without gaps, the sets found are those of instances 1 to n. */
  lemma {:induction false} Contiguous(cls: Classes, i: nat)
    requires forall j | 2 <= j <= i :: cls(j).Present? ==> cls(j - 1).Present?
    ensures UpTo(cls, Sets(cls, i), i)
  {
    if i > 0 {
      Contiguous(cls, i - 1);
      if i >= 2 && cls(i).Present? { assert cls(i - 1).Present?; }
    }
  }

  lemma {:induction false} SetsUpTo(cls: Classes, sets: seq<ArcSet>, i: nat, m: nat)
    requires UpTo(cls, sets, m) && i <= m
    ensures Sets(cls, i) == if i <= |sets| then sets[..i] else sets
  {
    if i > 0 {
      SetsUpTo(cls, sets, i - 1, m);
      if i <= |sets| {
        assert cls(i - 1 + 1) == Present(sets[i - 1]);
        assert sets[..i] == sets[..i - 1] + [sets[i - 1]];
      } else if i - 1 == |sets| {
        assert sets[..i - 1] == sets;
      }
    }
  }

  lemma {:induction false} ChainUpTo(env: Env, hs: seq<Header>, sets: seq<ArcSet>)
    requires IsChain(env, hs, sets)
    ensures UpTo(ClassesOf(env, hs), sets, MAX_INSTANCE)
    ensures forall i | |sets| < i <= MAX_INSTANCE :: ClassesOf(env, hs)(i).Absent?
  {
    var p := PartsOf(env, hs);
    forall k | 0 <= k < |sets| ensures ClassOf(p, k + 1) == Present(sets[k]) {
      assert OneEach(p, k + 1, sets[k]);
      ClassIff(p, k + 1, sets[k]);
    }
    forall i | |sets| < i <= MAX_INSTANCE ensures ClassOf(p, i).Absent? {
      assert NoneAt(p, i);
    }
  }

  /** The sets of a chain are the sets that are found. */
  lemma {:induction false} ChainSets(env: Env, hs: seq<Header>, sets: seq<ArcSet>)
    requires IsChain(env, hs, sets)
    ensures Sets(ClassesOf(env, hs), MAX_INSTANCE) == sets
  {
    ChainUpTo(env, hs, sets);
    SetsUpTo(ClassesOf(env, hs), sets, MAX_INSTANCE, MAX_INSTANCE);
    if |sets| == MAX_INSTANCE { assert sets[..MAX_INSTANCE] == sets; }
  }

  lemma {:induction false} FirstIssueIff(check: LinkCheck, sets: seq<ArcSet>)
    requires forall earlier, s | s in sets :: check.requires(earlier, s)
    ensures FirstIssue(check, sets).None? <==> forall i | 0 <= i < |sets| :: check(sets[..i], sets[i]).None?
    ensures FirstIssue(check, sets).None? ==>
              Validated(check, sets) == if sets == [] then 0 else sets[|sets| - 1].instance
  {
    if sets != [] {
      var n := |sets| - 1;
      var init := sets[..n];
      FirstIssueIff(check, init);
      assert forall i | 0 <= i < n :: init[..i] == sets[..i] && init[i] == sets[i];
      if FirstIssue(check, init).None? {
        forall i | 0 <= i < n ensures check(sets[..i], sets[i]).None? { assert check(init[..i], init[i]).None?; }
      }
      if forall i | 0 <= i < |sets| :: check(sets[..i], sets[i]).None? {
        forall i | 0 <= i < n ensures check(init[..i], init[i]).None? { assert check(sets[..i], sets[i]).None?; }
        assert check(sets[..n], sets[n]).None?;
      }
    }
  }

  lemma {:induction false} LinkIff(env: Env, email: Email, earlier: seq<ArcSet>, s: ArcSet)
    requires ValidSet(s)
    ensures LinkIssue(env, email, Links(earlier), s).None? <==> LinkOk(env, email, earlier, s)
  {
  }

  lemma {:induction false} CheckIff(env: Env, email: Email, sets: seq<ArcSet>)
    requires forall s | s in sets :: ValidSet(s)
    ensures FirstIssue(Checker(env, email), sets).None? <==> Linked(env, email, sets)
    ensures FirstIssue(Checker(env, email), sets).None? ==>
              Validated(Checker(env, email), sets) == if sets == [] then 0 else sets[|sets| - 1].instance
  {
    FirstIssueIff(Checker(env, email), sets);
    forall i | 0 <= i < |sets|
      ensures Checker(env, email)(sets[..i], sets[i]).None? <==> LinkOk(env, email, sets[..i], sets[i])
    {
      LinkIff(env, email, sets[..i], sets[i]);
    }
  }

  // ---- the verdict ---------------------------------------------------------------------------

  lemma {:induction false} ConcatEmpty<X>(a: seq<X>, b: seq<X>, c: seq<X>, d: seq<X>)
    ensures a + b + c + d == [] <==> a == [] && b == [] && c == [] && d == []
  {
  }

  lemma {:induction false} ChainIff(env: Env, hs: seq<Header>)
    ensures var cls := ClassesOf(env, hs);
            UnparsedOf(env, hs) == 0 && SetIssues(cls, MAX_INSTANCE) == [] && GapIssues(cls, MAX_INSTANCE) == []
            <==> IsChain(env, hs, Sets(cls, MAX_INSTANCE))
  {
    var cls := ClassesOf(env, hs);
    SetIssuesEmpty(cls, MAX_INSTANCE);
    GapIssuesEmpty(cls, MAX_INSTANCE);
    if UnparsedOf(env, hs) == 0 && SetIssues(cls, MAX_INSTANCE) == [] && GapIssues(cls, MAX_INSTANCE) == [] {
      Contiguous(cls, MAX_INSTANCE);
      UpToChain(env, hs, Sets(cls, MAX_INSTANCE));
    }
    if IsChain(env, hs, Sets(cls, MAX_INSTANCE)) {
      ChainUpTo(env, hs, Sets(cls, MAX_INSTANCE));
      UpToClean(cls, Sets(cls, MAX_INSTANCE), MAX_INSTANCE);
    }
  }

  lemma {:induction false} UpToClean(cls: Classes, sets: seq<ArcSet>, m: nat)
    requires UpTo(cls, sets, m) && forall i | |sets| < i <= m :: cls(i).Absent?
    ensures forall j | 1 <= j <= m :: cls(j).Present? || cls(j).Absent?
    ensures forall j | 2 <= j <= m :: cls(j).Present? ==> cls(j - 1).Present?
  {
    forall j | 1 <= j <= |sets| ensures cls(j).Present? { assert cls(j - 1 + 1) == Present(sets[j - 1]); }
  }

  lemma {:induction false} UpToChain(env: Env, hs: seq<Header>, sets: seq<ArcSet>)
    requires UnparsedOf(env, hs) == 0 && UpTo(ClassesOf(env, hs), sets, MAX_INSTANCE)
    requires forall j | 1 <= j <= MAX_INSTANCE :: ClassesOf(env, hs)(j).Present? || ClassesOf(env, hs)(j).Absent?
    ensures IsChain(env, hs, sets)
  {
    var p, cls := PartsOf(env, hs), ClassesOf(env, hs);
    forall k | 0 <= k < |sets| ensures OneEach(p, k + 1, sets[k]) {
      assert cls(k + 1) == Present(sets[k]);
      ClassIff(p, k + 1, sets[k]);
    }
    forall i | |sets| < i <= MAX_INSTANCE ensures NoneAt(p, i) {
      assert cls(i).Absent?;
    }
  }

  /** No issue is found exactly when the sets form a chain and every link holds. */
  lemma {:induction false} NoIssuesIff(env: Env, email: Email)
    ensures var arc := Verified(env, email);
            arc.issues == [] <==> IsChain(env, email.headers, arc.sets) && Linked(env, email, arc.sets)
  {
    var cls := ClassesOf(env, email.headers);
    var sets := Sets(cls, MAX_INSTANCE);
    SetsValid(env, email.headers, MAX_INSTANCE);
    var issue := FirstIssue(Checker(env, email), sets);
    ConcatEmpty(Repeated(UnparsedOf(env, email.headers)), SetIssues(cls, MAX_INSTANCE), GapIssues(cls, MAX_INSTANCE),
                if issue.Some? then [issue.value] else []);
    RepeatedEmpty(UnparsedOf(env, email.headers));
    ChainIff(env, email.headers);
    CheckIff(env, email, sets);
  }

  /** Without issues the last validated instance is the number of sets, so the status is not fail. */
  lemma {:induction false} NoIssuesValidated(env: Env, email: Email)
    requires Verified(env, email).issues == []
    ensures Verified(env, email).last == |Verified(env, email).sets|
    ensures ChainStatus(Verified(env, email)) == if Verified(env, email).sets == [] then StatusNone else StatusPass
  {
    var arc := Verified(env, email);
    NoIssuesIff(env, email);
    SetsValid(env, email.headers, MAX_INSTANCE);
    CheckIff(env, email, arc.sets);
    if arc.sets != [] {
      var k := |arc.sets| - 1;
      assert OneEach(PartsOf(env, email.headers), k + 1, arc.sets[k]);
    }
  }

  /** A message passes with n sets exactly when it has a chain of n >= 1 sets whose links all hold. */
  lemma {:induction false} PassIff(env: Env, email: Email, sets: seq<ArcSet>)
    ensures ChainStatus(Verified(env, email)) == StatusPass && Verified(env, email).sets == sets
            <==> sets != [] && IsChain(env, email.headers, sets) && Linked(env, email, sets)
  {
    NoIssuesIff(env, email);
    if Verified(env, email).issues == [] { NoIssuesValidated(env, email); }
    if sets != [] && IsChain(env, email.headers, sets) && Linked(env, email, sets) {
      ChainSets(env, email.headers, sets);
      assert Verified(env, email).sets == sets;
      NoIssuesValidated(env, email);
    }
  }

  // ---- no ARC headers ---------------------------------------------------------------------

  predicate ArcNamed(h: Header) {
    SameName(h.name, ARC_SEAL) || SameName(h.name, AMS) || SameName(h.name, AAR)
  }

  lemma {:induction false} NoEntriesIff(name: string, parse: HitParser, hs: seq<Header>)
    ensures Entries(name, parse, hs) == [] && Unparsed(name, parse, hs) == 0
            <==> forall h | h in hs :: !SameName(h.name, name)
  {
    if hs != [] {
      var init, last := hs[..|hs| - 1], hs[|hs| - 1];
      NoEntriesIff(name, parse, init);
      assert forall h :: h in hs <==> h in init || h == last;
    }
  }

  /** A parser that yields no instance beyond the limits. */
  ghost predicate InRange(parse: HitParser) {
    forall v | parse(v).Some? :: 1 <= parse(v).value.instance <= MAX_INSTANCE
  }

  lemma {:induction false} NoGroups(name: string, parse: HitParser, hs: seq<Header>)
    requires InRange(parse) && forall i | 1 <= i <= MAX_INSTANCE :: Group(Entries(name, parse, hs), i) == []
    ensures Entries(name, parse, hs) == []
  {
    var es := Entries(name, parse, hs);
    if es != [] {
      var e := es[0];
      EntriesHit(name, parse, hs, e);
      assert parse(e.header.value).value.instance == e.hit.instance;
      GroupIn(es, e.hit.instance, e);
    }
  }

  lemma {:induction false} ParsersInRange(env: Env)
    ensures InRange(SealHit) && InRange(AmsParser(env)) && InRange(AarParser(env))
  {
  }

  lemma {:induction false} EmptyParts(env: Env, hs: seq<Header>)
    requires forall i | 1 <= i <= MAX_INSTANCE :: NoneAt(PartsOf(env, hs), i)
    ensures Entries(ARC_SEAL, SealHit, hs) == [] && Entries(AMS, AmsParser(env), hs) == []
    ensures Entries(AAR, AarParser(env), hs) == []
  {
    var p := PartsOf(env, hs);
    ParsersInRange(env);
    forall i | 1 <= i <= MAX_INSTANCE
      ensures Group(p.seals, i) == [] && Group(p.sigs, i) == [] && Group(p.aars, i) == []
    {
      assert NoneAt(p, i);
    }
    NoGroups(ARC_SEAL, SealHit, hs);
    NoGroups(AMS, AmsParser(env), hs);
    NoGroups(AAR, AarParser(env), hs);
  }

  /** An empty chain is a message without any ARC header. */
  lemma {:induction false} EmptyChainIff(env: Env, hs: seq<Header>)
    ensures IsChain(env, hs, []) <==> forall h | h in hs :: !ArcNamed(h)
  {
    NoEntriesIff(ARC_SEAL, SealHit, hs);
    NoEntriesIff(AMS, AmsParser(env), hs);
    NoEntriesIff(AAR, AarParser(env), hs);
    if IsChain(env, hs, []) { EmptyParts(env, hs); }
  }

  /** The status is none exactly when no header of the message has one of the three names. */
  lemma {:induction false} NoneIff(env: Env, email: Email)
    ensures ChainStatus(Verified(env, email)) == StatusNone <==> forall h | h in email.headers :: !ArcNamed(h)
  {
    EmptyChainIff(env, email.headers);
    NoIssuesIff(env, email);
    if Verified(env, email).issues == [] { NoIssuesValidated(env, email); }
    if IsChain(env, email.headers, []) {
      ChainSets(env, email.headers, []);
      assert Linked(env, email, []);
      NoIssuesValidated(env, email);
    }
  }
}
