/** `ARC::verify` step by step: maps and lists filled in loops. */
module ArcVerify {
  import opened Common
  import opened DkimSelect
  import opened DkimSign
  import opened ArcHeaders
  import opened ArcChain

  function At(found: map<nat, seq<Entry>>, i: nat): seq<Entry> {
    if i in found then found[i] else []
  }

  /** The map groups the entries by instance. */
  ghost predicate Groups(found: map<nat, seq<Entry>>, es: seq<Entry>) {
    forall i :: At(found, i) == Group(es, i)
  }

  lemma {:induction false} GroupsAdd(found: map<nat, seq<Entry>>, es: seq<Entry>, e: Entry)
    requires Groups(found, es)
    ensures Groups(found[e.hit.instance := At(found, e.hit.instance) + [e]], es + [e])
  {
    assert (es + [e])[..|es|] == es;
    forall i ensures At(found[e.hit.instance := At(found, e.hit.instance) + [e]], i) == Group(es + [e], i) {
      assert At(found, i) == Group(es, i);
    }
  }

  /** One pass over the headers of one name. */
  method Collect(name: string, parse: HitParser, hs: seq<Header>, issues0: seq<Issue>)
    returns (found: map<nat, seq<Entry>>, issues: seq<Issue>)
    ensures Groups(found, Entries(name, parse, hs))
    ensures issues == issues0 + Repeated(Unparsed(name, parse, hs))
  {
    found, issues := map[], issues0;
    for j := 0 to |hs|
      invariant Groups(found, Entries(name, parse, hs[..j]))
      invariant issues == issues0 + Repeated(Unparsed(name, parse, hs[..j]))
    {
      var h := hs[j];
      assert hs[..j + 1][..j] == hs[..j];
      if SameName(h.name, name) {
        match parse(h.value) {
          case Some(hit) =>
            GroupsAdd(found, Entries(name, parse, hs[..j]), Entry(h, hit));
            found := found[hit.instance := At(found, hit.instance) + [Entry(h, hit)]];
          case None =>
            issues := issues + [Unparsable];
            assert issues == issues0 + Repeated(Unparsed(name, parse, hs[..j]) + 1);
        }
      }
    }
    assert hs[..|hs|] == hs;
  }

  lemma {:induction false} ThreeRepeated(a: nat, b: nat, c: nat)
    ensures [] + Repeated(a) + Repeated(b) + Repeated(c) == Repeated(a + b + c)
  {
  }

  /** The sets by instance, with an issue for every instance that is incomplete or duplicated. */
  method AssembleSets(cls: Classes, issues0: seq<Issue>) returns (arcSets: map<nat, ArcSet>, issues: seq<Issue>)
    ensures issues == issues0 + SetIssues(cls, MAX_INSTANCE)
    ensures forall i :: i in arcSets <==> 1 <= i <= MAX_INSTANCE && cls(i).Present?
    ensures forall i | i in arcSets :: cls(i) == Present(arcSets[i])
  {
    arcSets, issues := map[], issues0;
    for instance := 1 to MAX_INSTANCE + 1
      invariant issues == issues0 + SetIssues(cls, instance - 1)
      invariant forall i :: i in arcSets <==> 1 <= i < instance && cls(i).Present?
      invariant forall i | i in arcSets :: cls(i) == Present(arcSets[i])
    {
      match cls(instance) {
        case Present(s) => arcSets := arcSets[instance := s];
        case Absent =>
        case Duplicate => issues := issues + [DuplicateInstance(instance)];
        case Incomplete => issues := issues + [IncompleteInstance(instance)];
      }
    }
  }

  method FindGaps(cls: Classes, arcSets: map<nat, ArcSet>, issues0: seq<Issue>) returns (issues: seq<Issue>)
    requires forall i :: i in arcSets <==> 1 <= i <= MAX_INSTANCE && cls(i).Present?
    ensures issues == issues0 + GapIssues(cls, MAX_INSTANCE)
  {
    issues := issues0;
    for instance := 2 to MAX_INSTANCE + 1
      invariant issues == issues0 + GapIssues(cls, instance - 1)
    {
      if instance in arcSets && (instance - 1) !in arcSets { issues := issues + [MissingInstance(instance - 1)]; }
    }
  }

  /** The sets in the order of their instances. */
  method InOrder(cls: Classes, arcSets: map<nat, ArcSet>) returns (sets: seq<ArcSet>)
    requires forall i :: i in arcSets <==> 1 <= i <= MAX_INSTANCE && cls(i).Present?
    requires forall i | i in arcSets :: cls(i) == Present(arcSets[i])
    ensures sets == Sets(cls, MAX_INSTANCE)
  {
    sets := [];
    for i := 1 to MAX_INSTANCE + 1
      invariant sets == Sets(cls, i - 1)
    {
      if i in arcSets { sets := sets + [arcSets[i]]; }
    }
  }

  /** `validate_signatures`: the covered headers grow along the chain; the first problem ends it. */
  method ValidateSignatures(env: Env, email: Email, sets: seq<ArcSet>) returns (last: nat, issue: Option<Issue>)
    requires forall s | s in sets :: ValidSet(s)
    ensures last == Validated(Checker(env, email), sets) && issue == FirstIssue(Checker(env, email), sets)
  {
    last, issue := 0, None;
    var sealHeaders: seq<Header> := [];
    ghost var check := Checker(env, email);
    for j := 0 to |sets|
      invariant sealHeaders == Links(sets[..j])
      invariant last == Validated(check, sets[..j]) && issue == None == FirstIssue(check, sets[..j])
    {
      var s := sets[j];
      assert sets[..j + 1][..j] == sets[..j];
      var failure := LinkIssue(env, email, sealHeaders, s);
      assert failure == check(sets[..j], s);
      if failure.Some? {
        StopsHere(check, sets, j);
        return last, failure;
      }
      sealHeaders := sealHeaders + [s.aar, s.ams, s.sealHeader];
      last := s.instance;
    }
    assert sets[..|sets|] == sets;
  }

  /** Nothing after the first problem counts. */
  lemma {:induction false} StopsHere(check: LinkCheck, sets: seq<ArcSet>, j: nat)
    requires forall earlier, s | s in sets :: check.requires(earlier, s)
    requires j < |sets| && FirstIssue(check, sets[..j]).None? && check(sets[..j], sets[j]).Some?
    ensures FirstIssue(check, sets) == check(sets[..j], sets[j])
    ensures Validated(check, sets) == Validated(check, sets[..j])
    decreases |sets|
  {
    var n := |sets| - 1;
    if j < n {
      assert sets[..n][..j] == sets[..j];
      StopsHere(check, sets[..n], j);
    }
  }

  method CollectAll(env: Env, hs: seq<Header>)
    returns (seals: map<nat, seq<Entry>>, sigs: map<nat, seq<Entry>>, aars: map<nat, seq<Entry>>, issues: seq<Issue>)
    ensures var p := PartsOf(env, hs); Groups(seals, p.seals) && Groups(sigs, p.sigs) && Groups(aars, p.aars)
    ensures issues == Repeated(UnparsedOf(env, hs))
  {
    seals, issues := Collect(ARC_SEAL, SealHit, hs, []);
    sigs, issues := Collect(AMS, AmsParser(env), hs, issues);
    aars, issues := Collect(AAR, AarParser(env), hs, issues);
    ThreeRepeated(Unparsed(ARC_SEAL, SealHit, hs), Unparsed(AMS, AmsParser(env), hs),
                  Unparsed(AAR, AarParser(env), hs));
  }

  method Verify(env: Env, email: Email) returns (arc: Arc)
    ensures arc == Verified(env, email)
  {
    var seals, sigs, aars, issues := CollectAll(env, email.headers);
    var cls: Classes := (i: nat) => Classify(i, At(seals, i), At(sigs, i), At(aars, i));
    SameClasses(env, email.headers, seals, sigs, aars, cls);
    arc := Assemble(env, email, ClassesOf(env, email.headers), cls, issues);
  }

  lemma {:induction false} SameClasses(env: Env, hs: seq<Header>, seals: map<nat, seq<Entry>>,
                                       sigs: map<nat, seq<Entry>>, aars: map<nat, seq<Entry>>, cls: Classes)
    requires Groups(seals, PartsOf(env, hs).seals) && Groups(sigs, PartsOf(env, hs).sigs)
    requires Groups(aars, PartsOf(env, hs).aars)
    requires forall i: nat :: cls(i) == Classify(i, At(seals, i), At(sigs, i), At(aars, i))
    ensures forall i: nat :: cls(i) == ClassesOf(env, hs)(i)
  {
    forall i: nat ensures cls(i) == ClassesOf(env, hs)(i) {
      assert At(seals, i) == Group(PartsOf(env, hs).seals, i);
      assert At(sigs, i) == Group(PartsOf(env, hs).sigs, i);
      assert At(aars, i) == Group(PartsOf(env, hs).aars, i);
    }
  }

  lemma {:induction false} SameResults(c: Classes, d: Classes, i: nat)
    requires forall j: nat :: c(j) == d(j)
    ensures SetIssues(c, i) == SetIssues(d, i) && Sets(c, i) == Sets(d, i) && GapIssues(c, i) == GapIssues(d, i)
  {
    if i > 0 { SameResults(c, d, i - 1); }
  }

  method Assemble(env: Env, email: Email, ghost spec: Classes, cls: Classes, issues0: seq<Issue>) returns (arc: Arc)
    requires spec == ClassesOf(env, email.headers) && forall i: nat :: cls(i) == spec(i)
    requires issues0 == Repeated(UnparsedOf(env, email.headers))
    ensures arc == Verified(env, email)
  {
    SameResults(cls, spec, MAX_INSTANCE);
    SetsValid(env, email.headers, MAX_INSTANCE);
    var arcSets, issues := AssembleSets(cls, issues0);
    issues := FindGaps(cls, arcSets, issues);
    var sets := InOrder(cls, arcSets);
    var last, issue := ValidateSignatures(env, email, sets);
    if issue.Some? { issues := issues + [issue.value]; }
    arc := Arc(sets, last, issues);
    assert issues == issues0 + SetIssues(spec, MAX_INSTANCE) + GapIssues(spec, MAX_INSTANCE)
                     + (if issue.Some? then [issue.value] else []);
  }
}
