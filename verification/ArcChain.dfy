/** `ARC::verify`: collecting the sets, checking that they form a chain, and checking every link. */
module ArcChain {
  import opened Common
  import opened DkimHeader
  import opened DkimSelect
  import opened DkimSign
  import opened ArcHeaders

  /** What a header parses to. */
  datatype Hit = Hit(instance: nat, tagged: TaggedHeader)

  type HitParser = string -> Option<Hit>

  /** A parsed ARC header of a message. */
  datatype Entry = Entry(header: Header, hit: Hit)

  function SealHit(value: string): Option<Hit> {
    match ParseSeal(value)
    case None => None
    case Some(h) => Some(Hit(Instance(h.tags).value, h))
  }

  function AmsHit(env: Env, value: string): Option<Hit> {
    match ParseAms(env, value)
    case None => None
    case Some(h) => Some(Hit(Instance(h.tags).value, h))
  }

  const NO_TAGS := TaggedHeader([], "")

  function AarHit(env: Env, value: string): Option<Hit> {
    match env.aarInstance(value)
    case None => None
    case Some(n) => if n == 0 || n > MAX_INSTANCE then None else Some(Hit(n, NO_TAGS))
  }

  function AmsParser(env: Env): HitParser { v => AmsHit(env, v) }

  function AarParser(env: Env): HitParser { v => AarHit(env, v) }

  /** The parsed headers of one name, top to bottom. */
  function Entries(name: string, parse: HitParser, hs: seq<Header>): seq<Entry> {
    if hs == [] then []
    else
      var rest := Entries(name, parse, hs[..|hs| - 1]);
      var h := hs[|hs| - 1];
      if SameName(h.name, name) && parse(h.value).Some? then rest + [Entry(h, parse(h.value).value)] else rest
  }

  /** How many headers of the name do not parse. */
  function Unparsed(name: string, parse: HitParser, hs: seq<Header>): nat {
    if hs == [] then 0
    else
      var h := hs[|hs| - 1];
      Unparsed(name, parse, hs[..|hs| - 1]) + if SameName(h.name, name) && parse(h.value).None? then 1 else 0
  }

  function Group(es: seq<Entry>, i: nat): seq<Entry> {
    if es == [] then []
    else if es[|es| - 1].hit.instance == i then Group(es[..|es| - 1], i) + [es[|es| - 1]]
    else Group(es[..|es| - 1], i)
  }

  datatype ArcSet = ArcSet(
    instance: nat, aar: Header, ams: Header, sig: TaggedHeader, sealHeader: Header, seal: TaggedHeader)

  /** The three kinds of parsed headers of a message. */
  datatype Parts = Parts(seals: seq<Entry>, sigs: seq<Entry>, aars: seq<Entry>)

  function PartsOf(env: Env, hs: seq<Header>): Parts {
    Parts(Entries(ARC_SEAL, SealHit, hs),
          Entries(AMS, AmsParser(env), hs),
          Entries(AAR, AarParser(env), hs))
  }

  function UnparsedOf(env: Env, hs: seq<Header>): nat {
    Unparsed(ARC_SEAL, SealHit, hs)
    + Unparsed(AMS, AmsParser(env), hs)
    + Unparsed(AAR, AarParser(env), hs)
  }

  datatype Class = Absent | Incomplete | Duplicate | Present(set_: ArcSet)

  function Classify(i: nat, seals: seq<Entry>, sigs: seq<Entry>, aars: seq<Entry>): Class {
    if seals == [] && sigs == [] && aars == [] then Absent
    else if seals == [] || sigs == [] || aars == [] then Incomplete
    else if |seals| > 1 || |sigs| > 1 || |aars| > 1 then Duplicate
    else Present(ArcSet(i, aars[0].header, sigs[0].header, sigs[0].hit.tagged, seals[0].header, seals[0].hit.tagged))
  }

  function ClassOf(p: Parts, i: nat): Class {
    Classify(i, Group(p.seals, i), Group(p.sigs, i), Group(p.aars, i))
  }

  datatype Issue =
    | Unparsable | DuplicateInstance(i: nat) | IncompleteInstance(i: nat) | MissingInstance(i: nat)
    | AmsFailed(i: nat) | SealFailed(i: nat) | BadCv(i: nat)

  function Repeated(n: nat): seq<Issue> {
    seq(n, _ => Unparsable)
  }

  type Classes = nat -> Class

  /** Issues of the sets up to instance `i`. */
  function SetIssues(cls: Classes, i: nat): seq<Issue> {
    if i == 0 then []
    else
      match cls(i)
      case Incomplete => SetIssues(cls, i - 1) + [IncompleteInstance(i)]
      case Duplicate => SetIssues(cls, i - 1) + [DuplicateInstance(i)]
      case _ => SetIssues(cls, i - 1)
  }

  function Sets(cls: Classes, i: nat): seq<ArcSet> {
    if i == 0 then []
    else
      match cls(i)
      case Present(s) => Sets(cls, i - 1) + [s]
      case _ => Sets(cls, i - 1)
  }

  /** A set without the one before it. */
  function GapIssues(cls: Classes, i: nat): seq<Issue> {
    if i < 2 then []
    else if cls(i).Present? && !cls(i - 1).Present? then GapIssues(cls, i - 1) + [MissingInstance(i - 1)]
    else GapIssues(cls, i - 1)
  }

  /** The headers a seal covers: those of all earlier sets, in order. */
  function Links(sets: seq<ArcSet>): seq<Header> {
    if sets == [] then []
    else
      var s := sets[|sets| - 1];
      Links(sets[..|sets| - 1]) + [s.aar, s.ams, s.sealHeader]
  }

  predicate ValidSet(s: ArcSet) {
    HasTags(s.sig.tags, AMS_TAGS) && HasTags(s.seal.tags, SEAL_TAGS) && 1 <= s.instance <= MAX_INSTANCE
  }

  /** What is wrong with a set whose earlier sets have the headers `covered`, if anything. */
  function LinkIssue(env: Env, email: Email, covered: seq<Header>, s: ArcSet): Option<Issue>
    requires ValidSet(s)
  {
    if !AmsVerifies(env, s.sig, email) then Some(AmsFailed(s.instance))
    else if !SealVerifies(env, s.seal, covered + [s.aar, s.ams]) then Some(SealFailed(s.instance))
    else if !CvOk(s.seal, s.instance) then Some(BadCv(s.instance))
    else None
  }

  type LinkCheck = (seq<ArcSet>, ArcSet) --> Option<Issue>

  /** The last instance validated by checking set after set, stopping at the first problem. */
  function Validated(check: LinkCheck, sets: seq<ArcSet>): nat
    requires forall earlier, s | s in sets :: check.requires(earlier, s)
  {
    if sets == [] then 0
    else
      var init, s := sets[..|sets| - 1], sets[|sets| - 1];
      if FirstIssue(check, init).None? && check(init, s).None? then s.instance else Validated(check, init)
  }

  function FirstIssue(check: LinkCheck, sets: seq<ArcSet>): Option<Issue>
    requires forall earlier, s | s in sets :: check.requires(earlier, s)
  {
    if sets == [] then None
    else
      var init, s := sets[..|sets| - 1], sets[|sets| - 1];
      if FirstIssue(check, init).Some? then FirstIssue(check, init) else check(init, s)
  }

  function Checker(env: Env, email: Email): (check: LinkCheck)
    ensures forall earlier, s | ValidSet(s) :: check.requires(earlier, s)
  {
    (earlier: seq<ArcSet>, s: ArcSet) requires ValidSet(s) => LinkIssue(env, email, Links(earlier), s)
  }

  datatype Arc = Arc(sets: seq<ArcSet>, last: nat, issues: seq<Issue>)

  lemma {:induction false} EntriesHit(name: string, parse: HitParser, hs: seq<Header>, e: Entry)
    requires e in Entries(name, parse, hs)
    ensures parse(e.header.value) == Some(e.hit) && SameName(e.header.name, name) && e.header in hs
  {
    var n := |hs| - 1;
    if e in Entries(name, parse, hs[..n]) { EntriesHit(name, parse, hs[..n], e); }
  }

  lemma {:induction false} GroupIn(es: seq<Entry>, i: nat, e: Entry)
    ensures e in Group(es, i) <==> e in es && e.hit.instance == i
  {
    if es != [] { GroupIn(es[..|es| - 1], i, e); }
  }

  lemma {:induction false} ClassValid(env: Env, hs: seq<Header>, i: nat)
    requires 1 <= i <= MAX_INSTANCE
    ensures ClassOf(PartsOf(env, hs), i).Present? ==> ValidSet(ClassOf(PartsOf(env, hs), i).set_)
  {
    var p := PartsOf(env, hs);
    var seals, sigs := Group(p.seals, i), Group(p.sigs, i);
    if ClassOf(p, i).Present? {
      GroupIn(p.seals, i, seals[0]);
      GroupIn(p.sigs, i, sigs[0]);
      EntriesHit(ARC_SEAL, SealHit, hs, seals[0]);
      EntriesHit(AMS, AmsParser(env), hs, sigs[0]);
    }
  }

  function ClassesOf(env: Env, hs: seq<Header>): Classes {
    var p := PartsOf(env, hs);
    (i: nat) => ClassOf(p, i)
  }

  lemma {:induction false} SetsValid(env: Env, hs: seq<Header>, i: nat)
    requires i <= MAX_INSTANCE
    ensures forall s | s in Sets(ClassesOf(env, hs), i) :: ValidSet(s)
  {
    if i > 0 {
      SetsValid(env, hs, i - 1);
      ClassValid(env, hs, i);
    }
  }

  /** `ARC::verify` */
  function Verified(env: Env, email: Email): Arc {
    var cls := ClassesOf(env, email.headers);
    var sets := Sets(cls, MAX_INSTANCE);
    SetsValid(env, email.headers, MAX_INSTANCE);
    var issue := FirstIssue(Checker(env, email), sets);
    Arc(sets, Validated(Checker(env, email), sets),
        Repeated(UnparsedOf(env, email.headers)) + SetIssues(cls, MAX_INSTANCE) + GapIssues(cls, MAX_INSTANCE)
        + (if issue.Some? then [issue.value] else []))
  }

  /** `chain_validation_status` */
  function ChainStatus(arc: Arc): Status {
    if arc.issues == [] then
      if arc.sets == [] then StatusNone
      else if arc.last == |arc.sets| then StatusPass
      else StatusFail
    else StatusFail
  }
}
