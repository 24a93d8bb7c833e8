/** Signer and verifier hash the same bytes, exactly when the folding allows it. */
module DkimAgree {
  import opened Common
  import opened DkimText
  import opened Strings
  import opened DkimParser
  import opened DkimHeader
  import opened DkimCanon
  import opened DkimSelect
  import opened DkimTwoPass
  import opened DkimSign

  // ---- looking tags up ------------------------------------------------------------------

  lemma {:induction false} GetTagAt(tags: seq<Tag>, i: nat)
    requires Distinct(tags) && i < |tags|
    ensures GetTag(tags, tags[i].name) == Some(tags[i])
  {
    if i > 0 {
      GetTagAt(tags[1..], i - 1);
    }
  }

  lemma {:induction false} GetTagNone(tags: seq<Tag>, name: string)
    requires forall i | 0 <= i < |tags| :: tags[i].name != name
    ensures GetTag(tags, name) == None
  {
    if tags != [] { GetTagNone(tags[1..], name); }
  }

  /** The two lists have the same names and values in the same order. */
  ghost predicate SameTags(xs: seq<Tag>, ys: seq<Tag>) {
    |xs| == |ys| && forall i | 0 <= i < |xs| :: xs[i].name == ys[i].name && xs[i].value == ys[i].value
  }

  lemma {:induction false} ValueSame(xs: seq<Tag>, ys: seq<Tag>, name: string)
    requires SameTags(xs, ys)
    ensures ValueOpt(xs, name) == ValueOpt(ys, name)
  {
    if xs != [] { ValueSame(xs[1..], ys[1..], name); }
  }

  // ---- both passes ------------------------------------------------------------------------

  /** The header as the verifier parses it. */
  function Received(tags: seq<Tag>, sig: string): TaggedHeader {
    TaggedHeader(ItemTags(Layout(tags + [BTag(sig)], 0)), SecondPass(tags, sig))
  }

  lemma {:induction false} ReceivedParses(tags: seq<Tag>, sig: string)
    requires ValidTags(tags + [BTag(sig)])
    ensures ParseHeader(SecondPass(tags, sig)) == Some(Received(tags, sig))
    ensures SameTags(Received(tags, sig).tags, tags + [BTag(sig)])
    ensures GetTag(Received(tags, sig).tags, "b").Some?
    ensures GetTag(Received(tags, sig).tags, "b").value.raw == BodyRaw(BBody(sig))
  {
    var all := tags + [BTag(sig)];
    var hdr := Received(tags, sig);
    RoundTrip(all);
    SerializedB(tags, sig);
    var n := |tags|;
    assert Distinct(hdr.tags) by {
      forall i, j | 0 <= i < j < |all| ensures hdr.tags[i].name != hdr.tags[j].name {
        assert all[i].name != all[j].name;
      }
    }
    assert hdr.tags[n] == ItemTag(Layout(all, 0)[n]);
    GetTagAt(hdr.tags, n);
    assert all[n].name == "b";
  }

  lemma {:induction false} FirstRaw(tags: seq<Tag>)
    requires Distinct(tags + [BTag("")])
    ensures GetTag(tags + [BTag("")], "b") == Some(BTag(""))
  {
    GetTagAt(tags + [BTag("")], |tags|);
  }

  lemma {:induction false} ChoppedSame(ty: Type, name: string, v: string, w: string)
    ensures Chopped(ty, name, v) == Chopped(ty, name, w) <==> CanonHeader(ty, name, v) == CanonHeader(ty, name, w)
  {
    var a, b := CanonHeader(ty, name, v), CanonHeader(ty, name, w);
    assert a[|a| - 2..] == CRLF && b[|b| - 2..] == CRLF;
    assert a == a[..|a| - 2] + CRLF && b == b[..|b| - 2] + CRLF;
  }

  lemma {:induction false} SuffixSame(p: string, a: string, b: string)
    ensures p + a == p + b <==> a == b
  {
    if p + a == p + b {
      assert (p + a)[|p|..] == a && (p + b)[|p|..] == b;
    }
  }

  lemma {:induction false} SameNames(xs: seq<Tag>, ys: seq<Tag>)
    requires Distinct(xs) && |xs| == |ys| && forall i | 0 <= i < |xs| :: xs[i].name == ys[i].name
    ensures Distinct(ys)
  {
    forall i, j | 0 <= i < j < |ys| ensures ys[i].name != ys[j].name { assert xs[i].name != xs[j].name; }
  }

  /** The header of the second pass, with the signature cut out, canonicalises like that of the first. */
  predicate SameText(ty: Type, name: string, tags: seq<Tag>, sig: string) {
    CanonHeader(ty, name, Replace(SecondPass(tags, sig), BodyRaw(BBody(sig)))) == CanonHeader(ty, name, FirstPass(tags))
  }

  /** Over the same headers, the two sides hash the same bytes exactly when both texts canonicalise alike. */
  lemma {:induction false} InputsSameIff(ty: Type, hs: seq<Header>, name: string, tags: seq<Tag>, sig: string)
    requires ValidTags(tags + [BTag(sig)])
    requires GetTag(Received(tags, sig).tags, "b").Some? && GetTag(tags + [BTag("")], "b").Some?
    ensures HeadersInput(ty, hs, Received(tags, sig), name) == HeadersInput(ty, hs, Built(tags + [BTag("")]), name)
            <==> SameText(ty, name, tags, sig)
  {
    ReceivedParses(tags, sig);
    SameNames(tags + [BTag(sig)], tags + [BTag("")]);
    FirstRaw(tags);
    var cut := Replace(SecondPass(tags, sig), BodyRaw(BBody(sig)));
    assert Replace(FirstPass(tags), "") == FirstPass(tags);
    ChoppedSame(ty, name, cut, FirstPass(tags));
    SuffixSame(CanonHeaders(ty, hs), Chopped(ty, name, cut), Chopped(ty, name, FirstPass(tags)));
  }

  /** How much each side hashes. */
  lemma {:induction false} InputLengths(ty: Type, hs: seq<Header>, name: string, tags: seq<Tag>, sig: string)
    requires ValidTags(tags + [BTag(sig)])
    requires GetTag(Received(tags, sig).tags, "b").Some? && GetTag(tags + [BTag("")], "b").Some?
    ensures |HeadersInput(ty, hs, Received(tags, sig), name)| + 2
         == |CanonHeaders(ty, hs)| + |CanonHeader(ty, name, Replace(SecondPass(tags, sig), BodyRaw(BBody(sig))))|
    ensures |HeadersInput(ty, hs, Built(tags + [BTag("")]), name)| + 2
         == |CanonHeaders(ty, hs)| + |CanonHeader(ty, name, FirstPass(tags))|
  {
    ReceivedParses(tags, sig);
    SameNames(tags + [BTag(sig)], tags + [BTag("")]);
    FirstRaw(tags);
    assert Replace(FirstPass(tags), "") == FirstPass(tags);
  }

  lemma {:induction false} ValidParts(tags: seq<Tag>, sig: string)
    requires ValidTags(tags + [BTag(sig)])
    ensures (forall t | t in tags :: ValidTag(t)) && All(ValChar, sig)
  {
    var all := tags + [BTag(sig)];
    assert forall t | t in tags :: t in all;
    assert all[|tags|] == BTag(sig) && BTag(sig) in all;
    assert ValidTag(BTag(sig));
  }

  /** If the signature's text occurs once, that is so exactly when the signature folds safely. */
  lemma {:induction false} InputsAgreeIff(ty: Type, hs: seq<Header>, name: string, tags: seq<Tag>, sig: string)
    requires ValidTags(tags + [BTag(sig)]) && OnceInHeader(tags, sig)
    requires GetTag(Received(tags, sig).tags, "b").Some? && GetTag(tags + [BTag("")], "b").Some?
    ensures HeadersInput(ty, hs, Received(tags, sig), name) == HeadersInput(ty, hs, Built(tags + [BTag("")]), name)
            <==> FoldSafe(|sig|)
  {
    ValidParts(tags, sig);
    SameTextIff(ty, name, tags, sig);
    InputsSameIff(ty, hs, name, tags, sig);
  }

  // ---- the tags of a signer ------------------------------------------------------------------

  /** The place of a tag name in the order of `header_builder`; zero for all other names. */
  function Rank(name: string): nat {
    if |name| == 2 && name[0] == 'b' && name[1] == 'h' then 6
    else if |name| != 1 then 0
    else if name[0] == 'v' then 1
    else if name[0] == 'a' then 2
    else if name[0] == 'd' then 3
    else if name[0] == 's' then 4
    else if name[0] == 'c' then 5
    else if name[0] == 'h' then 7
    else if name[0] == 't' then 8
    else if name[0] == 'x' then 9
    else if name[0] == 'b' then 10
    else if name[0] == 'l' then 11
    else 0
  }

  /** Tags in the order of their ranks, all of them in a range. */
  ghost predicate Ranked(tags: seq<Tag>, lo: nat, hi: nat) {
    && (forall i | 0 <= i < |tags| :: lo < Rank(tags[i].name) <= hi && ValidTag(tags[i]))
    && forall i, j | 0 <= i < j < |tags| :: Rank(tags[i].name) < Rank(tags[j].name)
  }

  lemma {:induction false} RankedConcat(xs: seq<Tag>, ys: seq<Tag>, lo: nat, mid: nat, hi: nat)
    requires Ranked(xs, lo, mid) && Ranked(ys, mid, hi) && lo <= mid <= hi
    ensures Ranked(xs + ys, lo, hi)
  {
  }

  /** Tags of the caller's own: none of the names that the signer or the verifier uses. */
  ghost predicate ExtraOk(extra: seq<Tag>) {
    Distinct(extra) && forall i | 0 <= i < |extra| :: ValidTag(extra[i]) && Rank(extra[i].name) == 0
  }

  lemma {:induction false} RankedDistinct(extra: seq<Tag>, core: seq<Tag>)
    requires ExtraOk(extra) && Ranked(core, 0, 10)
    ensures ValidTags(extra + core)
  {
    var all := extra + core;
    forall i, j | 0 <= i < j < |all| ensures all[i].name != all[j].name {
      if j >= |extra| { assert Rank(all[i].name) != Rank(all[j].name); }
    }
    forall t | t in all ensures ValidTag(t) {
      var i :| 0 <= i < |all| && all[i] == t;
    }
  }

  ghost predicate ListOk(list: seq<string>) {
    list != [] && Normalised(list) && forall i | 0 <= i < |list| :: All(ValChar, list[i]) && ':' !in list[i]
  }

  ghost predicate SignerOk(signer: Signer, crypto: Crypto) {
    && ListOk(signer.list)
    && All(ValChar, signer.domain) && All(ValChar, signer.selector) && All(ValChar, signer.time)
    && (signer.expiry.Some? ==> All(ValChar, signer.expiry.value))
    && forall s :: All(ValChar, crypto.base64(s))
  }

  function Core(signer: Signer, crypto: Crypto, email: Email, list: seq<string>, name: string): seq<Tag> {
    (if SameName(name, DKIM_SIGNATURE) then [T("v", "1")] else [])
    + [T("a", AlgoName(signer.algo)), T("d", signer.domain), T("s", signer.selector)]
    + (if SameName(name, ARC_SEAL) then [] else MessageTags(signer, crypto, email, list))
    + [T("t", signer.time)]
    + (if signer.expiry.None? then [] else [T("x", signer.expiry.value)])
  }

  lemma {:induction false} JoinValChars(list: seq<string>)
    requires forall i | 0 <= i < |list| :: All(ValChar, list[i])
    ensures All(ValChar, Join(list, ":"))
  {
    if |list| > 1 { JoinValChars(list[1..]); }
  }

  lemma {:induction false} MessageRanked(signer: Signer, crypto: Crypto, email: Email, list: seq<string>)
    requires SignerOk(signer, crypto) && ListOk(list)
    ensures Ranked(MessageTags(signer, crypto, email, list), 4, 7)
  {
    var bh := BodyHash(crypto, signer.algo, signer.bodyCanon, None, email.body);
    JoinValChars(list);
    CanonNameValChars(signer.headerCanon, signer.bodyCanon);
    assert All(ValChar, bh);
    ThreeRanked(CanonName(signer.headerCanon) + "/" + CanonName(signer.bodyCanon), bh, Join(list, ":"));
  }

  lemma {:induction false} CanonNameValChars(h: Type, b: Type)
    ensures All(ValChar, CanonName(h) + "/" + CanonName(b))
  {
  }

  lemma {:induction false} ThreeRanked(c: string, bh: string, h: string)
    requires All(ValChar, c) && All(ValChar, bh) && All(ValChar, h)
    ensures Ranked([T("c", c), T("bh", bh), T("h", h)], 4, 7)
  {
  }

  lemma {:induction false} IdentityRanked(signer: Signer, crypto: Crypto)
    requires SignerOk(signer, crypto)
    ensures Ranked([T("a", AlgoName(signer.algo)), T("d", signer.domain), T("s", signer.selector)], 1, 4)
  {
    AlgoNameValChars(signer.algo);
    IdRanked(AlgoName(signer.algo), signer.domain, signer.selector);
  }

  lemma {:induction false} AlgoNameValChars(algo: HashAlgo)
    ensures All(ValChar, AlgoName(algo))
  {
  }

  lemma {:induction false} IdRanked(a: string, d: string, s: string)
    requires All(ValChar, a) && All(ValChar, d) && All(ValChar, s)
    ensures Ranked([T("a", a), T("d", d), T("s", s)], 1, 4)
  {
  }

  lemma {:induction false} OptionalRanked(v: bool, time: string, expiry: Option<string>)
    requires All(ValChar, time) && (expiry.Some? ==> All(ValChar, expiry.value))
    ensures Ranked(if v then [T("v", "1")] else [], 0, 1) && Ranked([T("t", time)], 7, 8)
    ensures Ranked(if expiry.None? then [] else [T("x", expiry.value)], 8, 9)
  {
  }

  lemma {:induction false} CoreRanked(signer: Signer, crypto: Crypto, email: Email, list: seq<string>, name: string)
    requires SignerOk(signer, crypto) && ListOk(list)
    ensures Ranked(Core(signer, crypto, email, list, name), 0, 9)
  {
    var v := if SameName(name, DKIM_SIGNATURE) then [T("v", "1")] else [];
    var id := [T("a", AlgoName(signer.algo)), T("d", signer.domain), T("s", signer.selector)];
    var msg := if SameName(name, ARC_SEAL) then [] else MessageTags(signer, crypto, email, list);
    var t := [T("t", signer.time)];
    var x := if signer.expiry.None? then [] else [T("x", signer.expiry.value)];
    IdentityRanked(signer, crypto);
    MessageRanked(signer, crypto, email, list);
    OptionalRanked(SameName(name, DKIM_SIGNATURE), signer.time, signer.expiry);
    FiveRanked(v, id, msg, t, x);
  }

  lemma {:induction false} FiveRanked(v: seq<Tag>, id: seq<Tag>, msg: seq<Tag>, t: seq<Tag>, x: seq<Tag>)
    requires Ranked(v, 0, 1) && Ranked(id, 1, 4) && Ranked(msg, 4, 7) && Ranked(t, 7, 8) && Ranked(x, 8, 9)
    ensures Ranked(v + id + msg + t + x, 0, 9)
  {
    RankedConcat(v, id, 0, 1, 4);
    RankedConcat(v + id, msg, 0, 4, 7);
    RankedConcat(v + id + msg, t, 0, 7, 8);
    RankedConcat(v + id + msg + t, x, 0, 8, 9);
  }

  lemma {:induction false} PlanIsCore(signer: Signer, crypto: Crypto, email: Email, list: seq<string>, name: string,
                                      extra: seq<Tag>)
    ensures Plan(signer, crypto, email, list, name, extra) == extra + Core(signer, crypto, email, list, name)
  {
  }

  /** All the names a signer puts into a header are distinct, and all values are VALCHARs. */
  lemma {:induction false} PlanValid(signer: Signer, crypto: Crypto, email: Email, list: seq<string>, name: string,
                                     extra: seq<Tag>, sig: string)
    requires SignerOk(signer, crypto) && ListOk(list) && ExtraOk(extra) && All(ValChar, sig)
    ensures ValidTags(Plan(signer, crypto, email, list, name, extra) + [BTag(sig)])
  {
    var core := Core(signer, crypto, email, list, name);
    PlanIsCore(signer, crypto, email, list, name, extra);
    CoreRanked(signer, crypto, email, list, name);
    assert Ranked([BTag(sig)], 9, 10);
    RankedConcat(core, [BTag(sig)], 0, 9, 10);
    RankedDistinct(extra, core + [BTag(sig)]);
    assert extra + core + [BTag(sig)] == extra + (core + [BTag(sig)]);
  }

  // ---- what the verifier reads -------------------------------------------------------------------

  lemma {:induction false} GetTagIn(tags: seq<Tag>, t: Tag)
    requires Distinct(tags) && t in tags
    ensures GetTag(tags, t.name) == Some(t)
  {
    var i :| 0 <= i < |tags| && tags[i] == t;
    GetTagAt(tags, i);
  }

  /** The values the verifier needs are those the signer used. */
  lemma {:induction false} CoreValues(signer: Signer, crypto: Crypto, email: Email, list: seq<string>, name: string,
                                      extra: seq<Tag>, sig: string)
    requires SignerOk(signer, crypto) && ListOk(list) && ExtraOk(extra) && All(ValChar, sig)
    ensures var tags := Plan(signer, crypto, email, list, name, extra) + [BTag(sig)];
            && GetTag(tags, "a") == Some(T("a", AlgoName(signer.algo)))
            && GetTag(tags, "d") == Some(T("d", signer.domain))
            && GetTag(tags, "s") == Some(T("s", signer.selector))
            && GetTag(tags, "b") == Some(BTag(sig))
  {
    var tags := Plan(signer, crypto, email, list, name, extra) + [BTag(sig)];
    PlanValid(signer, crypto, email, list, name, extra, sig);
    GetTagIn(tags, T("a", AlgoName(signer.algo)));
    GetTagIn(tags, T("d", signer.domain));
    GetTagIn(tags, T("s", signer.selector));
    GetTagIn(tags, BTag(sig));
  }

  lemma {:induction false} MessageValues(signer: Signer, crypto: Crypto, email: Email, list: seq<string>, name: string,
                                         extra: seq<Tag>, sig: string)
    requires SignerOk(signer, crypto) && ListOk(list) && ExtraOk(extra) && All(ValChar, sig)
    requires !SameName(name, ARC_SEAL)
    ensures var tags, msg := Plan(signer, crypto, email, list, name, extra) + [BTag(sig)],
                             MessageTags(signer, crypto, email, list);
            GetTag(tags, "c") == Some(msg[0]) && GetTag(tags, "bh") == Some(msg[1]) && GetTag(tags, "h") == Some(msg[2])
  {
    var tags := Plan(signer, crypto, email, list, name, extra) + [BTag(sig)];
    var msg := MessageTags(signer, crypto, email, list);
    PlanValid(signer, crypto, email, list, name, extra, sig);
    PlanHasMessage(signer, crypto, email, list, name, extra);
    GetTagIn(tags, msg[0]);
    GetTagIn(tags, msg[1]);
    GetTagIn(tags, msg[2]);
  }

  lemma {:induction false} PlanHasMessage(signer: Signer, crypto: Crypto, email: Email, list: seq<string>, name: string,
                                          extra: seq<Tag>)
    requires !SameName(name, ARC_SEAL)
    ensures forall t | t in MessageTags(signer, crypto, email, list) ::
              t in Plan(signer, crypto, email, list, name, extra)
  {
  }

  /** A signer never writes a body length. */
  lemma {:induction false} NoLength(signer: Signer, crypto: Crypto, email: Email, list: seq<string>, name: string,
                                    extra: seq<Tag>, sig: string)
    requires SignerOk(signer, crypto) && ListOk(list) && ExtraOk(extra) && All(ValChar, sig)
    ensures GetTag(Plan(signer, crypto, email, list, name, extra) + [BTag(sig)], "l") == None
  {
    var core := Core(signer, crypto, email, list, name);
    var tags := Plan(signer, crypto, email, list, name, extra) + [BTag(sig)];
    PlanIsCore(signer, crypto, email, list, name, extra);
    CoreRanked(signer, crypto, email, list, name);
    forall i | 0 <= i < |tags| ensures tags[i].name != "l" {
      if i >= |extra| && i < |extra| + |core| { assert tags[i] == core[i - |extra|]; }
      assert Rank(tags[i].name) <= 10;
    }
    GetTagNone(tags, "l");
  }

  lemma {:induction false} TrimSolid(name: string)
    requires All(ValChar, name)
    ensures TrimBoth(name) == name
  {
    if name != "" { assert !Space(name[0]) && !Space(name[|name| - 1]); }
  }

  lemma {:induction false} NormalNamesOf(list: seq<string>)
    requires Normalised(list) && forall i | 0 <= i < |list| :: All(ValChar, list[i])
    ensures NormalNames(list) == list
  {
    if list != [] {
      TrimSolid(list[0]);
      NormalNamesOf(list[1..]);
    }
  }

  /** The verifier's header list is the signer's. */
  lemma {:induction false} ListRead(list: seq<string>)
    requires ListOk(list)
    ensures ListOf(Join(list, ":")) == list
  {
    SplitJoin(list, ':');
    NormalNamesOf(list);
  }

  lemma {:induction false} EffectiveOk(signer: Signer, crypto: Crypto, email: Email)
    requires SignerOk(signer, crypto)
    ensures ListOk(EffectiveList(signer, email))
    ensures forall name | name in EffectiveList(signer, email) :: name in signer.list
  {
    if signer.overSign {
      var list := OverSigned(email.headers, signer.list);
      forall j | 0 <= j < |list|
        ensures list[j] in signer.list && Lower(list[j]) == list[j] && All(ValChar, list[j]) && ':' !in list[j]
      {
        OverSignedNames(email.headers, signer.list, j);
      }
      SortDedupOf(signer.list);
      OneMoreCount(email.headers, SortDedup(signer.list), signer.list[0]);
    }
  }
}
