/** Over-signing: a header inserted under a listed name is noticed, wherever it is put. */
module DkimInserted {
  import opened Common
  import opened Strings
  import opened DkimParser
  import opened DkimHeader
  import opened DkimCanon
  import opened DkimSelect
  import opened DkimTwoPass
  import opened DkimSign
  import opened DkimAgree
  import opened DkimVerified

  // ---- the length of what is hashed -----------------------------------------------------------

  /** The length of a header's canonical text. */
  function Weight(ty: Type): Header -> nat {
    (h: Header) => |CanonHeader(ty, h.name, h.value)|
  }

  function Total(w: Header -> nat, hs: seq<Header>): nat {
    if hs == [] then 0 else Total(w, hs[..|hs| - 1]) + w(hs[|hs| - 1])
  }

  /** The weight of all headers with a listed name. */
  function TotalListed(w: Header -> nat, hs: seq<Header>, list: seq<string>): nat {
    if hs == [] then 0
    else
      var h := hs[|hs| - 1];
      TotalListed(w, hs[..|hs| - 1], list) + if Lower(h.name) in list then w(h) else 0
  }

  lemma {:induction false} CanonLength(ty: Type, hs: seq<Header>)
    ensures |CanonHeaders(ty, hs)| == Total(Weight(ty), hs)
  {
    if hs != [] { CanonLength(ty, hs[..|hs| - 1]); }
  }

  lemma {:induction false} TotalWithout(w: Header -> nat, hs: seq<Header>, k: nat)
    requires k < |hs|
    ensures Total(w, hs) == Total(w, hs[..k] + hs[k + 1..]) + w(hs[k])
  {
    var n := |hs| - 1;
    WithoutSplits(hs, k);
    if k < n { TotalWithout(w, hs[..n], k); }
  }

  lemma {:induction false} WithoutSplits(hs: seq<Header>, k: nat)
    requires k < |hs|
    ensures var n, rest := |hs| - 1, hs[..k] + hs[k + 1..];
            if k == n then rest == hs[..n]
            else |rest| == n && rest[n - 1] == hs[n] && rest[..n - 1] == hs[..n][..k] + hs[..n][k + 1..]
  {
  }

  /** The positions name every listed header, and nothing else. */
  ghost predicate NamesListed(hs: seq<Header>, at: seq<nat>, list: seq<string>) {
    forall i: nat :: i in at <==> i < |hs| && Lower(hs[i].name) in list
  }

  lemma {:induction false} WithoutLast(hs: seq<Header>, at: seq<nat>, k: nat, list: seq<string>)
    requires NoDuplicates(at) && NamesListed(hs, at, list) && k < |at| && hs != [] && at[k] == |hs| - 1
    ensures NoDuplicates(at[..k] + at[k + 1..]) && NamesListed(hs[..|hs| - 1], at[..k] + at[k + 1..], list)
  {
    var n, rest := |hs| - 1, at[..k] + at[k + 1..];
    forall i: nat ensures i in rest <==> i < n && Lower(hs[i].name) in list {
      if i in rest {
        var j :| 0 <= j < |rest| && rest[j] == i;
        assert i == at[if j < k then j else j + 1];
      }
      if i in at && i != n {
        var j :| 0 <= j < |at| && at[j] == i;
        assert i == rest[if j < k then j else j - 1];
      }
    }
  }

  /** Distinct positions that name all listed headers weigh what the listed headers weigh. */
  lemma {:induction false} EachOnce(w: Header -> nat, hs: seq<Header>, at: seq<nat>, picked: seq<Header>,
                                    list: seq<string>)
    requires NoDuplicates(at) && NamesListed(hs, at, list) && AreAt(hs, at, picked)
    ensures Total(w, picked) == TotalListed(w, hs, list)
    decreases |hs|
  {
    if hs == [] {
      assert picked == [];
    } else {
      var n := |hs| - 1;
      if Lower(hs[n].name) in list {
        assert n in at;
        var k :| 0 <= k < |at| && at[k] == n;
        var rest, others := at[..k] + at[k + 1..], picked[..k] + picked[k + 1..];
        WithoutLast(hs, at, k, list);
        InFront(hs, rest, others, list);
        TotalWithout(w, picked, k);
        EachOnce(w, hs[..n], rest, others, list);
      } else {
        InFront(hs, at, picked, list);
        EachOnce(w, hs[..n], at, picked, list);
      }
    }
  }

  lemma {:induction false} InFront(hs: seq<Header>, at: seq<nat>, picked: seq<Header>, list: seq<string>)
    requires hs != [] && AreAt(hs, at, picked) && |hs| - 1 !in at
    ensures AreAt(hs[..|hs| - 1], at, picked)
    ensures NamesListed(hs, at, list) ==> NamesListed(hs[..|hs| - 1], at, list)
  {
    forall k | 0 <= k < |at| ensures at[k] < |hs| - 1 { assert at[k] in at; }
  }

  // ---- one header more ---------------------------------------------------------------------------

  lemma {:induction false} TotalConcat(w: Header -> nat, a: seq<Header>, b: seq<Header>, list: seq<string>)
    ensures TotalListed(w, a + b, list) == TotalListed(w, a, list) + TotalListed(w, b, list)
  {
    if b == [] {
      assert a + b == a;
    } else {
      assert (a + b)[..|a + b| - 1] == a + b[..|b| - 1];
      TotalConcat(w, a, b[..|b| - 1], list);
    }
  }

  /** The message with one header more. */
  function Inserted(hs: seq<Header>, p: nat, x: Header): seq<Header>
    requires p <= |hs|
  {
    hs[..p] + [x] + hs[p..]
  }

  lemma {:induction false} InsertedCount(hs: seq<Header>, p: nat, x: Header, name: string)
    requires p <= |hs|
    ensures CountFrom(Inserted(hs, p, x), name, 0) <= CountFrom(hs, name, 0) + 1
  {
    assert hs == hs[..p] + hs[p..];
    CountConcat(hs[..p], hs[p..], name, 0);
    CountConcat(hs[..p] + [x], hs[p..], name, 0);
    CountConcat(hs[..p], [x], name, 0);
    assert CountFrom([x], name, 1) == 0;
  }

  lemma {:induction false} InsertedTotal(w: Header -> nat, hs: seq<Header>, p: nat, x: Header, list: seq<string>)
    requires p <= |hs| && Lower(x.name) in list
    ensures TotalListed(w, Inserted(hs, p, x), list) == TotalListed(w, hs, list) + w(x)
  {
    assert hs == hs[..p] + hs[p..];
    TotalConcat(w, hs[..p], hs[p..], list);
    TotalConcat(w, hs[..p] + [x], hs[p..], list);
    TotalConcat(w, hs[..p], [x], list);
    assert [x][..0] == [];
  }

  /** The canonical text of what an over-signed list selects is as long as all listed headers together. */
  lemma {:induction false} OverSignedLength(ty: Type, hs: seq<Header>, list: seq<string>, later: seq<Header>)
    requires Normalised(list)
    requires forall name | name in list :: CountFrom(later, name, 0) <= CountFrom(hs, name, 0) + 1
    ensures |CanonHeaders(ty, SelectedHeaders(later, OverSigned(hs, list)))| == TotalListed(Weight(ty), later, list)
  {
    var signed := OverSigned(hs, list);
    var at, picked := Selected(later, signed), SelectedHeaders(later, signed);
    SelectedAre(later, signed);
    assert Normalised(signed) by {
      forall j | 0 <= j < |signed| ensures Lower(signed[j]) == signed[j] { OverSignedNames(hs, list, j); }
    }
    SelectedOnce(later, signed);
    assert NamesListed(later, at, list) by {
      forall i: nat ensures i in at <==> i < |later| && Lower(later[i].name) in list {
        if i < |later| { OverSignedSelects(hs, list, later, i); }
      }
    }
    EachOnce(Weight(ty), later, at, picked, list);
    CanonLength(ty, picked);
  }

  /** One more header under a listed name makes the selected text longer. */
  lemma {:induction false} SelectedGrows(ty: Type, pre: seq<Header>, hs: seq<Header>, list: seq<string>, p: nat,
                                         x: Header)
    requires Normalised(list) && NoneListed(pre, list) && p <= |pre + hs| && Lower(x.name) in list
    ensures var signed := OverSigned(hs, list);
            |CanonHeaders(ty, SelectedHeaders(Inserted(pre + hs, p, x), signed))|
            > |CanonHeaders(ty, SelectedHeaders(pre + hs, signed))|
  {
    var now := pre + hs;
    forall name | name in list
      ensures CountFrom(now, name, 0) <= CountFrom(hs, name, 0) + 1
      ensures CountFrom(Inserted(now, p, x), name, 0) <= CountFrom(hs, name, 0) + 1
    {
      CountConcat(pre, hs, name, 0);
      CountUnlisted(pre, name, 0);
      InsertedCount(now, p, x, name);
    }
    OverSignedLength(ty, hs, list, now);
    OverSignedLength(ty, hs, list, Inserted(now, p, x));
    InsertedTotal(Weight(ty), now, p, x, list);
  }

  // ---- headers in front --------------------------------------------------------------------------

  lemma {:induction false} ChoiceStays(pre: seq<Header>, hs: seq<Header>, list: seq<string>)
    requires list != [] && Choice(hs, list).Some?
    ensures var i := Choice(hs, list).value;
            Choice(pre + hs, list) == Some(|pre| + i) && (pre + hs)[|pre| + i] == hs[i]
  {
    var name, k := list[|list| - 1], Occurrences(list[..|list| - 1], list[|list| - 1]);
    KthIff(hs, name, |hs|, k);
    CountStrict(hs, name, 0, Choice(hs, list).value);
    KthFound(pre, hs, name, k);
  }

  /** Headers in front never make the selection lighter. */
  lemma {:induction false} PrependKeeps(w: Header -> nat, pre: seq<Header>, hs: seq<Header>, list: seq<string>)
    ensures Total(w, SelectedHeaders(hs, list)) <= Total(w, SelectedHeaders(pre + hs, list))
  {
    if list != [] {
      PrependKeeps(w, pre, hs, list[..|list| - 1]);
      if Choice(hs, list).Some? { ChoiceStays(pre, hs, list); }
    }
  }

  /** If a position of the list gains a choice, the selection gets heavier. */
  lemma {:induction false} PrependGains(w: Header -> nat, pre: seq<Header>, hs: seq<Header>, list: seq<string>, j: nat)
    requires (forall h :: w(h) > 0) && j < |list| && Chosen(hs, list, j).None? && Chosen(pre + hs, list, j).Some?
    ensures Total(w, SelectedHeaders(hs, list)) < Total(w, SelectedHeaders(pre + hs, list))
  {
    var n := |list| - 1;
    var init := list[..n];
    if j == n {
      PrependKeeps(w, pre, hs, init);
    } else {
      assert init[..j] == list[..j];
      PrependGains(w, pre, hs, init, j);
      if Choice(hs, list).Some? { ChoiceStays(pre, hs, list); }
    }
  }

  /** A list that reaches headers put in front selects more text. */
  lemma {:induction false} UnsettledGrows(ty: Type, pre: seq<Header>, hs: seq<Header>, list: seq<string>)
    requires !Settled(pre, hs, list)
    ensures |CanonHeaders(ty, SelectedHeaders(hs, list))| < |CanonHeaders(ty, SelectedHeaders(pre + hs, list))|
  {
    var name :| name in list && !SettledFor(pre, hs, list, name);
    var c := CountFrom(hs, name, 0);
    var j := OccurrenceAt(list, name, c);
    CountSome(pre, name);
    CountConcat(pre, hs, name, 0);
    KthNone(hs, name, c);
    KthIff(pre + hs, name, |pre + hs|, c);
    PrependGains(Weight(ty), pre, hs, list, j);
    CanonLength(ty, SelectedHeaders(hs, list));
    CanonLength(ty, SelectedHeaders(pre + hs, list));
  }

  lemma {:induction false} CountSome(pre: seq<Header>, name: string)
    requires !NoneNamed(pre, name)
    ensures CountFrom(pre, name, 0) > 0
  {
    var h :| h in pre && SameName(h.name, name);
    var i :| 0 <= i < |pre| && pre[i] == h;
    CountStrict(pre, name, 0, i);
  }

  // ---- the verdict ---------------------------------------------------------------------------------

  lemma {:induction false} LongerDiffers(a: string, b: string, t: string)
    requires |a| > |b|
    ensures a + t != b + t
  {
    assert |a + t| == |a| + |t| && |b + t| == |b| + |t|;
  }

  /** Over-signed names select what the signer's own list names. */
  lemma {:induction false} NoneOfTheirs(signer: Signer, email: Email, crypto: Crypto, pre: seq<Header>)
    requires SignerOk(signer, crypto) && signer.overSign && NoneListed(pre, EffectiveList(signer, email))
    ensures NoneListed(pre, signer.list)
  {
    forall name | name in signer.list ensures NoneNamed(pre, name) {
      SortDedupOf(signer.list);
      OneMoreCount(email.headers, SortDedup(signer.list), name);
      var j := OccurrenceAt(EffectiveList(signer, email), name, 0);
      assert name in EffectiveList(signer, email);
    }
  }

  /**
   * With over-signing, a signature that verifies on the message no longer does once a header with a
   * listed name is inserted, at any place.
   */
  lemma {:induction false} InsertedFails(signer: Signer, crypto: Crypto, email: Email, name: string, extra: seq<Tag>,
                                         pre: seq<Header>, p: nat, x: Header)
    requires SignerOk(signer, crypto) && ExtraOk(extra) && !SameName(name, ARC_SEAL) && signer.overSign
    requires Accepting(crypto, signer) && NotFooled(crypto, signer, SignedInput(signer, crypto, email, name, extra))
    requires NoneListed(pre, EffectiveList(signer, email)) && p <= |pre + email.headers| && Lower(x.name) in signer.list
    ensures var hdr := SignedHeader(signer, crypto, email, name, extra);
            var now, more := Email(pre + email.headers, email.body),
                             Email(Inserted(pre + email.headers, p, x), email.body);
            && ParseHeader(SignImpl(signer, crypto, email, name, extra, None).value) == Some(hdr)
            && HasTags(hdr.tags, VERIFY_TAGS)
            && (VerifyEmailHeader(crypto, name, hdr, now).Ok? ==> VerifyEmailHeader(crypto, name, hdr, more).Err?)
  {
    var hdr := SignedHeader(signer, crypto, email, name, extra);
    var input := SignedInput(signer, crypto, email, name, extra);
    NoneListedSettled(pre, email.headers, EffectiveList(signer, email));
    HashedBytesSameIff(signer, crypto, email, name, extra, pre);
    ReceivedReadsBack(signer, crypto, email, name, extra);
    VerdictOnBytes(signer, crypto, name, hdr, Email(pre + email.headers, email.body), input);
    VerdictOnBytes(signer, crypto, name, hdr, Email(Inserted(pre + email.headers, p, x), email.body), input);
    MoreDiffers(signer, crypto, email, name, extra, pre, p, x);
  }

  lemma {:induction false} MoreDiffers(signer: Signer, crypto: Crypto, email: Email, name: string, extra: seq<Tag>,
                                       pre: seq<Header>, p: nat, x: Header)
    requires SignerOk(signer, crypto) && ExtraOk(extra) && !SameName(name, ARC_SEAL) && signer.overSign
    requires NoneListed(pre, EffectiveList(signer, email)) && p <= |pre + email.headers| && Lower(x.name) in signer.list
    ensures var hdr := SignedHeader(signer, crypto, email, name, extra);
            && GetTag(hdr.tags, "h").Some? && GetTag(hdr.tags, "b").Some?
            && VerifierInput(hdr, signer.headerCanon, Email(pre + email.headers, email.body), name)
               != VerifierInput(hdr, signer.headerCanon, Email(Inserted(pre + email.headers, p, x), email.body), name)
  {
    var hdr := SignedHeader(signer, crypto, email, name, extra);
    NoneListedSettled(pre, email.headers, EffectiveList(signer, email));
    HashedBytesSameIff(signer, crypto, email, name, extra, pre);
    HeaderList(signer, crypto, email, name, extra);
    NoneOfTheirs(signer, email, crypto, pre);
    SelectedGrows(signer.headerCanon, pre, email.headers, signer.list, p, x);
    var list := EffectiveList(signer, email);
    LongerDiffers(CanonHeaders(signer.headerCanon, SelectedHeaders(Inserted(pre + email.headers, p, x), list)),
                  CanonHeaders(signer.headerCanon, SelectedHeaders(pre + email.headers, list)),
                  Chopped(signer.headerCanon, name, Replace(hdr.raw, GetTag(hdr.tags, "b").value.raw)));
  }
}
