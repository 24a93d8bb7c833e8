/** Signing and verifying step by step, with the loops that do the work. */
module DkimRun {
  import opened Common
  import opened Strings
  import opened DkimParser
  import opened DkimHeader
  import opened DkimCanon
  import opened DkimSelect
  import opened DkimTwoPass
  import opened DkimSign
  import Decimal

  lemma {:induction false} CollectedMore(tags: seq<Tag>, tag: Tag)
    ensures Collected(tags + [tag]) == InsertTag(Collected(tags), tag)
  {
    assert (tags + [tag])[..|tags|] == tags;
  }

  /** The tags go into an ordered map one by one. */
  method CollectTags(tags: seq<Tag>) returns (ordered: seq<Tag>)
    ensures ordered == Collected(tags)
  {
    ordered := [];
    for i := 0 to |tags|
      invariant ordered == Collected(tags[..i])
    {
      CollectedMore(tags[..i], tags[i]);
      assert tags[..i + 1] == tags[..i] + [tags[i]];
      ordered := InsertTag(ordered, tags[i]);
    }
    assert tags[..|tags|] == tags;
  }

  /** `TaggedHeader::parse` */
  method ParseTagged(value: string) returns (r: Option<TaggedHeader>)
    ensures r == ParseHeader(value)
  {
    match TagList(value) {
      case Fail => return None;
      case Done(_, tags) =>
        var ordered := CollectTags(tags);
        return Some(TaggedHeader(ordered, value));
    }
  }

  /** `compute_body_hash` */
  method ComputeBodyHash(crypto: Crypto, algo: HashAlgo, ty: Type, length: Option<nat>, body: string)
    returns (hash: string)
    ensures hash == BodyHash(crypto, algo, ty, length, body)
  {
    var limit := if length.Some? then length.value else USIZE_MAX;
    var hashed := HashedBody(ty, body, limit);
    hash := crypto.base64(crypto.digest(algo, hashed));
  }

  /** A builder that has taken the tags `added` in turn. */
  class Builder {
    var tags: seq<Tag>
    ghost var added: seq<Tag>

    ghost predicate Valid() reads this { tags == Collected(added) }

    constructor ()
      ensures Valid() && added == []
    {
      tags, added := [], [];
    }

    method AddTag(name: string, value: string)
      requires Valid()
      modifies this
      ensures Valid() && added == old(added) + [T(name, value)]
    {
      CollectedMore(added, T(name, value));
      tags := InsertTag(tags, T(name, value));
      added := added + [T(name, value)];
    }

    method AddAll(extra: seq<Tag>)
      requires Valid() && forall t | t in extra :: t == T(t.name, t.value)
      modifies this
      ensures Valid() && added == old(added) + extra && (old(added) == [] ==> added == extra)
    {
      for i := 0 to |extra|
        invariant Valid() && added == old(added) + extra[..i]
      {
        AddTag(extra[i].name, extra[i].value);
      }
    }
  }

  method AddKeyTags(builder: Builder, signer: Signer)
    requires builder.Valid()
    modifies builder
    ensures builder.Valid()
    ensures builder.added ==
            old(builder.added) + [T("a", AlgoName(signer.algo)), T("d", signer.domain), T("s", signer.selector)]
  {
    builder.AddTag("a", AlgoName(signer.algo));
    builder.AddTag("d", signer.domain);
    builder.AddTag("s", signer.selector);
  }

  method AddMessageTags(builder: Builder, signer: Signer, crypto: Crypto, email: Email, list: seq<string>)
    requires builder.Valid()
    modifies builder
    ensures builder.Valid() && builder.added == old(builder.added) + MessageTags(signer, crypto, email, list)
  {
    builder.AddTag("c", CanonName(signer.headerCanon) + "/" + CanonName(signer.bodyCanon));
    var hash := ComputeBodyHash(crypto, signer.algo, signer.bodyCanon, None, email.body);
    builder.AddTag("bh", hash);
    builder.AddTag("h", Join(list, ":"));
  }

  method AddVersion(builder: Builder, name: string)
    requires builder.Valid()
    modifies builder
    ensures builder.Valid()
    ensures builder.added == old(builder.added) + if SameName(name, DKIM_SIGNATURE) then [T("v", "1")] else []
  {
    if SameName(name, DKIM_SIGNATURE) { builder.AddTag("v", "1"); }
  }

  method AddMessage(builder: Builder, signer: Signer, crypto: Crypto, email: Email, list: seq<string>, name: string)
    requires builder.Valid()
    modifies builder
    ensures builder.Valid()
    ensures builder.added ==
            old(builder.added) + if SameName(name, ARC_SEAL) then [] else MessageTags(signer, crypto, email, list)
  {
    if !SameName(name, ARC_SEAL) { AddMessageTags(builder, signer, crypto, email, list); }
  }

  method AddTimes(builder: Builder, signer: Signer)
    requires builder.Valid()
    modifies builder
    ensures builder.Valid()
    ensures builder.added == old(builder.added) + [T("t", signer.time)]
                             + if signer.expiry.None? then [] else [T("x", signer.expiry.value)]
  {
    builder.AddTag("t", signer.time);
    if signer.expiry.Some? { builder.AddTag("x", signer.expiry.value); }
  }

  /** `header_builder` */
  method HeaderBuilder(signer: Signer, crypto: Crypto, email: Email, list: seq<string>, name: string, extra: seq<Tag>)
    returns (tags: seq<Tag>)
    requires forall t | t in extra :: t == T(t.name, t.value)
    ensures tags == Collected(Plan(signer, crypto, email, list, name, extra))
  {
    var builder := new Builder();
    builder.AddAll(extra);
    AddVersion(builder, name);
    AddKeyTags(builder, signer);
    AddMessage(builder, signer, crypto, email, list, name);
    AddTimes(builder, signer);
    tags := builder.tags;
  }

  /** `sign_impl`; `fails` tells the hashes that the signing library refuses, and why. */
  method Sign(signer: Signer, crypto: Crypto, fails: string -> Option<string>, email: Email, name: string,
              extra: seq<Tag>, concrete: Option<seq<Header>>)
    returns (r: Result<Header, string>)
    requires forall t | t in extra :: t == T(t.name, t.value)
    ensures var hs := if concrete.Some? then concrete.value
                      else SelectedHeaders(email.headers, EffectiveList(signer, email));
            match fails(crypto.digest(signer.algo, SignerInput(signer, crypto, email, name, extra, hs)))
            case Some(reason) => r == Err(reason)
            case None => r == Ok(SignImpl(signer, crypto, email, name, extra, concrete))
  {
    var list := signer.list;
    if signer.overSign { list := ComputeOverSigned(email.headers, signer.list); }
    var tags := HeaderBuilder(signer, crypto, email, list, name, extra);
    var hs: seq<Header>;
    match concrete {
      case Some(given) => hs := given;
      case None => var _, chosen := ConcreteHeaderList(email.headers, list); hs := chosen;
    }
    var unsigned := Serialize(InsertTag(tags, BTag("")));
    GetInserted(tags, BTag(""));
    var first := TaggedHeader(InsertTag(tags, BTag("")), unsigned);
    var input := ComputeHeadersInput(SigningCanon(signer, name), hs, first, name);
    var hash := crypto.digest(signer.algo, input);
    var failed := fails(hash);
    if failed.Some? { return Err(failed.value); }
    var text := Serialize(InsertTag(tags, BTag(crypto.base64(crypto.sign(signer.algo, hash)))));
    r := Ok(Header(name, text));
  }

  /** `verify_email_header` */
  method VerifyHeader(crypto: Crypto, name: string, hdr: TaggedHeader, email: Email)
    returns (r: Result<Unit, DkimError>)
    requires HasTags(hdr.tags, VERIFY_TAGS)
    ensures r == VerifyEmailHeader(crypto, name, hdr, email)
  {
    assert VERIFY_TAGS[0] == "d" && VERIFY_TAGS[1] == "s" && VERIFY_TAGS[2] == "a";
    assert VERIFY_TAGS[3] == "h" && VERIFY_TAGS[4] == "b";
    var keys := crypto.keys(Value(hdr.tags, "d"), Value(hdr.tags, "s"));
    if keys.None? { return Err(KeyUnavailable); }
    var tys := ParseCanonicalization(ValueOpt(hdr.tags, "c"));
    if tys.None? { return Err(UnsupportedCanonicalization); }
    var algo := ParseHashAlgo(Value(hdr.tags, "a"));
    if algo.None? { return Err(UnsupportedHashAlgorithm); }
    var failed := CheckBody(crypto, hdr, algo.value, tys.value.1, email);
    if failed.Some? { return Err(failed.value); }
    var sig := crypto.decode(Value(hdr.tags, "b"));
    if sig.None? { return Err(SignatureSyntaxError); }
    var _, hs := ConcreteHeaderList(email.headers, ListOf(Value(hdr.tags, "h")));
    var input := ComputeHeadersInput(tys.value.0, hs, hdr, name);
    r := TryEveryKey(crypto, algo.value, crypto.digest(algo.value, input), sig.value, keys.value);
  }

  method CheckBody(crypto: Crypto, hdr: TaggedHeader, algo: HashAlgo, ty: Type, email: Email)
    returns (failed: Option<DkimError>)
    ensures failed == BodyCheck(crypto, hdr, algo, ty, email)
  {
    var bh := ValueOpt(hdr.tags, "bh");
    if bh.None? { return None; }
    var l := ValueOpt(hdr.tags, "l");
    var length: Option<nat> := None;
    if l.Some? {
      length := Decimal.Parse(l.value, USIZE_MAX);
      if length.None? { return Some(InvalidLength); }
    }
    var computed := ComputeBodyHash(crypto, algo, ty, length, email.body);
    failed := if bh.value == computed then None else Some(BodyHashDidNotVerify);
  }
}
