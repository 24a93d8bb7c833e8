/** The header forms of ARC (section 4.1 of RFC 8617): what must be present for a header to parse. */
module ArcHeaders {
  import opened Common
  import opened Strings
  import opened DkimParser
  import opened DkimHeader
  import opened DkimCanon
  import opened DkimSelect
  import opened DkimSign
  import Decimal

  const MAX_INSTANCE: nat := 50

  const AMS := "ARC-Message-Signature"
  const AAR := "ARC-Authentication-Results"

  /** Foreign code and the clock: cryptography, expiry of `x=`, and parsing of authentication results. */
  datatype Env = Env(crypto: Crypto, expired: string -> bool, aarInstance: string -> Option<nat>)

  /** `arc_instance`: a number that fits in a byte, from 1 to 50. */
  function Instance(tags: seq<Tag>): Option<nat> {
    match ValueOpt(tags, "i")
    case None => None
    case Some(text) =>
      match Decimal.Parse(text, 255)
      case None => None
      case Some(n) => if n == 0 || n > MAX_INSTANCE then None else Some(n)
  }

  /** `check_common_tags`: From is signed, the query method is known, and the signature has not expired. */
  predicate CommonOk(env: Env, tags: seq<Tag>) {
    && GetTag(tags, "h").Some?
    && (exists n | n in Split(Value(tags, "h"), ':') :: SameName(n, "from"))
    && (GetTag(tags, "q").Some? ==> Value(tags, "q") == "dns/txt")
    && (GetTag(tags, "x").Some? ==> !env.expired(Value(tags, "x")))
  }

  const AMS_TAGS: seq<string> := ["a", "b", "bh", "d", "h", "s", "i"]
  const SEAL_TAGS: seq<string> := ["a", "b", "d", "s", "i", "cv"]

  /** `ARCMessageSignatureHeader::parse` */
  function ParseAms(env: Env, value: string): Option<TaggedHeader> {
    match ParseHeader(value)
    case None => None
    case Some(h) =>
      if HasTags(h.tags, AMS_TAGS) && CommonOk(env, h.tags) && Instance(h.tags).Some? then Some(h) else None
  }

  /** `ARCSealHeader::parse` */
  function ParseSeal(value: string): Option<TaggedHeader> {
    match ParseHeader(value)
    case None => None
    case Some(h) => if HasTags(h.tags, SEAL_TAGS) && Instance(h.tags).Some? then Some(h) else None
  }

  lemma {:induction false} AmsHas(tags: seq<Tag>)
    requires HasTags(tags, AMS_TAGS)
    ensures HasTags(tags, VERIFY_TAGS)
  {
    assert AMS_TAGS[3] == "d" && AMS_TAGS[5] == "s" && AMS_TAGS[0] == "a" && AMS_TAGS[4] == "h" && AMS_TAGS[1] == "b";
  }

  lemma {:induction false} SealHas(tags: seq<Tag>)
    requires HasTags(tags, SEAL_TAGS)
    ensures GetTag(tags, "a").Some? && GetTag(tags, "b").Some? && GetTag(tags, "d").Some? && GetTag(tags, "s").Some?
    ensures GetTag(tags, "cv").Some?
  {
    assert SEAL_TAGS[0] == "a" && SEAL_TAGS[1] == "b" && SEAL_TAGS[2] == "d" && SEAL_TAGS[3] == "s";
    assert SEAL_TAGS[5] == "cv";
  }

  /** The verification of an AMS against a message. */
  predicate AmsVerifies(env: Env, hdr: TaggedHeader, email: Email)
    requires HasTags(hdr.tags, AMS_TAGS)
  {
    AmsHas(hdr.tags);
    VerifyEmailHeader(env.crypto, AMS, hdr, email).Ok?
  }

  /** `ARCSealHeader::verify`: always relaxed, over the given headers and the seal itself. */
  predicate SealVerifies(env: Env, hdr: TaggedHeader, hs: seq<Header>)
    requires HasTags(hdr.tags, SEAL_TAGS)
  {
    SealHas(hdr.tags);
    match env.crypto.keys(Value(hdr.tags, "d"), Value(hdr.tags, "s"))
    case None => false
    case Some(keys) =>
      match ParseHashAlgo(Value(hdr.tags, "a"))
      case None => false
      case Some(algo) =>
        match env.crypto.decode(Value(hdr.tags, "b"))
        case None => false
        case Some(sig) =>
          var hash := env.crypto.digest(algo, HeadersInput(Relaxed, hs, hdr, ARC_SEAL));
          TryKeys(env.crypto, algo, hash, sig, keys, SignatureDidNotVerify).Ok?
  }

  datatype Status = StatusNone | StatusFail | StatusPass

  /** `cv=`, without regard to case. */
  function ParseStatus(s: string): Option<Status> {
    if SameName(s, "none") then Some(StatusNone)
    else if SameName(s, "fail") then Some(StatusFail)
    else if SameName(s, "pass") then Some(StatusPass)
    else None
  }

  /** What `cv=` must say: none for the first set, pass for every later one. */
  predicate CvOk(hdr: TaggedHeader, instance: nat)
    requires HasTags(hdr.tags, SEAL_TAGS)
  {
    SealHas(hdr.tags);
    ParseStatus(Value(hdr.tags, "cv")) == Some(if instance == 1 then StatusNone else StatusPass)
  }
}
