/** Signing a message and verifying a signature header: `Signer::sign_impl` and `verify_email_header`. */
module DkimSign {
  import opened Common
  import opened Strings
  import opened DkimParser
  import opened DkimHeader
  import opened DkimCanon
  import opened DkimSelect
  import opened DkimTwoPass
  import Decimal

  datatype Email = Email(headers: seq<Header>, body: string)

  datatype HashAlgo = RsaSha1 | RsaSha256 | Ed25519Sha256

  type Key = nat

  /** Hashing, signing and key retrieval are foreign code: arbitrary functions. */
  datatype Crypto = Crypto(
    digest: (HashAlgo, string) -> string,
    base64: string -> string,
    decode: string -> Option<string>,
    sign: (HashAlgo, string) -> string,
    verify: (HashAlgo, string, string, Key) -> Result<bool, string>,
    keys: (string, string) -> Option<seq<Key>>)

  datatype Signer = Signer(
    list: seq<string>, domain: string, selector: string, headerCanon: Type, bodyCanon: Type,
    algo: HashAlgo, time: string, expiry: Option<string>, overSign: bool)

  datatype DkimError =
    | KeyUnavailable | UnsupportedCanonicalization | UnsupportedHashAlgorithm | InvalidLength
    | BodyHashDidNotVerify | SignatureSyntaxError | SignatureDidNotVerify | KeyFailed(reason: string)

  // ---- names of algorithms ----------------------------------------------------------------

  function AlgoName(algo: HashAlgo): string {
    match algo
    case RsaSha1 => "rsa-sha1"
    case RsaSha256 => "rsa-sha256"
    case Ed25519Sha256 => "ed25519-sha256"
  }

  function ParseHashAlgo(s: string): Option<HashAlgo> {
    if s == "rsa-sha1" then Some(RsaSha1)
    else if s == "rsa-sha256" then Some(RsaSha256)
    else if s == "ed25519-sha256" then Some(Ed25519Sha256)
    else None
  }

  function CanonName(ty: Type): string {
    match ty case Simple => "simple" case Relaxed => "relaxed"
  }

  function ParseCanonicalization(value: Option<string>): Option<(Type, Type)> {
    match value
    case None => Some((Simple, Simple))
    case Some(s) =>
      if s == "simple/simple" then Some((Simple, Simple))
      else if s == "relaxed/simple" then Some((Relaxed, Simple))
      else if s == "simple/relaxed" then Some((Simple, Relaxed))
      else if s == "relaxed/relaxed" then Some((Relaxed, Relaxed))
      else if s == "relaxed" then Some((Relaxed, Simple))
      else if s == "simple" then Some((Simple, Simple))
      else None
  }

  lemma {:induction false} NamesParse(algo: HashAlgo, h: Type, b: Type)
    ensures ParseHashAlgo(AlgoName(algo)) == Some(algo)
    ensures ParseCanonicalization(Some(CanonName(h) + "/" + CanonName(b))) == Some((h, b))
  {
    assert "rsa-sha1" != "rsa-sha256";
    match (h, b) {
      case (Simple, Simple) => assert "simple" + "/" + "simple" == "simple/simple";
      case (Simple, Relaxed) => assert "simple" + "/" + "relaxed" == "simple/relaxed";
      case (Relaxed, Simple) => assert "relaxed" + "/" + "simple" == "relaxed/simple";
      case (Relaxed, Relaxed) => assert "relaxed" + "/" + "relaxed" == "relaxed/relaxed";
    }
  }

  // ---- the hashed bytes -----------------------------------------------------------------------

  function CanonHeaders(ty: Type, hs: seq<Header>): string {
    if hs == [] then ""
    else
      var h := hs[|hs| - 1];
      CanonHeaders(ty, hs[..|hs| - 1]) + CanonHeader(ty, h.name, h.value)
  }

  /** A canonical header without its final CRLF. */
  function Chopped(ty: Type, name: string, value: string): string {
    var s := CanonHeader(ty, name, value);
    s[..|s| - 2]
  }

  /** The bytes hashed for a signature header: the selected headers, then the header without its signature. */
  function HeadersInput(ty: Type, hs: seq<Header>, tagged: TaggedHeader, name: string): string
    requires GetTag(tagged.tags, "b").Some?
  {
    CanonHeaders(ty, hs) + Chopped(ty, name, Replace(tagged.raw, GetTag(tagged.tags, "b").value.raw))
  }

  /** `compute_headers_hash`, up to the digest. */
  method ComputeHeadersInput(ty: Type, hs: seq<Header>, tagged: TaggedHeader, name: string) returns (input: string)
    requires GetTag(tagged.tags, "b").Some?
    ensures input == HeadersInput(ty, hs, tagged, name)
  {
    input := "";
    for i := 0 to |hs|
      invariant input == CanonHeaders(ty, hs[..i])
    {
      input := CanonHeaderInto(ty, hs[i].name, hs[i].value, input);
      assert hs[..i + 1][..i] == hs[..i];
    }
    assert hs[..|hs|] == hs;
    var value := Replace(tagged.raw, GetTag(tagged.tags, "b").value.raw);
    var canonicalized := CanonHeaderInto(ty, name, value, "");
    assert "" + CanonHeader(ty, name, value) == CanonHeader(ty, name, value);
    input := input + canonicalized[..|canonicalized| - 2];
  }

  const USIZE_MAX: nat := 0xffff_ffff_ffff_ffff

  /** `compute_body_hash`; without a length the limit is the largest there is. */
  function BodyHash(crypto: Crypto, algo: HashAlgo, ty: Type, length: Option<nat>, body: string): string {
    var limit := if length.Some? then length.value else USIZE_MAX;
    crypto.base64(crypto.digest(algo, Take(limit, CanonBody(ty, body))))
  }

  // ---- signing ----------------------------------------------------------------------------------

  const DKIM_SIGNATURE := "DKIM-Signature"
  const ARC_SEAL := "ARC-Seal"

  function T(name: string, value: string): Tag { Tag(name, value, value) }

  function EffectiveList(signer: Signer, email: Email): seq<string> {
    if signer.overSign then OverSigned(email.headers, signer.list) else signer.list
  }

  /** The tags that describe the message; a seal has none. */
  function MessageTags(signer: Signer, crypto: Crypto, email: Email, list: seq<string>): seq<Tag> {
    [T("c", CanonName(signer.headerCanon) + "/" + CanonName(signer.bodyCanon)),
     T("bh", BodyHash(crypto, signer.algo, signer.bodyCanon, None, email.body)),
     T("h", Join(list, ":"))]
  }

  /** The tags added by `header_builder`, in order. */
  function Plan(signer: Signer, crypto: Crypto, email: Email, list: seq<string>, name: string,
                extra: seq<Tag>): seq<Tag>
  {
    extra
    + (if SameName(name, DKIM_SIGNATURE) then [T("v", "1")] else [])
    + [T("a", AlgoName(signer.algo)), T("d", signer.domain), T("s", signer.selector)]
    + (if SameName(name, ARC_SEAL) then [] else MessageTags(signer, crypto, email, list))
    + [T("t", signer.time)]
    + (if signer.expiry.None? then [] else [T("x", signer.expiry.value)])
  }

  /** The builder's ordered map after all of them. */
  function BuilderTags(signer: Signer, crypto: Crypto, email: Email, name: string, extra: seq<Tag>): seq<Tag> {
    Collected(Plan(signer, crypto, email, EffectiveList(signer, email), name, extra))
  }

  /** A header as `build` leaves it. */
  function Built(tags: seq<Tag>): TaggedHeader {
    TaggedHeader(tags, Serialized(tags))
  }

  function SigningCanon(signer: Signer, name: string): Type {
    if SameName(name, ARC_SEAL) then Relaxed else signer.headerCanon
  }

  lemma {:induction false} GetInserted(tags: seq<Tag>, t: Tag)
    ensures GetTag(InsertTag(tags, t), t.name) == Some(t)
  {
    if tags != [] && tags[0].name != t.name { GetInserted(tags[1..], t); }
  }

  /** The bytes the signer hashes, with an empty signature in the header. */
  function SignerInput(signer: Signer, crypto: Crypto, email: Email, name: string, extra: seq<Tag>,
                       concrete: seq<Header>): string
  {
    var tags := BuilderTags(signer, crypto, email, name, extra);
    GetInserted(tags, BTag(""));
    HeadersInput(SigningCanon(signer, name), concrete, Built(InsertTag(tags, BTag(""))), name)
  }

  function Signature(signer: Signer, crypto: Crypto, input: string): string {
    crypto.base64(crypto.sign(signer.algo, crypto.digest(signer.algo, input)))
  }

  /** `sign_impl`: the header that is produced. */
  function SignImpl(signer: Signer, crypto: Crypto, email: Email, name: string, extra: seq<Tag>,
                    concrete: Option<seq<Header>>): Header
  {
    var hs := if concrete.Some? then concrete.value
              else SelectedHeaders(email.headers, EffectiveList(signer, email));
    var sig := Signature(signer, crypto, SignerInput(signer, crypto, email, name, extra, hs));
    Header(name, Serialized(InsertTag(BuilderTags(signer, crypto, email, name, extra), BTag(sig))))
  }

  // ---- verifying ----------------------------------------------------------------------------------

  /** `trim` on a header name from the list. */
  function TrimBoth(s: string): string {
    if s != "" && Space(s[0]) then TrimBoth(s[1..]) else TrimName(s)
  }

  function NormalNames(parts: seq<string>): seq<string> {
    if parts == [] then [] else [Lower(TrimBoth(parts[0]))] + NormalNames(parts[1..])
  }

  function ListOf(h: string): seq<string> {
    NormalNames(Split(h, ':'))
  }

  /** Every key is tried; the last error is reported if none accepts. */
  function TryKeys(crypto: Crypto, algo: HashAlgo, hash: string, sig: string, keys: seq<Key>,
                   failed: DkimError): Result<Unit, DkimError>
  {
    if keys == [] then Err(failed)
    else
      match crypto.verify(algo, hash, sig, keys[0])
      case Ok(true) => Ok(Unit)
      case Ok(false) => TryKeys(crypto, algo, hash, sig, keys[1..], failed)
      case Err(reason) => TryKeys(crypto, algo, hash, sig, keys[1..], KeyFailed(reason))
  }

  method TryEveryKey(crypto: Crypto, algo: HashAlgo, hash: string, sig: string, keys: seq<Key>)
    returns (r: Result<Unit, DkimError>)
    ensures r == TryKeys(crypto, algo, hash, sig, keys, SignatureDidNotVerify)
  {
    var errors: seq<DkimError> := [];
    for i := 0 to |keys|
      invariant TryKeys(crypto, algo, hash, sig, keys, SignatureDidNotVerify)
             == TryKeys(crypto, algo, hash, sig, keys[i..],
                        if errors == [] then SignatureDidNotVerify else errors[|errors| - 1])
    {
      assert keys[i..][1..] == keys[i + 1..];
      match crypto.verify(algo, hash, sig, keys[i]) {
        case Ok(true) => return Ok(Unit);
        case Ok(false) =>
        case Err(reason) => errors := errors + [KeyFailed(reason)];
      }
    }
    assert keys[|keys|..] == [];
    return Err(if errors == [] then SignatureDidNotVerify else errors[|errors| - 1]);
  }

  predicate HasTags(tags: seq<Tag>, names: seq<string>) {
    forall i | 0 <= i < |names| :: GetTag(tags, names[i]).Some?
  }

  function Value(tags: seq<Tag>, name: string): string
    requires GetTag(tags, name).Some?
  {
    GetTag(tags, name).value.value
  }

  function ValueOpt(tags: seq<Tag>, name: string): Option<string> {
    if GetTag(tags, name).Some? then Some(Value(tags, name)) else None
  }

  const VERIFY_TAGS: seq<string> := ["d", "s", "a", "h", "b"]

  /** The bytes the verifier hashes. */
  function VerifierInput(hdr: TaggedHeader, ty: Type, email: Email, name: string): string
    requires GetTag(hdr.tags, "h").Some? && GetTag(hdr.tags, "b").Some?
  {
    HeadersInput(ty, SelectedHeaders(email.headers, ListOf(Value(hdr.tags, "h"))), hdr, name)
  }

  function BodyCheck(crypto: Crypto, hdr: TaggedHeader, algo: HashAlgo, ty: Type, email: Email): Option<DkimError> {
    match ValueOpt(hdr.tags, "bh")
    case None => None
    case Some(bh) =>
      var l := ValueOpt(hdr.tags, "l");
      if l.Some? && Decimal.Parse(l.value, USIZE_MAX).None? then Some(InvalidLength)
      else
        var length := if l.None? then None else Decimal.Parse(l.value, USIZE_MAX);
        if bh == BodyHash(crypto, algo, ty, length, email.body) then None else Some(BodyHashDidNotVerify)
  }

  /** `verify_email_header` */
  function VerifyEmailHeader(crypto: Crypto, name: string, hdr: TaggedHeader, email: Email): Result<Unit, DkimError>
    requires HasTags(hdr.tags, VERIFY_TAGS)
  {
    assert VERIFY_TAGS[0] == "d" && VERIFY_TAGS[1] == "s" && VERIFY_TAGS[2] == "a";
    assert VERIFY_TAGS[3] == "h" && VERIFY_TAGS[4] == "b";
    match crypto.keys(Value(hdr.tags, "d"), Value(hdr.tags, "s"))
    case None => Err(KeyUnavailable)
    case Some(keys) =>
      match ParseCanonicalization(ValueOpt(hdr.tags, "c"))
      case None => Err(UnsupportedCanonicalization)
      case Some(tys) =>
        match ParseHashAlgo(Value(hdr.tags, "a"))
        case None => Err(UnsupportedHashAlgorithm)
        case Some(algo) =>
          match BodyCheck(crypto, hdr, algo, tys.1, email)
          case Some(error) => Err(error)
          case None =>
            match crypto.decode(Value(hdr.tags, "b"))
            case None => Err(SignatureSyntaxError)
            case Some(sig) =>
              var hash := crypto.digest(algo, VerifierInput(hdr, tys.0, email, name));
              TryKeys(crypto, algo, hash, sig, keys, SignatureDidNotVerify)
  }
}
