/** Header and body canonicalisation (section 3.4 of RFC 6376, as this code does it). */
module DkimCanon {
  import opened Common
  import opened DkimText
  import opened Strings

  datatype Type = Simple | Relaxed

  const CRLF: string := "\r\n"

  predicate Wsp(c: char) { c == ' ' || c == '\t' }

  /** The text without the blanks (SP, TAB, CR, LF) at its end. */
  function TrimEnd(s: string): (t: string)
    ensures t <= s
  {
    if s != "" && In(Fws, s[|s| - 1]) then TrimEnd(s[..|s| - 1]) else s
  }

  function TrimStart(s: string): (t: string)
  {
    if s != "" && In(Fws, s[0]) then TrimStart(s[1..]) else s
  }

  /** Every run of WSP becomes one space; `run` says that the text continues such a run. */
  function Collapse(s: string, run: bool): string {
    if s == "" then ""
    else if Wsp(s[0]) && run then Collapse(s[1..], true)
    else if Wsp(s[0]) then " " + Collapse(s[1..], true)
    else s[..1] + Collapse(s[1..], false)
  }

  /** The length of the first line, with its CRLF if it has one. */
  function LineLen(s: string): (n: nat)
    requires s != ""
    ensures 0 < n <= |s|
  {
    if |s| == 1 then 1
    else if s[0] == '\r' && s[1] == '\n' then 2
    else 1 + LineLen(s[1..])
  }

  function Lines(s: string): seq<string> {
    if s == "" then [] else [s[..LineLen(s)]] + Lines(s[LineLen(s)..])
  }

  predicate EndsWith(s: string, t: string) {
    |t| <= |s| && s[|s| - |t|..] == t
  }

  /** The body without the empty lines at its end. */
  function DropEmptyLines(s: string): (t: string)
    ensures t <= s && !EndsWith(t, CRLF + CRLF)
  {
    if EndsWith(s, CRLF + CRLF) then DropEmptyLines(s[..|s| - 2]) else s
  }

  function RelaxLine(line: string): string {
    Collapse(TrimEnd(line), false) + CRLF
  }

  function RelaxLines(lines: seq<string>): string {
    if lines == [] then "" else RelaxLine(lines[0]) + RelaxLines(lines[1..])
  }

  /** The canonical body, line by line. */
  function CanonBody(ty: Type, body: string): string {
    match ty
    case Simple => if body == "" then CRLF else DropEmptyLines(body)
    case Relaxed => if body == "" then "" else RelaxLines(Lines(DropEmptyLines(body)))
  }

  // ---- the hasher --------------------------------------------------------------------

  function Take(n: nat, s: string): string {
    if |s| <= n then s else s[..n]
  }

  lemma {:induction false} TakeMore(n: nat, s: string, t: string)
    ensures Take(n, s) + Take(n - |Take(n, s)|, t) == Take(n, s + t)
  {
  }

  /** Hashes no more than `limit` bytes; `data` is what the digest has been given. */
  class LimitHasher {
    const limit: nat
    var hashed: nat
    var data: string

    /** The hasher was offered the text `all` so far. */
    ghost predicate Fed(all: string) reads this {
      data == Take(limit, all) && hashed == |data|
    }

    constructor (limit: nat)
      ensures this.limit == limit && Fed("")
    {
      this.limit := limit;
      hashed := 0;
      data := "";
    }

    method Hash(bytes: string, ghost all: string)
      requires Fed(all)
      modifies this
      ensures Fed(all + bytes) && hashed <= limit
      ensures data == old(data) + Take(limit - old(hashed), bytes)
    {
      var remain := limit - hashed;
      var len := if |bytes| <= remain then |bytes| else remain;
      TakeMore(limit, all, bytes);
      data := data + bytes[..len];
      hashed := hashed + len;
    }
  }

  // ---- trimming, dropping and splitting, in loops ---------------------------------------

  method TrimWsEnd(s: string) returns (line: string)
    ensures line == TrimEnd(s)
  {
    line := s;
    while line != "" && In(Fws, line[|line| - 1])
      invariant TrimEnd(line) == TrimEnd(s)
      decreases |line|
    {
      line := line[..|line| - 1];
    }
  }

  method TrimWsStart(s: string) returns (line: string)
    ensures line == TrimStart(s)
  {
    line := s;
    while line != "" && In(Fws, line[0])
      invariant TrimStart(line) == TrimStart(s)
      decreases |line|
    {
      line := line[1..];
    }
  }

  method DropTrailingEmptyLines(s: string) returns (body: string)
    ensures body == DropEmptyLines(s)
  {
    body := s;
    while EndsWith(body, CRLF + CRLF)
      invariant DropEmptyLines(body) == DropEmptyLines(s)
      decreases |body|
    {
      body := body[..|body| - 2];
    }
  }

  /** The next CRLF at or after `from`, as `memmem` finds it. */
  method FindCrlf(s: string, from: nat) returns (idx: Option<nat>)
    requires from <= |s|
    ensures idx.Some? ==> from <= idx.value && idx.value + 2 <= |s| && LineLen(s[from..]) == idx.value + 2 - from
    ensures idx.Some? ==> s[idx.value..idx.value + 2] == CRLF
    ensures idx.None? && from < |s| ==> LineLen(s[from..]) == |s| - from
  {
    var i := from;
    while i + 1 < |s|
      invariant from <= i <= |s|
      invariant from < |s| ==> i < |s| && LineLen(s[from..]) == i - from + LineLen(s[i..])
    {
      if s[i] == '\r' && s[i + 1] == '\n' { return Some(i); }
      assert s[i..][1..] == s[i + 1..];
      i := i + 1;
    }
    return None;
  }

  class IterLines {
    const haystack: string
    var start: nat
    var done: bool

    ghost predicate Valid() reads this { start <= |haystack| }

    /** The lines still to come. */
    ghost function Rest(): seq<string>
      requires Valid()
      reads this
    {
      if done then [] else Lines(haystack[start..])
    }

    constructor (haystack: string)
      ensures Valid() && this.haystack == haystack && Rest() == Lines(haystack)
    {
      this.haystack := haystack;
      start := 0;
      done := false;
      new;
      assert this.haystack[0..] == haystack;
    }

    method Next() returns (line: Option<string>)
      requires Valid()
      modifies this
      ensures Valid()
      ensures line.None? ==> old(Rest()) == [] == Rest()
      ensures line.Some? ==> old(Rest()) == [line.value] + Rest()
    {
      if done { return None; }
      var found := FindCrlf(haystack, start);
      ghost var rest := haystack[start..];
      match found {
        case Some(idx) =>
          var l := haystack[start..idx + 2];
          assert rest[..LineLen(rest)] == l && rest[LineLen(rest)..] == haystack[idx + 2..];
          start := idx + 2;
          return Some(l);
        case None =>
          done := true;
          var l := haystack[start..];
          if l == "" { return None; }
          assert l[..|l|] == l && l[|l|..] == "" && Lines(l) == [l];
          return Some(l);
      }
    }
  }

  // ---- bodies, streamed into the hasher -----------------------------------------------------

  predicate NoWsp(s: string) {
    forall i | 0 <= i < |s| :: !Wsp(s[i])
  }

  lemma {:induction false} CollapseRun(a: string, b: string, run: bool)
    requires NoWsp(a)
    ensures Collapse(a + b, run) == a + Collapse(b, run && a == "")
    decreases |a|
  {
    if a == "" {
      assert a + b == b;
    } else {
      assert (a + b)[1..] == a[1..] + b && (a + b)[..1] == a[..1];
      CollapseRun(a[1..], b, false);
    }
  }

  /** Finding the next WSP at `idx`: what was skipped is emitted, and then one space. */
  lemma {:induction false} CollapseStep(line: string, prior: nat, idx: nat)
    requires prior <= idx < |line| && Wsp(line[idx]) && forall i | prior <= i < idx :: !Wsp(line[i])
    requires prior == 0 || prior < idx
    ensures Collapse(line[prior..], prior > 0) == line[prior..idx] + " " + Collapse(line[idx + 1..], true)
  {
    assert line[prior..] == line[prior..idx] + line[idx..];
    CollapseRun(line[prior..idx], line[idx..], prior > 0);
    assert line[idx..][1..] == line[idx + 1..];
  }

  lemma {:induction false} CollapseSkip(line: string, idx: nat)
    requires idx < |line| && Wsp(line[idx])
    ensures Collapse(line[idx..], true) == Collapse(line[idx + 1..], true)
  {
    assert line[idx..][1..] == line[idx + 1..];
  }

  lemma {:induction false} CollapseEnd(line: string, prior: nat, run: bool)
    requires prior <= |line| && forall i | prior <= i < |line| :: !Wsp(line[i])
    ensures Collapse(line[prior..], run) == line[prior..]
  {
    CollapseRun(line[prior..], "", run);
    assert line[prior..] + "" == line[prior..];
  }

  /** Feeding the bytes before a new run of WSP and one space keeps what remains to be fed. */
  method HashRun(hasher: LimitHasher, line: string, prior: nat, idx: nat, ghost fed: string)
    returns (ghost fed': string)
    requires hasher.Fed(fed)
    requires prior <= idx < |line| && Wsp(line[idx]) && forall i | prior <= i < idx :: !Wsp(line[i])
    requires prior == 0 || prior < idx
    modifies hasher
    ensures hasher.Fed(fed')
    ensures fed' + Collapse(line[idx + 1..], true) == fed + Collapse(line[prior..], prior > 0)
  {
    CollapseStep(line, prior, idx);
    hasher.Hash(line[prior..idx], fed);
    hasher.Hash(" ", fed + line[prior..idx]);
    fed' := fed + line[prior..idx] + " ";
  }

  /** One line: blanks at its end are dropped, WSP runs become one space, CRLF follows. */
  method HashRelaxedLine(hasher: LimitHasher, rawLine: string, ghost all: string)
    requires hasher.Fed(all)
    modifies hasher
    ensures hasher.Fed(all + RelaxLine(rawLine))
  {
    var line := TrimWsEnd(rawLine);
    var prior, idx := 0, 0;
    ghost var fed := all;
    assert line[0..] == line;
    while idx < |line|
      invariant prior <= idx <= |line| && forall i | prior <= i < idx :: !Wsp(line[i])
      invariant hasher.Fed(fed)
      invariant fed + Collapse(line[prior..], prior > 0) == all + Collapse(line, false)
    {
      if Wsp(line[idx]) {
        if prior > 0 && idx == prior {
          CollapseSkip(line, idx);
        } else {
          fed := HashRun(hasher, line, prior, idx, fed);
        }
        prior := idx + 1;
      }
      idx := idx + 1;
    }
    LineEnd(rawLine, line, prior, all, fed);
    hasher.Hash(line[prior..], fed);
    hasher.Hash(CRLF, fed + line[prior..]);
  }

  lemma {:induction false} LineEnd(rawLine: string, line: string, prior: nat, all: string, fed: string)
    requires line == TrimEnd(rawLine) && prior <= |line| && forall i | prior <= i < |line| :: !Wsp(line[i])
    requires fed + Collapse(line[prior..], prior > 0) == all + Collapse(line, false)
    ensures fed + line[prior..] + CRLF == all + RelaxLine(rawLine)
  {
    CollapseEnd(line, prior, prior > 0);
    assert all + RelaxLine(rawLine) == all + Collapse(line, false) + CRLF;
  }

  lemma {:induction false} RelaxNext(fed: string, line: string, rest: seq<string>)
    ensures fed + RelaxLines([line] + rest) == fed + RelaxLine(line) + RelaxLines(rest)
  {
    assert ([line] + rest)[1..] == rest;
  }

  method BodyRelaxed(body: string, hasher: LimitHasher)
    requires hasher.Fed("")
    modifies hasher
    ensures hasher.Fed(CanonBody(Relaxed, body))
  {
    if body == "" { return; }
    var kept := DropTrailingEmptyLines(body);
    HashLines(kept, hasher);
  }

  method HashLines(kept: string, hasher: LimitHasher)
    requires hasher.Fed("")
    modifies hasher
    ensures hasher.Fed(RelaxLines(Lines(kept)))
  {
    var iter := new IterLines(kept);
    ghost var fed, rest := "", Lines(kept);
    while true
      invariant fresh(iter) && iter.Valid() && iter.Rest() == rest && hasher.Fed(fed)
      invariant fed + RelaxLines(rest) == RelaxLines(Lines(kept))
      decreases |rest|
    {
      var line := iter.Next();
      match line {
        case None => return;
        case Some(l) =>
          HashRelaxedLine(hasher, l, fed);
          RelaxNext(fed, l, iter.Rest());
          fed, rest := fed + RelaxLine(l), iter.Rest();
      }
    }
  }

  method BodySimple(body: string, hasher: LimitHasher)
    requires hasher.Fed("")
    modifies hasher
    ensures hasher.Fed(CanonBody(Simple, body))
  {
    var kept := CRLF;
    if body != "" { kept := DropTrailingEmptyLines(body); }
    hasher.Hash(kept, "");
    assert "" + kept == kept;
  }

  /** `compute_body_hash`: exactly the first bytes of the canonical body, up to the limit, are hashed. */
  method HashedBody(ty: Type, body: string, limit: nat) returns (hashed: string)
    ensures hashed == Take(limit, CanonBody(ty, body))
  {
    var hasher := new LimitHasher(limit);
    match ty {
      case Simple => BodySimple(body, hasher);
      case Relaxed => BodyRelaxed(body, hasher);
    }
    hashed := hasher.data;
  }

  // ---- headers ------------------------------------------------------------------------------

  predicate Space(c: char) {
    c == ' ' || c == '\t' || c == '\n' || c == '\r' || c as int == 0x0b || c as int == 0x0c
  }

  /** `trim_end` on the header name. */
  function TrimName(s: string): string {
    if s != "" && Space(s[|s| - 1]) then TrimName(s[..|s| - 1]) else s
  }

  /** CR and LF vanish, runs of WSP become one space. */
  function Flatten(s: string, run: bool): string {
    if s == "" then ""
    else if s[0] == '\r' || s[0] == '\n' then Flatten(s[1..], run)
    else if Wsp(s[0]) && run then Flatten(s[1..], true)
    else if Wsp(s[0]) then " " + Flatten(s[1..], true)
    else s[..1] + Flatten(s[1..], false)
  }

  function RelaxValue(value: string): string {
    Flatten(TrimStart(TrimEnd(value)), false)
  }

  function CanonHeader(ty: Type, name: string, value: string): string {
    match ty
    case Simple => name + ": " + value + CRLF
    case Relaxed => TrimName(Lower(name)) + ":" + RelaxValue(value) + CRLF
  }

  /** `canon_header_into` */
  method CanonHeaderInto(ty: Type, name: string, rawValue: string, out0: string) returns (out: string)
    ensures out == out0 + CanonHeader(ty, name, rawValue)
  {
    out := out0;
    match ty {
      case Simple =>
        out := out + name;
        out := out + ": ";
        out := out + rawValue;
        out := out + CRLF;
      case Relaxed =>
        var key := TrimName(Lower(name));
        out := out + key;
        out := out + ":";
        var trimmed := TrimWsEnd(rawValue);
        var value := TrimWsStart(trimmed);
        out := FlattenInto(value, out);
        out := out + CRLF;
    }
  }

  method FlattenInto(value: string, out0: string) returns (out: string)
    ensures out == out0 + Flatten(value, false)
  {
    out := out0;
    var spaceRun := false;
    for i := 0 to |value|
      invariant out + Flatten(value[i..], spaceRun) == out0 + Flatten(value, false)
    {
      var c := value[i];
      assert value[i..][1..] == value[i + 1..] && value[i..][..1] == [c];
      if c == '\r' || c == '\n' {
      } else if Wsp(c) {
        if !spaceRun {
          spaceRun := true;
          out := out + " ";
        }
      } else {
        spaceRun := false;
        out := out + [c];
      }
    }
    assert value[|value|..] == "";
  }
}
