/** Character classes, spans, splitting and joining used by the DKIM header code.  A char stands for a byte. */
module DkimText {

  datatype Class = Fws | ValChar | Alpha

  /** FWS as the parser takes it, VALCHAR of section 3.2 of RFC 6376, and letters. */
  predicate In(cls: Class, c: char) {
    match cls
    case Fws => c == ' ' || c == '\t' || c == '\r' || c == '\n'
    case ValChar => '!' <= c <= ':' || '<' <= c <= '~'
    case Alpha => 'a' <= c <= 'z' || 'A' <= c <= 'Z'
  }

  predicate All(cls: Class, s: string) {
    forall i | 0 <= i < |s| :: In(cls, s[i])
  }

  /** Where the longest run of `cls` characters from `i` on ends. */
  function SpanEnd(cls: Class, s: string, i: nat): (n: nat)
    requires i <= |s|
    ensures i <= n <= |s|
    decreases |s| - i
  {
    if i == |s| || !In(cls, s[i]) then i else SpanEnd(cls, s, i + 1)
  }

  /** `t` stands in `s` at position `i`. */
  predicate At(s: string, i: nat, t: string) {
    i + |t| <= |s| && s[i..i + |t|] == t
  }

  lemma {:induction false} AtConcat(s: string, i: nat, a: string, b: string)
    ensures At(s, i, a + b) <==> At(s, i, a) && At(s, i + |a|, b)
  {
    if i + |a| + |b| <= |s| {
      assert s[i..i + |a| + |b|] == s[i..i + |a|] + s[i + |a|..i + |a| + |b|];
      if At(s, i, a + b) {
        assert (a + b)[..|a|] == a && (a + b)[|a|..] == b;
      }
    }
  }

  lemma {:induction false} SpanAt(cls: Class, s: string, i: nat, t: string)
    requires At(s, i, t) && All(cls, t)
    requires i + |t| < |s| ==> !In(cls, s[i + |t|])
    ensures SpanEnd(cls, s, i) == i + |t|
    decreases |t|
  {
    if t != "" {
      assert s[i] == s[i..i + |t|][0];
      assert s[i + 1..i + |t|] == s[i..i + |t|][1..];
      SpanAt(cls, s, i + 1, t[1..]);
    }
  }
}
