/**
 * Exactly when signing and verifying agree, for signatures that look like base64: nothing but `=`
 * follows a `=`.
 */
module DkimExact {
  import opened DkimText
  import opened Strings
  import opened DkimParser
  import opened DkimHeader
  import opened DkimCanon
  import opened DkimTwoPass

  // ---- bytes that are not blank are never lost --------------------------------------------

  function Solids(s: string): nat {
    if s == "" then 0 else Solids(s[..|s| - 1]) + if In(Fws, s[|s| - 1]) then 0 else 1
  }

  lemma {:induction false} SolidsConcat(a: string, b: string)
    ensures Solids(a + b) == Solids(a) + Solids(b)
  {
    if b == "" {
      assert a + b == a;
    } else {
      assert (a + b)[..|a + b| - 1] == a + b[..|b| - 1];
      SolidsConcat(a, b[..|b| - 1]);
    }
  }

  lemma {:induction false} SolidsFirst(s: string)
    requires s != ""
    ensures Solids(s) == (if In(Fws, s[0]) then 0 else 1) + Solids(s[1..])
  {
    assert s == s[..1] + s[1..];
    SolidsConcat(s[..1], s[1..]);
    assert s[..1][..0] == "";
  }

  lemma {:induction false} SolidsTrimEnd(s: string)
    ensures Solids(TrimEnd(s)) == Solids(s)
  {
    if s != "" && In(Fws, s[|s| - 1]) { SolidsTrimEnd(s[..|s| - 1]); }
  }

  lemma {:induction false} SolidsTrimStart(s: string)
    ensures Solids(TrimStart(s)) == Solids(s)
  {
    if s != "" && In(Fws, s[0]) {
      SolidsTrimStart(s[1..]);
      SolidsFirst(s);
    }
  }

  lemma {:induction false} SolidsOne(c: string, rest: string)
    requires |c| == 1
    ensures Solids(c + rest) == (if In(Fws, c[0]) then 0 else 1) + Solids(rest)
  {
    SolidsFirst(c + rest);
    assert (c + rest)[1..] == rest;
  }

  lemma {:induction false} SolidsFlatten(s: string, run: bool)
    ensures Solids(Flatten(s, run)) == Solids(s)
    decreases |s|
  {
    if s != "" {
      SolidsFirst(s);
      if s[0] == '\r' || s[0] == '\n' || (Wsp(s[0]) && run) {
        SolidsFlatten(s[1..], run);
      } else if Wsp(s[0]) {
        SolidsFlatten(s[1..], true);
        SolidsOne(" ", Flatten(s[1..], true));
      } else {
        SolidsFlatten(s[1..], false);
        SolidsOne(s[..1], Flatten(s[1..], false));
      }
    }
  }

  /** Values with the same canonical form have the same number of bytes that are not blank. */
  lemma {:induction false} CanonSolids(ty: Type, name: string, v: string, w: string)
    requires CanonHeader(ty, name, v) == CanonHeader(ty, name, w)
    ensures Solids(v) == Solids(w)
  {
    match ty
    case Simple => Middle(name + ": ", v, w, CRLF);
    case Relaxed =>
      Middle(TrimName(Lower(name)) + ":", RelaxValue(v), RelaxValue(w), CRLF);
      RelaxSolids(v);
      RelaxSolids(w);
  }

  lemma {:induction false} RelaxSolids(v: string)
    ensures Solids(RelaxValue(v)) == Solids(v)
  {
    SolidsTrimEnd(v);
    SolidsTrimStart(TrimEnd(v));
    SolidsFlatten(TrimStart(TrimEnd(v)), false);
  }

  lemma {:induction false} Middle(a: string, v: string, w: string, z: string)
    requires a + v + z == a + w + z
    ensures v == w
  {
    assert v == (a + v + z)[|a|..|a + v + z| - |z|];
    assert w == (a + w + z)[|a|..|a + w + z| - |z|];
  }

  // ---- cutting out more than once ---------------------------------------------------------------

  lemma {:induction false} SolidsCut(s: string, n: nat)
    requires n <= |s|
    ensures Solids(s) == Solids(s[..n]) + Solids(s[n..])
  {
    assert s == s[..n] + s[n..];
    SolidsConcat(s[..n], s[n..]);
  }

  lemma {:induction false} CutFirst(s: string, pat: string)
    requires pat != "" && |s| >= |pat| && s[..|pat|] == pat
    ensures Replace(s, pat) == Replace(s[|pat|..], pat) && Solids(s) == Solids(pat) + Solids(s[|pat|..])
  {
    SolidsCut(s, |pat|);
  }

  lemma {:induction false} KeepFirst(s: string, pat: string)
    requires pat != "" && |s| >= |pat| && s[..|pat|] != pat
    ensures Solids(Replace(s, pat)) + Solids(s[1..]) == Solids(Replace(s[1..], pat)) + Solids(s)
  {
    SolidsFirst(s);
    SolidsOne(s[..1], Replace(s[1..], pat));
  }

  lemma {:induction false} ReplaceFewer(s: string, pat: string, i: nat)
    requires pat != ""
    ensures Solids(Replace(s, pat)) <= Solids(s)
    ensures At(s, i, pat) ==> Solids(Replace(s, pat)) + Solids(pat) <= Solids(s)
    decreases |s|
  {
    if |s| >= |pat| {
      if s[..|pat|] == pat {
        CutFirst(s, pat);
        ReplaceFewer(s[|pat|..], pat, 0);
      } else {
        KeepFirst(s, pat);
        ReplaceFewer(s[1..], pat, if i > 0 then i - 1 else 0);
        if i > 0 { AtShift(s, 1, i - 1, pat); }
      }
    }
  }

  lemma {:induction false} ReplaceMuchFewer(s: string, pat: string, i: nat, j: nat)
    requires pat != "" && At(s, i, pat) && At(s, j, pat) && i + |pat| <= j
    ensures Solids(Replace(s, pat)) + 2 * Solids(pat) <= Solids(s)
    decreases |s|
  {
    if s[..|pat|] == pat {
      FewerTwice(s, pat, j);
    } else {
      NotAtStart(s, pat, i);
      AtTail(s, pat, i);
      AtTail(s, pat, j);
      ReplaceMuchFewer(s[1..], pat, i - 1, j - 1);
      FewerLater(s, pat, 2 * Solids(pat));
    }
  }

  lemma {:induction false} FewerTwice(s: string, pat: string, j: nat)
    requires pat != "" && |s| >= |pat| && s[..|pat|] == pat && At(s, j, pat) && |pat| <= j
    ensures Solids(Replace(s, pat)) + 2 * Solids(pat) <= Solids(s)
  {
    AtShift(s, |pat|, j - |pat|, pat);
    ReplaceFewer(s[|pat|..], pat, j - |pat|);
    FewerHere(s, pat, Solids(pat));
  }

  lemma {:induction false} FewerHere(s: string, pat: string, d: nat)
    requires pat != "" && |s| >= |pat| && s[..|pat|] == pat
    requires Solids(Replace(s[|pat|..], pat)) + d <= Solids(s[|pat|..])
    ensures Solids(Replace(s, pat)) + Solids(pat) + d <= Solids(s)
  {
    CutFirst(s, pat);
  }

  lemma {:induction false} FewerLater(s: string, pat: string, d: nat)
    requires pat != "" && |s| >= |pat| && s[..|pat|] != pat
    requires Solids(Replace(s[1..], pat)) + d <= Solids(s[1..])
    ensures Solids(Replace(s, pat)) + d <= Solids(s)
  {
    KeepFirst(s, pat);
  }

  lemma {:induction false} AtTail(s: string, pat: string, i: nat)
    requires s != "" && i > 0 && At(s, i, pat)
    ensures At(s[1..], i - 1, pat)
  {
    AtShift(s, 1, i - 1, pat);
  }

  lemma {:induction false} NotAtStart(s: string, pat: string, i: nat)
    requires |s| >= |pat| && s[..|pat|] != pat && At(s, i, pat)
    ensures i > 0
  {
    assert s[0..|pat|] == s[..|pat|];
  }

  // ---- padding ----------------------------------------------------------------------------------

  predicate Padding(s: string) {
    s == "" || ((s[0] == '=' || In(Fws, s[0])) && Padding(s[1..]))
  }

  /** After a `=` there is nothing but padding. */
  predicate Padded(s: string) {
    s == "" || if s[0] == '=' then Padding(s[1..]) else Padded(s[1..])
  }

  /** What base64 gives: VALCHARs, with `=` only at the end, and not alone. */
  predicate Base64Like(s: string) {
    All(ValChar, s) && Padded(s) && s != "" && s[0] != '='
  }

  lemma {:induction false} PaddingAt(s: string, j: nat)
    requires Padding(s) && j < |s|
    ensures s[j] == '=' || In(Fws, s[j])
  {
    if j > 0 { PaddingAt(s[1..], j - 1); }
  }

  lemma {:induction false} PaddedAfter(s: string, k: nat, j: nat)
    requires Padded(s) && k < j < |s| && s[k] == '='
    ensures s[j] == '=' || In(Fws, s[j])
  {
    if s[0] == '=' {
      PaddingAt(s[1..], j - 1);
    } else {
      PaddedAfter(s[1..], k - 1, j - 1);
    }
  }

  lemma {:induction false} PaddingIsPadded(s: string)
    requires Padding(s)
    ensures Padded(s)
  {
    if s != "" && s[0] != '=' { PaddingIsPadded(s[1..]); }
  }

  lemma {:induction false} PaddingPrepend(a: string, x: string, y: string)
    requires Padding(a + x) && (Padding(x) ==> Padding(y))
    ensures Padding(a + y)
  {
    if a == "" {
      assert a + x == x && a + y == y;
    } else {
      assert (a + x)[1..] == a[1..] + x && (a + y)[1..] == a[1..] + y;
      PaddingPrepend(a[1..], x, y);
    }
  }

  lemma {:induction false} PaddedPrepend(a: string, x: string, y: string)
    requires Padded(a + x) && (Padded(x) ==> Padded(y)) && (Padding(x) ==> Padding(y))
    ensures Padded(a + y)
  {
    if a == "" {
      assert a + x == x && a + y == y;
    } else {
      assert (a + x)[1..] == a[1..] + x && (a + y)[1..] == a[1..] + y;
      if a[0] == '=' { PaddingPrepend(a[1..], x, y); } else { PaddedPrepend(a[1..], x, y); }
    }
  }

  lemma {:induction false} BlankPrepend(ws: string, y: string)
    requires All(Fws, ws)
    ensures (Padded(y) ==> Padded(ws + y)) && (Padding(y) ==> Padding(ws + y))
  {
    if ws == "" {
      assert ws + y == y;
    } else {
      assert (ws + y)[1..] == ws[1..] + y;
      BlankPrepend(ws[1..], y);
    }
  }

  /** Folding keeps padding at the end. */
  lemma {:induction false} PiecesPadded(ps: seq<Piece>)
    requires ValidPieces(ps)
    ensures Padded(PiecesValue(ps)) ==> Padded(PiecesText(ps))
    ensures Padding(PiecesValue(ps)) ==> Padding(PiecesText(ps))
  {
    if ps != [] {
      var p, x, y := ps[0], PiecesValue(ps[1..]), PiecesText(ps[1..]);
      ValidPiecesTail(ps);
      PiecesPadded(ps[1..]);
      if Padded(p.val + x) { PaddedPrepend(p.val, x, y); }
      if Padding(p.val + x) { PaddingPrepend(p.val, x, y); }
      BlankPrepend(p.ws, p.val + y);
      assert p.ws + p.val + y == p.ws + (p.val + y);
    }
  }

  lemma {:induction false} RawPadded(b: Body)
    requires ValidBody(b) && Padded(BodyValue(b))
    ensures Padded(BodyRaw(b))
  {
    PiecesPadded(b.more);
    PaddedPrepend(b.first, PiecesValue(b.more), PiecesText(b.more));
  }

  // ---- where the signature's text can occur -----------------------------------------------------

  /** A header up to `b=`, the signature's text with the blanks around it, and the final semicolon. */
  function Around(u: string, lead: string, raw: string, trail: string): string {
    u + (lead + raw + trail) + ";"
  }

  /** A text that begins and ends like a folded signature. */
  predicate Proper(raw: string) {
    raw != "" && In(ValChar, raw[0]) && raw[0] != '=' && In(ValChar, raw[|raw| - 1]) && Padded(raw)
  }

  lemma {:induction false} AroundAt(u: string, lead: string, raw: string, trail: string, j: nat)
    requires All(Fws, lead) && All(Fws, trail) && j < |Around(u, lead, raw, trail)|
    ensures var c, p := Around(u, lead, raw, trail)[j], |u| + |lead|;
            if j < |u| then c == u[j]
            else if j < p then In(Fws, c)
            else if j < p + |raw| then c == raw[j - p]
            else !In(ValChar, c)
  {
  }

  lemma {:induction false} CharAt(s: string, i: nat, t: string, m: nat)
    requires At(s, i, t) && m < |t|
    ensures s[i + m] == t[m]
  {
    assert s[i..i + |t|][m] == s[i + m];
  }

  lemma {:induction false} AtPrefix(u: string, rest: string, i: nat, raw: string)
    requires i + |raw| <= |u|
    ensures At(u + rest, i, raw) <==> At(u, i, raw)
  {
    assert (u + rest)[i..i + |raw|] == u[i..i + |raw|];
  }

  /** The signature's text occurs where it was put, perhaps before `b=`, and nowhere else. */
  lemma {:induction false} OnlyHere(u: string, lead: string, raw: string, trail: string, i: nat)
    requires Proper(raw) && All(Fws, lead) && All(Fws, trail) && u != "" && u[|u| - 1] == '='
    ensures At(Around(u, lead, raw, trail), i, raw) ==> At(u, i, raw) || i == |u| + |lead|
  {
    var text, p := Around(u, lead, raw, trail), |u| + |lead|;
    if i + |raw| <= |u| {
      AtPrefix(u, lead + raw + trail + ";", i, raw);
      assert text == u + (lead + raw + trail + ";");
    } else if i > p || i + |raw| <= p {
      EndsElsewhere(u, lead, raw, trail, i, |raw| - 1);
    } else if |u| <= i < p {
      StartsElsewhere(u, lead, raw, trail, i);
    } else if i < p {
      Straddles(u, lead, raw, trail, i, |u| - 1 - i, p - i);
    }
  }

  lemma {:induction false} EndsElsewhere(u: string, lead: string, raw: string, trail: string, i: nat, last: nat)
    requires Proper(raw) && All(Fws, lead) && All(Fws, trail) && last == |raw| - 1
    requires i > |u| + |lead| || |u| <= i + last < |u| + |lead|
    ensures !At(Around(u, lead, raw, trail), i, raw)
  {
    if At(Around(u, lead, raw, trail), i, raw) {
      CharAt(Around(u, lead, raw, trail), i, raw, last);
      AroundAt(u, lead, raw, trail, i + last);
    }
  }

  lemma {:induction false} StartsElsewhere(u: string, lead: string, raw: string, trail: string, i: nat)
    requires Proper(raw) && All(Fws, lead) && All(Fws, trail) && |u| <= i < |u| + |lead|
    ensures !At(Around(u, lead, raw, trail), i, raw)
  {
    AroundAt(u, lead, raw, trail, i);
  }

  lemma {:induction false} Straddles(u: string, lead: string, raw: string, trail: string, i: nat, k: nat, m: nat)
    requires Proper(raw) && All(Fws, lead) && All(Fws, trail) && u != "" && u[|u| - 1] == '='
    requires i + k == |u| - 1 && i + m == |u| + |lead| && m < |raw|
    ensures !At(Around(u, lead, raw, trail), i, raw)
  {
    var text := Around(u, lead, raw, trail);
    AroundAt(u, lead, raw, trail, i + k);
    AroundAt(u, lead, raw, trail, i + m);
    if At(text, i, raw) {
      CharAt(text, i, raw, k);
      CharAt(text, i, raw, m);
      PaddedAfter(raw, k, m);
    }
  }

  lemma {:induction false} PiecesLast(ps: seq<Piece>)
    requires ps != [] && ValidPieces(ps)
    ensures PiecesText(ps) != "" && In(ValChar, PiecesText(ps)[|PiecesText(ps)| - 1])
  {
    ValidPiecesTail(ps);
    if |ps| > 1 { PiecesLast(ps[1..]); }
  }

  lemma {:induction false} RawProper(b: Body)
    requires ValidBody(b) && b.first != "" && b.first[0] != '=' && Padded(BodyValue(b))
    ensures Proper(BodyRaw(b))
  {
    RawPadded(b);
    if b.more != [] { PiecesLast(b.more); }
  }

  /** The signature as it is printed. */
  lemma {:induction false} SignatureProper(tags: seq<Tag>, sig: string)
    requires Base64Like(sig)
    ensures var b := BBody(sig);
            && Proper(BodyRaw(b)) && All(Fws, b.lead) && All(Fws, b.trail)
            && SecondPass(tags, sig) == Around(UpToB(tags), b.lead, BodyRaw(b), b.trail)
  {
    var b := BBody(sig);
    SerializedB(tags, sig);
    SignatureBody(sig);
    RawEmpty(sig);
    RawProper(b);
  }

  lemma {:induction false} UpToBEnds(tags: seq<Tag>)
    ensures var u := UpToB(tags); u != "" && u[|u| - 1] == '='
  {
  }

  /** What the signature stands for and where it begins, in the printed body. */
  lemma {:induction false} SignatureBody(sig: string)
    requires All(ValChar, sig) && sig != ""
    ensures var b := BBody(sig); ValidBody(b) && BodyValue(b) == sig && b.first != "" && b.first[0] == sig[0]
  {
    var toks := ValueToks(2, "b", sig);
    ValueToksOf(2, "b", sig);
    NormalOf(toks, sig);
  }

  // ---- exactly when the texts agree -----------------------------------------------------------------

  lemma {:induction false} AtOwnPlace(u: string, lead: string, raw: string, trail: string)
    ensures At(Around(u, lead, raw, trail), |u| + |lead|, raw)
  {
    var p := |u| + |lead|;
    assert Around(u, lead, raw, trail)[p..p + |raw|] == raw;
  }

  lemma {:induction false} OnceUnlessBefore(tags: seq<Tag>, sig: string)
    requires Base64Like(sig) && !Occurs(UpToB(tags), BodyRaw(BBody(sig)))
    ensures OnceInHeader(tags, sig)
  {
    var b := BBody(sig);
    SignatureProper(tags, sig);
    UpToBEnds(tags);
    OnlyAtOwnPlace(UpToB(tags), b.lead, BodyRaw(b), b.trail);
  }

  lemma {:induction false} OnlyAtOwnPlace(u: string, lead: string, raw: string, trail: string)
    requires Proper(raw) && All(Fws, lead) && All(Fws, trail) && u != "" && u[|u| - 1] == '=' && !Occurs(u, raw)
    ensures OccursOnlyAt(Around(u, lead, raw, trail), raw, |u| + |lead|)
  {
    AtOwnPlace(u, lead, raw, trail);
    forall i: nat | At(Around(u, lead, raw, trail), i, raw) ensures i == |u| + |lead| {
      OnlyHere(u, lead, raw, trail, i);
    }
  }

  lemma {:induction false} SolidsBlank(s: string)
    requires All(Fws, s)
    ensures Solids(s) == 0
  {
    if s != "" { SolidsBlank(s[..|s| - 1]); }
  }

  lemma {:induction false} SolidsAround(u: string, lead: string, raw: string, trail: string)
    requires All(Fws, lead) && All(Fws, trail)
    ensures Solids(Around(u, lead, raw, trail)) == Solids(u + ";") + Solids(raw)
  {
    var inner := lead + raw + trail;
    SolidsConcat(u + inner, ";");
    SolidsConcat(u, inner);
    SolidsConcat(lead + raw, trail);
    SolidsConcat(lead, raw);
    SolidsConcat(u, ";");
    SolidsBlank(lead);
    SolidsBlank(trail);
  }

  lemma {:induction false} TooMuchCut(u: string, lead: string, raw: string, trail: string, i: nat)
    requires Proper(raw) && All(Fws, lead) && All(Fws, trail) && At(u, i, raw)
    ensures Solids(Replace(Around(u, lead, raw, trail), raw)) < Solids(u + ";")
  {
    var rest := lead + raw + trail + ";";
    assert Around(u, lead, raw, trail) == u + rest;
    AtPrefix(u, rest, i, raw);
    AtOwnPlace(u, lead, raw, trail);
    ReplaceMuchFewer(Around(u, lead, raw, trail), raw, i, |u| + |lead|);
    SolidsAround(u, lead, raw, trail);
    SolidsFirst(raw);
  }

  /** If the signature's text also stands before `b=`, too much is cut out, and both forms differ. */
  lemma {:induction false} RepeatedTextDiffers(ty: Type, name: string, tags: seq<Tag>, sig: string, i: nat)
    requires Base64Like(sig) && At(UpToB(tags), i, BodyRaw(BBody(sig)))
    ensures CanonHeader(ty, name, Replace(SecondPass(tags, sig), BodyRaw(BBody(sig))))
         != CanonHeader(ty, name, FirstPass(tags))
  {
    var b, u := BBody(sig), UpToB(tags);
    SignatureProper(tags, sig);
    FirstPassText(tags);
    TooMuchCut(u, b.lead, BodyRaw(b), b.trail, i);
    FewerDiffers(ty, name, Replace(SecondPass(tags, sig), BodyRaw(b)), u + ";");
  }

  lemma {:induction false} FewerDiffers(ty: Type, name: string, v: string, w: string)
    requires Solids(v) < Solids(w)
    ensures CanonHeader(ty, name, v) != CanonHeader(ty, name, w)
  {
    if CanonHeader(ty, name, v) == CanonHeader(ty, name, w) { CanonSolids(ty, name, v, w); }
  }

  /**
   * What the verifier canonicalises equals what the signer canonicalised exactly when no fold falls
   * before or after the signature and its text does not also stand before `b=`.
   */
  lemma {:induction false} SameTextExactly(ty: Type, name: string, tags: seq<Tag>, sig: string)
    requires (forall t | t in tags :: ValidTag(t)) && Base64Like(sig)
    ensures CanonHeader(ty, name, Replace(SecondPass(tags, sig), BodyRaw(BBody(sig))))
            == CanonHeader(ty, name, FirstPass(tags))
            <==> FoldSafe(|sig|) && !Occurs(UpToB(tags), BodyRaw(BBody(sig)))
  {
    if Occurs(UpToB(tags), BodyRaw(BBody(sig))) {
      var i: nat :| At(UpToB(tags), i, BodyRaw(BBody(sig)));
      RepeatedTextDiffers(ty, name, tags, sig, i);
    } else {
      OnceUnlessBefore(tags, sig);
      SameTextIff(ty, name, tags, sig);
    }
  }

  /** A signature that reads like the text of an earlier tag is cut out of both places. */
  lemma {:induction false} RepeatedText(ty: Type, name: string)
    ensures var tags, sig := [Tag("d", "AAAA", "AAAA")], "AAAA";
            && FoldSafe(|sig|)
            && CanonHeader(ty, name, Replace(SecondPass(tags, sig), BodyRaw(BBody(sig))))
               != CanonHeader(ty, name, FirstPass(tags))
  {
    var tag, sig := Tag("d", "AAAA", "AAAA"), "AAAA";
    var toks := [Val(sig)] + [];
    OneTokEnds(sig);
    NormalCons(Val(sig), []);
    assert BodyRaw(BBody(sig)) == sig && ItemText(TagItem(0, tag)) == "d=AAAA";
    RenderNext([tag], 0);
    assert UpToB([tag])[2..6] == "AAAA";
    RepeatedTextDiffers(ty, name, [tag], sig, 2);
  }
}
