/**
 * Two-pass signing: a header is printed first with an empty `b=` and then with the signature in it,
 * and a verifier cuts the signature's text out again.  When do both hash the same text?
 */
module DkimTwoPass {
  import opened Common
  import opened DkimText
  import opened DkimParser
  import opened DkimHeader
  import opened DkimCanon

  // ---- cutting text out ----------------------------------------------------------------

  /** `s.replace(pat, "")`: every occurrence, from the left and not overlapping, is removed. */
  function Replace(s: string, pat: string): string
    decreases |s|
  {
    if pat == "" || |s| < |pat| then s
    else if s[..|pat|] == pat then Replace(s[|pat|..], pat)
    else s[..1] + Replace(s[1..], pat)
  }

  ghost predicate Occurs(s: string, pat: string) {
    exists i: nat :: At(s, i, pat)
  }

  /** `pat` stands in `s` at `p` and nowhere else. */
  ghost predicate OccursOnlyAt(s: string, pat: string, p: nat) {
    At(s, p, pat) && forall i: nat | At(s, i, pat) :: i == p
  }

  lemma {:induction false} AtShift(s: string, k: nat, i: nat, pat: string)
    requires k <= |s|
    ensures At(s[k..], i, pat) <==> At(s, i + k, pat)
  {
    if i + k + |pat| <= |s| { assert s[k..][i..i + |pat|] == s[i + k..i + k + |pat|]; }
  }

  lemma {:induction false} ReplaceNone(s: string, pat: string)
    requires pat != "" && forall i: nat :: !At(s, i, pat)
    ensures Replace(s, pat) == s
    decreases |s|
  {
    if |s| >= |pat| {
      assert !At(s, 0, pat);
      forall i: nat ensures !At(s[1..], i, pat) { AtShift(s, 1, i, pat); }
      ReplaceNone(s[1..], pat);
    }
  }

  lemma {:induction false} ReplaceFront(s: string, pat: string)
    requires pat != "" && OccursOnlyAt(s, pat, 0)
    ensures Replace(s, pat) == s[|pat|..]
  {
    var t := s[|pat|..];
    forall i: nat ensures !At(t, i, pat) { AtShift(s, |pat|, i, pat); }
    ReplaceNone(t, pat);
  }

  lemma {:induction false} CutTail(s: string, n: nat, p: nat)
    requires 0 < p && p + n <= |s|
    ensures s[..1] + (s[1..][..p - 1] + s[1..][p - 1 + n..]) == s[..p] + s[p + n..]
  {
    assert s[1..][p - 1 + n..] == s[p + n..] && s[..1] + s[1..][..p - 1] == s[..p];
  }

  /** A text that occurs once is cut out, and nothing else. */
  lemma {:induction false} ReplaceOnce(s: string, pat: string, p: nat)
    requires pat != "" && OccursOnlyAt(s, pat, p)
    ensures Replace(s, pat) == s[..p] + s[p + |pat|..]
    decreases |s|
  {
    if p == 0 {
      ReplaceFront(s, pat);
    } else {
      assert !At(s, 0, pat);
      OccursTail(s, pat, p);
      ReplaceOnce(s[1..], pat, p - 1);
      CutTail(s, |pat|, p);
    }
  }

  lemma {:induction false} OccursTail(s: string, pat: string, p: nat)
    requires p > 0 && OccursOnlyAt(s, pat, p)
    ensures OccursOnlyAt(s[1..], pat, p - 1)
  {
    AtShift(s, 1, p - 1, pat);
    forall i: nat | At(s[1..], i, pat) ensures i == p - 1 { AtShift(s, 1, i, pat); }
  }

  // ---- the last tag ----------------------------------------------------------------------

  function ColAfter(tags: seq<Tag>, col: nat): nat {
    if tags == [] then col else ColAfter(tags[1..], TagCol(col, tags[0]))
  }

  lemma {:induction false} LayoutSnoc(tags: seq<Tag>, t: Tag, col: nat)
    ensures Layout(tags + [t], col) == Layout(tags, col) + [TagItem(ColAfter(tags, col), t)]
    decreases tags
  {
    if tags == [] {
      assert tags + [t] == [t] && [t][1..] == [];
    } else {
      assert (tags + [t])[1..] == tags[1..] + [t];
      LayoutSnoc(tags[1..], t, TagCol(col, tags[0]));
    }
  }

  lemma {:induction false} RenderSnoc(items: seq<Item>, it: Item)
    ensures Render(items + [it]) == Render(items) + (ItemText(it) + ";")
  {
    if items == [] {
      assert items + [it] == [it] && [it][1..] == [];
    } else {
      assert (items + [it])[1..] == items[1..] + [it];
      RenderSnoc(items[1..], it);
    }
  }

  function BTag(sig: string): Tag { Tag("b", sig, sig) }

  /** How the signature is printed: `b=` always starts a line, so it begins in column 2. */
  function BBody(sig: string): Body {
    Normal(ValueToks(2, "b", sig))
  }

  /** The text up to and including `b=`; it does not depend on the signature. */
  function UpToB(tags: seq<Tag>): string {
    Render(Layout(tags, 0)) + ((if ColAfter(tags, 0) == 0 then "" else FOLD) + "b=")
  }

  lemma {:induction false} SerializedB(tags: seq<Tag>, sig: string)
    ensures Layout(tags + [BTag(sig)], 0) == Layout(tags, 0) + [TagItem(ColAfter(tags, 0), BTag(sig))]
    ensures TagItem(ColAfter(tags, 0), BTag(sig)).body == BBody(sig)
    ensures Serialized(tags + [BTag(sig)]) == UpToB(tags) + BodyText(BBody(sig)) + ";"
  {
    var col := ColAfter(tags, 0);
    var it := TagItem(col, BTag(sig));
    LayoutSnoc(tags, BTag(sig), 0);
    RenderSnoc(Layout(tags, 0), it);
    BItemText(col, sig);
    Assoc4(Render(Layout(tags, 0)), (if col == 0 then "" else FOLD) + "b=", BodyText(BBody(sig)), ";");
  }

  lemma {:induction false} BItemText(col: nat, sig: string)
    ensures TagItem(col, BTag(sig)).body == BBody(sig)
    ensures ItemText(TagItem(col, BTag(sig))) == ((if col == 0 then "" else FOLD) + "b=") + BodyText(BBody(sig))
  {
    assert TagItem(col, BTag(sig)).pre + "b" + "=" == (if col == 0 then "" else FOLD) + "b=";
  }

  // ---- where the folds of a signature fall ---------------------------------------------------

  /** No fold lands before the first or after the last character of a signature of this length. */
  predicate FoldSafe(n: nat) {
    n < 73 || (n >= 75 && (n - 73) % 75 != 0)
  }

  lemma {:induction false} NormalCons(t: Tok, ts: seq<Tok>)
    ensures Normal([t] + ts) == if t.Ws? then PrependWs(t.s, Normal(ts)) else PrependVal(t.s, Normal(ts))
  {
    assert ([t] + ts)[1..] == ts;
  }

  /** A text that begins with a value and is followed by this whitespace. */
  predicate Ends(b: Body, trail: string) {
    b.lead == "" && b.first != "" && b.trail == trail
  }

  lemma {:induction false} PlainEnds(c: string, rest: seq<Tok>, trail: string)
    requires c != "" && if rest == [] then trail == "" else Ends(Normal(rest), trail)
    ensures Ends(Normal([Val(c)] + rest), trail)
  {
    NormalCons(Val(c), rest);
  }

  lemma {:induction false} FoldEnds(c: string, rest: seq<Tok>, trail: string)
    requires c != "" && if rest == [] then trail == FOLD else Ends(Normal(rest), trail)
    ensures Ends(Normal([Val(c)] + ([Ws(FOLD)] + rest)), trail)
  {
    NormalCons(Ws(FOLD), rest);
    NormalCons(Val(c), [Ws(FOLD)] + rest);
    assert FOLD + "" == FOLD;
  }

  lemma {:induction false} BreakEnds(col: nat, value: string)
    requires value != "" && col < WIDTH
    ensures Ends(Normal(BreakToks(col, value)), if (col + |value|) % WIDTH == 0 then FOLD else "")
    decreases value
  {
    var x, trail := value[1..], if (col + |value|) % WIDTH == 0 then FOLD else "";
    SameColumn(col, |value|);
    if col + 1 >= WIDTH {
      if x != "" { BreakEnds(0, x); }
      FoldEnds(value[..1], BreakToks(0, x), trail);
    } else {
      if x != "" { BreakEnds(col + 1, x); }
      PlainEnds(value[..1], BreakToks(col + 1, x), trail);
    }
  }

  lemma {:induction false} SameColumn(col: nat, n: nat)
    requires col < WIDTH && n > 0
    ensures (col + n) % WIDTH == ((if col + 1 >= WIDTH then 0 else col + 1) + (n - 1)) % WIDTH
  {
  }

  lemma {:induction false} OneTokEnds(sig: string)
    ensures var b := Normal([Val(sig)] + []);
            b.lead == "" && b.first == sig && b.trail == ""
  {
    NormalCons(Val(sig), []);
    assert sig + "" == sig;
  }

  /** The signature is printed with whitespace before or after it exactly when its length is not fold-safe. */
  lemma {:induction false} BBodyEnds(sig: string)
    ensures FoldSafe(|sig|) ==> BBody(sig).lead == "" && BBody(sig).trail == ""
    ensures !FoldSafe(|sig|) ==> BBody(sig).first != ""
    ensures !FoldSafe(|sig|) ==> BBody(sig).lead + BBody(sig).trail in {FOLD, FOLD + "\t"}
  {
    if |sig| < 73 {
      OneTokEnds(sig);
    } else if |sig| >= 75 {
      BreakEnds(2, sig);
      assert "" + FOLD == FOLD;
    } else {
      NewLineEnds(sig);
    }
  }

  /** A signature of 73 or 74 characters goes on a line of its own. */
  lemma {:induction false} NewLineEnds(sig: string)
    requires 73 <= |sig| < 75
    ensures BBody(sig).first == sig && BBody(sig).lead + BBody(sig).trail == FOLD + "\t"
  {
    OneTokEnds(sig);
    NormalCons(Ws(FOLD + "\t"), [Val(sig)] + []);
    assert FOLD + "\t" + "" + "" == FOLD + "\t";
  }

  // ---- what the verifier is left with ---------------------------------------------------------

  function FirstPass(tags: seq<Tag>): string { Serialized(tags + [BTag("")]) }

  function SecondPass(tags: seq<Tag>, sig: string): string { Serialized(tags + [BTag(sig)]) }

  /** The text of `b=` as it stands in the second pass occurs there once. */
  ghost predicate OnceInHeader(tags: seq<Tag>, sig: string) {
    sig != "" ==> exists p: nat :: OccursOnlyAt(SecondPass(tags, sig), BodyRaw(BBody(sig)), p)
  }

  lemma {:induction false} FirstPassText(tags: seq<Tag>)
    ensures FirstPass(tags) == UpToB(tags) + ";"
  {
    SerializedB(tags, "");
    OneTokEnds("");
    NormalText([Val("")] + []);
    ToksTextCons(Val(""), []);
    assert UpToB(tags) + "" + ";" == UpToB(tags) + ";";
  }

  lemma {:induction false} RawEmpty(sig: string)
    requires All(ValChar, sig)
    ensures BodyRaw(BBody(sig)) == "" ==> sig == ""
  {
    ValueToksOf(2, "b", sig);
    NormalOf(ValueToks(2, "b", sig), sig);
  }

  /** Cutting the signature out leaves the whitespace that was folded around it. */
  lemma {:induction false} CutText(tags: seq<Tag>, sig: string)
    requires All(ValChar, sig) && OnceInHeader(tags, sig)
    ensures var b := BBody(sig);
            Replace(SecondPass(tags, sig), BodyRaw(b)) == UpToB(tags) + (b.lead + b.trail) + ";"
  {
    var b, upTo, text := BBody(sig), UpToB(tags), SecondPass(tags, sig);
    SerializedB(tags, sig);
    RawEmpty(sig);
    if sig == "" {
      OneTokEnds("");
      FirstPassText(tags);
      assert upTo + ("" + "") + ";" == upTo + ";";
    } else {
      var p: nat :| OccursOnlyAt(text, BodyRaw(b), p);
      CutAt(upTo, b, text, p);
    }
  }

  lemma {:induction false} CutPieces(a: string, raw: string, c: string, p: nat)
    requires raw != "" && OccursOnlyAt(a + raw + c, raw, p)
    ensures Replace(a + raw + c, raw) == a + c
  {
    var text := a + raw + c;
    assert text[|a|..|a| + |raw|] == raw;
    assert At(text, |a|, raw);
    ReplaceOnce(text, raw, p);
    assert text[..|a|] == a && text[|a| + |raw|..] == c;
  }

  lemma {:induction false} CutAt(upTo: string, b: Body, text: string, p: nat)
    requires text == upTo + BodyText(b) + ";" && BodyRaw(b) != "" && OccursOnlyAt(text, BodyRaw(b), p)
    ensures Replace(text, BodyRaw(b)) == upTo + (b.lead + b.trail) + ";"
  {
    Assoc5(upTo, b.lead, BodyRaw(b), b.trail, ";");
    Assoc4(upTo, b.lead, b.trail, ";");
    Assoc3(upTo + b.lead, b.trail, ";");
    CutPieces(upTo + b.lead, BodyRaw(b), b.trail + ";", p);
  }

  // ---- canonical forms --------------------------------------------------------------------------

  lemma {:induction false} FlattenAppend(a: string, b: string, run: bool)
    requires a != "" && !In(Fws, a[|a| - 1])
    ensures Flatten(a + b, run) == Flatten(a, run) + Flatten(b, false)
    decreases |a|
  {
    assert (a + b)[1..] == a[1..] + b && (a + b)[..1] == a[..1];
    if |a| == 1 {
      assert a[1..] + b == b && a[1..] == "" && a[..1] + "" == a[..1];
    } else {
      FlattenAppend(a[1..], b, if a[0] == '\r' || a[0] == '\n' then run else Wsp(a[0]));
    }
  }

  lemma {:induction false} FlattenWs(tabs: string)
    requires tabs == "\t;" || tabs == "\t\t;"
    ensures Flatten(CRLF + tabs, false) == " ;"
  {
    var s := CRLF + tabs;
    assert s[1..] == "\n" + tabs && ("\n" + tabs)[1..] == tabs;
    assert "\t;"[1..] == ";" && ";"[1..] == "" && "\t\t;"[1..] == "\t;";
    assert Flatten(";", true) == ";" && Flatten("\t;", true) == ";";
    assert Flatten(tabs, false) == " " + Flatten(tabs[1..], true) == " ;";
    assert Flatten("\n" + tabs, false) == Flatten(tabs, false);
  }

  predicate Solid(s: string) {
    s != "" && !In(Fws, s[0]) && !In(Fws, s[|s| - 1])
  }

  lemma {:induction false} RelaxSolid(s: string)
    requires Solid(s)
    ensures RelaxValue(s) == Flatten(s, false)
  {
  }

  /** Whitespace left before the final semicolon changes both canonical forms. */
  lemma {:induction false} LeftoverShows(ty: Type, name: string, upTo: string, ws: string)
    requires Solid(upTo) && ws in {FOLD, FOLD + "\t"}
    ensures |CanonHeader(ty, name, upTo + ws + ";")| > |CanonHeader(ty, name, upTo + ";")|
  {
    if ty.Relaxed? {
      RelaxSolid(upTo + ws + ";");
      RelaxSolid(upTo + ";");
      assert upTo + ws + ";" == upTo + (ws + ";");
      FlattenAppend(upTo, ws + ";", false);
      FlattenAppend(upTo, ";", false);
      assert FOLD + ";" == CRLF + "\t;" && FOLD + "\t" + ";" == CRLF + "\t\t;";
      FlattenWs(if ws == FOLD then "\t;" else "\t\t;");
      assert ";"[1..] == "" && Flatten(";", false) == ";";
    }
  }

  lemma {:induction false} UpToBSolid(tags: seq<Tag>)
    requires forall t | t in tags :: ValidTag(t)
    ensures Solid(UpToB(tags))
  {
    var s := UpToB(tags);
    assert s[|s| - 1] == '=';
    if tags == [] {
      assert s == "b=";
    } else {
      assert ValidTag(tags[0]);
      var it := TagItem(0, tags[0]);
      assert s[0] == ItemText(it)[0] == tags[0].name[0];
      assert In(Alpha, tags[0].name[0]);
    }
  }

  lemma {:induction false} LeftoverIff(ty: Type, name: string, tags: seq<Tag>, sig: string)
    requires forall t | t in tags :: ValidTag(t)
    ensures var b := BBody(sig);
            CanonHeader(ty, name, UpToB(tags) + (b.lead + b.trail) + ";") == CanonHeader(ty, name, UpToB(tags) + ";")
            <==> FoldSafe(|sig|)
  {
    var b := BBody(sig);
    BBodyEnds(sig);
    if FoldSafe(|sig|) {
      assert UpToB(tags) + (b.lead + b.trail) + ";" == UpToB(tags) + ";";
    } else {
      UpToBSolid(tags);
      LeftoverShows(ty, name, UpToB(tags), b.lead + b.trail);
    }
  }

  /** What the verifier canonicalises is never shorter than what the signer canonicalised. */
  lemma {:induction false} CutNotShorter(ty: Type, name: string, tags: seq<Tag>, sig: string)
    requires (forall t | t in tags :: ValidTag(t)) && All(ValChar, sig) && OnceInHeader(tags, sig)
    ensures |CanonHeader(ty, name, Replace(SecondPass(tags, sig), BodyRaw(BBody(sig))))|
            >= |CanonHeader(ty, name, FirstPass(tags))|
  {
    var b := BBody(sig);
    CutText(tags, sig);
    FirstPassText(tags);
    LeftoverIff(ty, name, tags, sig);
    if !FoldSafe(|sig|) {
      BBodyEnds(sig);
      UpToBSolid(tags);
      LeftoverShows(ty, name, UpToB(tags), b.lead + b.trail);
    }
  }

  /**
   * What the verifier canonicalises equals what the signer canonicalised exactly when no fold falls
   * before or after the signature.
   */
  lemma {:induction false} SameTextIff(ty: Type, name: string, tags: seq<Tag>, sig: string)
    requires (forall t | t in tags :: ValidTag(t)) && All(ValChar, sig) && OnceInHeader(tags, sig)
    ensures CanonHeader(ty, name, Replace(SecondPass(tags, sig), BodyRaw(BBody(sig))))
            == CanonHeader(ty, name, FirstPass(tags))
            <==> FoldSafe(|sig|)
  {
    CutText(tags, sig);
    FirstPassText(tags);
    LeftoverIff(ty, name, tags, sig);
  }
}
