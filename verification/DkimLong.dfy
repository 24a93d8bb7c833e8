/**
 * A signature of 75 characters or more is folded in the middle, behind 73 characters without a dot, as
 * nothing before `b=` is when the other values are short or dotted: its text then occurs only once.
 */
module DkimLong {
  import opened Common
  import opened DkimText
  import opened Strings
  import opened DkimParser
  import opened DkimHeader
  import opened DkimCanon
  import opened DkimTwoPass
  import opened DkimExact

  /** A line is broken right after one VALCHAR and right before another. */
  predicate TornAt(s: string, j: nat) {
    j + 4 < |s| && In(ValChar, s[j]) && At(s, j + 1, FOLD) && In(ValChar, s[j + 4])
  }

  /** One of the 73 characters up to `j` is a dot. */
  predicate DotBefore(s: string, j: nat) {
    72 <= j < |s| && '.' in s[j - 72..j + 1]
  }

  /** Lines are broken between VALCHARs only behind a dot. */
  ghost predicate Untorn(s: string) {
    forall j: nat | TornAt(s, j) :: DotBefore(s, j)
  }

  /** Every line break is followed by two tabs. */
  ghost predicate Tabbed(s: string) {
    forall k: nat | k < |s| && s[k] == '\r' :: k + 3 < |s| && s[k + 3] == '\t'
  }

  // ---- values ------------------------------------------------------------------------------

  lemma {:induction false} TabbedConcat(a: string, b: string)
    requires Tabbed(a) && Tabbed(b)
    ensures Tabbed(a + b)
  {
  }

  lemma {:induction false} ValTabbed(v: string)
    requires All(ValChar, v)
    ensures Tabbed(v)
  {
    forall k: nat | k < |v| ensures v[k] != '\r' { assert In(ValChar, v[k]); }
  }

  lemma {:induction false} WsTabbed(col: nat, name: string)
    ensures Tabbed(NameWs(col, name)) && Tabbed(FOLD + "\t")
  {
  }

  lemma {:induction false} NamesTabbed(col: nat, names: seq<string>, sep: string)
    requires All(ValChar, sep) && forall n | n in names :: All(ValChar, n)
    ensures Tabbed(ToksText(NamesToks(col, names, sep)))
    decreases names
  {
    if names != [] {
      var c, name := col + |sep|, names[0];
      var ws, rest := NameWs(c, name), NamesToks(AfterName(c, name), names[1..], ":");
      assert name in names && forall n | n in names[1..] :: n in names;
      NamesTabbed(AfterName(c, name), names[1..], ":");
      NamesFirst(col, names, sep);
      ThreeTabbed(sep, ws, name, rest, c);
    }
  }

  lemma {:induction false} ThreeTabbed(sep: string, ws: string, name: string, rest: seq<Tok>, c: nat)
    requires All(ValChar, sep) && All(ValChar, name) && ws == NameWs(c, name) && Tabbed(ToksText(rest))
    ensures Tabbed(ToksText([Val(sep)] + ([Ws(ws)] + ([Val(name)] + rest))))
  {
    ToksTextCons(Val(name), rest);
    ToksTextCons(Ws(ws), [Val(name)] + rest);
    ToksTextCons(Val(sep), [Ws(ws)] + ([Val(name)] + rest));
    ValTabbed(sep);
    ValTabbed(name);
    WsTabbed(c, name);
    TabbedConcat(name, ToksText(rest));
    TabbedConcat(ws, name + ToksText(rest));
    TabbedConcat(sep, ws + (name + ToksText(rest)));
  }

  /** A dot in every 73 characters, as in any domain name. */
  predicate Dotted(v: string) {
    forall j | 72 <= j < |v| :: DotBefore(v, j)
  }

  /** A value that is a header list, fits on a line of its own or, under a name of one letter, is dotted. */
  predicate Tame(tag: Tag) {
    FitsLine(tag) || (|tag.name| == 1 && Dotted(tag.value))
  }

  predicate FitsLine(tag: Tag) {
    tag.name == "h" || |tag.value| < WIDTH
  }

  lemma {:induction false} ValueTabbed(col: nat, tag: Tag)
    requires All(ValChar, tag.value) && FitsLine(tag)
    ensures Tabbed(ToksText(ValueToks(col, tag.name, tag.value)))
  {
    var value := tag.value;
    ToksTextCons(Val(value), []);
    ToksTextCons(Ws(FOLD + "\t"), [Val(value)] + []);
    ValTabbed(value);
    assert value + "" == value;
    if col + |value| < WIDTH {
    } else if tag.name == "h" {
      SplitClass(value, ':');
      NamesTabbed(col, Split(value, ':'), "");
    } else {
      WsTabbed(0, "");
      TabbedConcat(FOLD + "\t", value);
    }
  }

  // ---- values too long for a line --------------------------------------------------------------

  /** The first line of a broken value. */
  lemma {:induction false} BreakLine(col: nat, value: string, n: nat)
    requires col + n == WIDTH && 0 < n <= |value|
    ensures ToksText(BreakToks(col, value)) == value[..n] + (FOLD + ToksText(BreakToks(0, value[n..])))
    decreases n
  {
    var c, x := Val(value[..1]), value[1..];
    if n == 1 {
      ToksTextCons(Ws(FOLD), BreakToks(0, x));
      ToksTextCons(c, [Ws(FOLD)] + BreakToks(0, x));
    } else {
      BreakLine(col + 1, x, n - 1);
      ToksTextCons(c, BreakToks(col + 1, x));
      assert x[n - 1..] == value[n..];
      FirstChar(value, n, FOLD + ToksText(BreakToks(0, value[n..])));
    }
  }

  lemma {:induction false} FirstChar(v: string, n: nat, rest: string)
    requires 0 < n <= |v|
    ensures v[..1] + (v[1..][..n - 1] + rest) == v[..n] + rest
  {
  }

  lemma {:induction false} BreakNothing(col: nat, value: string)
    requires col + |value| < WIDTH
    ensures ToksText(BreakToks(col, value)) == value
    decreases value
  {
    if value != "" {
      BreakNothing(col + 1, value[1..]);
      ToksTextCons(Val(value[..1]), BreakToks(col + 1, value[1..]));
      assert value[..1] + value[1..] == value;
    }
  }

  lemma {:induction false} SolidUntorn(v: string)
    requires All(ValChar, v)
    ensures Untorn(v)
  {
    forall j: nat ensures !TornAt(v, j) {
      if TornAt(v, j) { TornChars(v, j); }
    }
  }

  lemma {:induction false} DotLater(a: string, b: string, j: nat)
    requires DotBefore(b, j)
    ensures DotBefore(a + b, |a| + j)
  {
    assert (a + b)[|a| + j - 72..|a| + j + 1] == b[j - 72..j + 1];
  }

  lemma {:induction false} DotStays(a: string, b: string, j: nat)
    requires DotBefore(a, j)
    ensures DotBefore(a + b, j)
  {
    assert (a + b)[j - 72..j + 1] == a[j - 72..j + 1];
  }

  /** A line of VALCHARs that ends in a dotted stretch, a fold and what follows. */
  lemma {:induction false} LineUntorn(a: string, t: string)
    requires All(ValChar, a) && a != "" && DotBefore(a, |a| - 1) && Untorn(t)
    ensures Untorn(a + (FOLD + t))
  {
    var s, n := a + (FOLD + t), |a|;
    forall k | 0 <= k < n ensures s[k] == a[k] != '\r' { assert In(ValChar, a[k]); }
    forall j: nat | TornAt(s, j) ensures DotBefore(s, j) {
      TornChars(s, j);
      if j + 1 == n {
        DotStays(a, FOLD + t, j);
      } else {
        assert s == (a + FOLD) + t && j >= n + 3;
        TornSuffix(a + FOLD, t, j);
        DotLater(a + FOLD, t, j - n - 3);
      }
    }
  }

  lemma {:induction false} BrokenUntorn(col: nat, value: string)
    requires col <= 2 && All(ValChar, value) && Dotted(value)
    ensures Untorn(ToksText(BreakToks(col, value)))
    decreases |value|
  {
    var n := WIDTH - col;
    if |value| < n {
      BreakNothing(col, value);
      SolidUntorn(value);
    } else {
      var a, rest := value[..n], value[n..];
      BreakLine(col, value, n);
      DottedTail(value, n);
      BrokenUntorn(0, rest);
      assert DotBefore(value, n - 1) && a[n - 73..n] == value[n - 73..n];
      LineUntorn(a, ToksText(BreakToks(0, rest)));
    }
  }

  lemma {:induction false} DottedTail(v: string, n: nat)
    requires Dotted(v) && n <= |v|
    ensures Dotted(v[n..])
  {
    var t := v[n..];
    forall j | 72 <= j < |t| ensures DotBefore(t, j) {
      assert DotBefore(v, n + j) && t[j - 72..j + 1] == v[n + j - 72..n + j + 1];
    }
  }

  // ---- tags and headers --------------------------------------------------------------------------

  lemma {:induction false} PreUntorn(pre: string, rest: string)
    requires pre in {"", " ", FOLD} && Tabbed(rest)
    ensures Untorn(pre + rest)
  {
    forall j: nat ensures !TornAt(pre + rest, j) { NotTornAt(pre, rest, j); }
  }

  lemma {:induction false} NotTornAt(pre: string, rest: string, j: nat)
    requires pre in {"", " ", FOLD} && Tabbed(rest)
    ensures !TornAt(pre + rest, j)
  {
    if TornAt(pre + rest, j) { TornChars(pre + rest, j); }
  }

  lemma {:induction false} ItemUntorn(col: nat, tag: Tag)
    requires ValidTag(tag) && Tame(tag)
    ensures Untorn(ItemText(TagItem(col, tag)) + ";")
  {
    if FitsLine(tag) { ShortUntorn(col, tag); } else { LongUntorn(col, tag); }
  }

  /** What stands before a value does not tear it, and neither does the semicolon behind it. */
  lemma {:induction false} AroundUntorn(p: string, v: string)
    requires Untorn(v) && v != "" && v[0] != '\r' && forall k | 0 < k < |p| :: p[k] != '\r'
    ensures Untorn(p + v + ";")
  {
    var s := p + v + ";";
    forall j: nat | TornAt(s, j) ensures DotBefore(s, j) {
      TornChars(s, j);
      assert j + 4 < |p + v| && j >= |p|;
      TornPrefix(p + v, ";", j);
      TornSuffix(p, v, j);
      DotLater(p, v, j - |p|);
      DotStays(p + v, ";", j);
    }
  }

  lemma {:induction false} LongUntorn(col: nat, tag: Tag)
    requires ValidTag(tag) && |tag.name| == 1 && Dotted(tag.value) && !FitsLine(tag)
    ensures Untorn(ItemText(TagItem(col, tag)) + ";")
  {
    var toks := BreakToks(2, tag.value);
    var p, v := Pre(col, tag) + tag.name + "=", ToksText(toks);
    BrokenUntorn(2, tag.value);
    BreakLine(2, tag.value, 73);
    NormalText(toks);
    assert v[0] == tag.value[0] && In(ValChar, tag.value[0]) && In(Alpha, tag.name[0]);
    AroundUntorn(p, v);
  }

  lemma {:induction false} ShortUntorn(col: nat, tag: Tag)
    requires ValidTag(tag) && FitsLine(tag)
    ensures Untorn(ItemText(TagItem(col, tag)) + ";")
  {
    var toks := ValueToks(NameCol(col, tag), tag.name, tag.value);
    var v := ToksText(toks);
    ValueTabbed(NameCol(col, tag), tag);
    NormalText(toks);
    NameTabbed(tag.name);
    TabbedConcat(tag.name + "=", v);
    TabbedConcat(tag.name + "=" + v, ";");
    PreUntorn(Pre(col, tag), tag.name + "=" + v + ";");
    Assoc5(Pre(col, tag), tag.name, "=", v, ";");
  }

  lemma {:induction false} NameTabbed(name: string)
    requires All(Alpha, name)
    ensures Tabbed(name + "=")
  {
    forall k: nat | k < |name| ensures name[k] != '\r' { assert In(Alpha, name[k]); }
  }

  predicate EndsTag(s: string) {
    s == "" || s[|s| - 1] == ';'
  }

  /** A semicolon stops every line break that would reach over it. */
  lemma {:induction false} UntornConcat(a: string, b: string)
    requires Untorn(a) && EndsTag(a) && Untorn(b)
    ensures Untorn(a + b)
  {
    var s := a + b;
    forall j: nat | TornAt(s, j) ensures DotBefore(s, j) {
      if j + 4 < |a| {
        TornPrefix(a, b, j);
        DotStays(a, b, j);
      } else if j >= |a| {
        TornSuffix(a, b, j);
        DotLater(a, b, j - |a|);
      } else {
        TornChars(s, j);
      }
    }
  }

  lemma {:induction false} TornChars(s: string, j: nat)
    requires TornAt(s, j)
    ensures s[j + 1] == '\r' && s[j + 2] == '\n' && s[j + 3] == '\t' && s[j] != ';' && s[j + 4] != ';'
  {
    CharAt(s, j + 1, FOLD, 0);
    CharAt(s, j + 1, FOLD, 1);
    CharAt(s, j + 1, FOLD, 2);
  }

  lemma {:induction false} TornPrefix(a: string, b: string, j: nat)
    requires j + 4 < |a| && TornAt(a + b, j)
    ensures TornAt(a, j)
  {
    AtPrefix(a, b, j + 1, FOLD);
  }

  lemma {:induction false} TornSuffix(a: string, b: string, j: nat)
    requires j >= |a| && TornAt(a + b, j)
    ensures TornAt(b, j - |a|)
  {
    assert (a + b)[|a|..] == b;
    AtShift(a + b, |a|, j + 1 - |a|, FOLD);
  }

  lemma {:induction false} LayoutUntorn(tags: seq<Tag>, col: nat)
    requires forall t | t in tags :: ValidTag(t) && Tame(t)
    ensures Untorn(Render(Layout(tags, col))) && EndsTag(Render(Layout(tags, col)))
    decreases tags
  {
    if tags != [] {
      var item, rest := ItemText(TagItem(col, tags[0])) + ";", Render(Layout(tags[1..], TagCol(col, tags[0])));
      assert tags[0] in tags && forall t | t in tags[1..] :: t in tags;
      ItemUntorn(col, tags[0]);
      LayoutUntorn(tags[1..], TagCol(col, tags[0]));
      UntornConcat(item, rest);
      RenderNext(tags, col);
    }
  }

  lemma {:induction false} UpToBUntorn(tags: seq<Tag>)
    requires forall t | t in tags :: ValidTag(t) && Tame(t)
    ensures Untorn(UpToB(tags))
  {
    LayoutUntorn(tags, 0);
    var pre := if ColAfter(tags, 0) == 0 then "" else FOLD;
    NameTabbed("b");
    assert "b" + "=" == "b=";
    PreUntorn(pre, "b=");
    UntornConcat(Render(Layout(tags, 0)), pre + "b=");
  }

  // ---- the signature ---------------------------------------------------------------------------------

  /** A value too long for its line is torn where the line is full. */
  lemma {:induction false} BreakTears(col: nat, value: string, n: nat)
    requires col + n == WIDTH && 0 < n < |value| && All(ValChar, value)
    ensures TornAt(ToksText(BreakToks(col, value)), n - 1)
    decreases n
  {
    var c, x := Val(value[..1]), value[1..];
    if n == 1 {
      var d := Val(x[..1]);
      var rest := BreakToks(1, x[1..]);
      ToksTextCons(d, rest);
      ToksTextCons(Ws(FOLD), [d] + rest);
      ToksTextCons(c, [Ws(FOLD)] + ([d] + rest));
      TornHere(c.s, d.s, ToksText(rest));
    } else {
      var rest := BreakToks(col + 1, x);
      BreakTears(col + 1, x, n - 1);
      ToksTextCons(c, rest);
      TornLater(c.s, ToksText(rest), n - 2);
    }
  }

  lemma {:induction false} TornHere(c: string, d: string, rest: string)
    requires |c| == 1 && |d| == 1 && In(ValChar, c[0]) && In(ValChar, d[0])
    ensures TornAt(c + (FOLD + (d + rest)), 0)
  {
    var s := c + (FOLD + (d + rest));
    assert s[1..4] == FOLD && s[4] == d[0];
  }

  lemma {:induction false} TornLater(c: string, s: string, j: nat)
    requires |c| == 1 && TornAt(s, j)
    ensures TornAt(c + s, j + 1)
  {
    assert (c + s)[1..] == s;
    AtShift(c + s, 1, j + 1, FOLD);
  }

  /** The text of a long signature is torn after its first 73 characters. */
  lemma {:induction false} RawTorn(sig: string)
    requires All(ValChar, sig) && |sig| >= WIDTH
    ensures TornAt(BodyRaw(BBody(sig)), 72)
  {
    var b := BBody(sig);
    var toks := BreakToks(2, sig);
    BreakTears(2, sig, 73);
    BreakEnds(2, sig);
    NormalText(toks);
    SignatureBody(sig);
    TornBeforeBlank(BodyRaw(b), b.trail, 72);
  }

  lemma {:induction false} RawStarts(sig: string)
    requires All(ValChar, sig) && |sig| >= WIDTH && |BodyRaw(BBody(sig))| >= 73
    ensures BodyRaw(BBody(sig))[..73] == sig[..73]
  {
    var b := BBody(sig);
    var text := ToksText(BreakToks(2, sig));
    BreakEnds(2, sig);
    NormalText(BreakToks(2, sig));
    BreakLine(2, sig, 73);
    assert text == "" + BodyRaw(b) + b.trail && text[..73] == BodyRaw(b)[..73];
  }

  lemma {:induction false} TornBeforeBlank(raw: string, trail: string, j: nat)
    requires All(Fws, trail) && TornAt("" + raw + trail, j)
    ensures TornAt(raw, j)
  {
    assert "" + raw + trail == raw + trail;
    assert j + 4 < |raw|;
    TornPrefix(raw, trail, j);
  }

  lemma {:induction false} TornInside(s: string, i: nat, raw: string, j: nat)
    requires At(s, i, raw) && TornAt(raw, j)
    ensures TornAt(s, i + j)
  {
    TornChars(raw, j);
    CharAt(s, i, raw, j);
    CharAt(s, i, raw, j + 1);
    CharAt(s, i, raw, j + 2);
    CharAt(s, i, raw, j + 3);
    CharAt(s, i, raw, j + 4);
    assert s[i + j + 1..i + j + 4] == FOLD;
  }

  /** The text of a long signature does not occur before `b=` if all values there are tame. */
  lemma {:induction false} LongNotBefore(tags: seq<Tag>, sig: string)
    requires (forall t | t in tags :: ValidTag(t) && Tame(t)) && All(ValChar, sig) && '.' !in sig && |sig| >= WIDTH
    ensures !Occurs(UpToB(tags), BodyRaw(BBody(sig)))
  {
    UpToBUntorn(tags);
    RawTorn(sig);
    RawStarts(sig);
    forall i: nat ensures !At(UpToB(tags), i, BodyRaw(BBody(sig))) {
      NotInUntorn(UpToB(tags), i, BodyRaw(BBody(sig)), sig);
    }
  }

  lemma {:induction false} NotInUntorn(s: string, i: nat, raw: string, sig: string)
    requires Untorn(s) && TornAt(raw, 72) && |sig| >= 73 && raw[..73] == sig[..73] && '.' !in sig
    ensures !At(s, i, raw)
  {
    if At(s, i, raw) {
      NoDot(s, i, raw, sig);
      TornInside(s, i, raw, 72);
    }
  }

  lemma {:induction false} NoDot(s: string, i: nat, raw: string, sig: string)
    requires At(s, i, raw) && |raw| >= 73 && |sig| >= 73 && raw[..73] == sig[..73] && '.' !in sig
    ensures !DotBefore(s, i + 72)
  {
    assert s[i..i + 73] == s[i..i + |raw|][..73];
  }

  /** For such signatures the length alone decides whether both passes canonicalise alike. */
  lemma {:induction false} LongSameTextIff(ty: Type, name: string, tags: seq<Tag>, sig: string)
    requires (forall t | t in tags :: ValidTag(t) && Tame(t)) && Base64Like(sig) && '.' !in sig && |sig| >= WIDTH
    ensures CanonHeader(ty, name, Replace(SecondPass(tags, sig), BodyRaw(BBody(sig))))
            == CanonHeader(ty, name, FirstPass(tags))
            <==> FoldSafe(|sig|)
  {
    LongNotBefore(tags, sig);
    SameTextExactly(ty, name, tags, sig);
  }

  lemma {:induction false} BothMultiples(n: nat, q: nat, m: nat)
    requires n == 4 * q && n == 73 + 75 * m
    ensures n % 300 == 148
  {
    var t := m - (q - 18 - 18 * m);
    assert n == 300 * t + 148;
  }

  lemma {:induction false} FullLines(n: nat, t: nat)
    requires n == 300 * t + 148
    ensures !FoldSafe(n)
  {
    assert n - 73 == 75 * (4 * t + 1);
  }

  /** Of the lengths that base64 can have, these are the ones at which signing goes wrong. */
  lemma {:induction false} UnsafeLengths(n: nat)
    requires n % 4 == 0
    ensures !FoldSafe(n) <==> n % 300 == 148
  {
    if !FoldSafe(n) { BothMultiples(n, n / 4, (n - 73) / 75); }
    if n % 300 == 148 { FullLines(n, n / 300); }
  }
}
