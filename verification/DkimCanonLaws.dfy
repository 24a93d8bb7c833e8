/** What canonicalisation leaves unchanged. */
module DkimCanonLaws {
  import opened DkimText
  import opened Strings
  import opened DkimCanon

  // ---- lines ------------------------------------------------------------------------------

  function Concat(parts: seq<string>): string {
    if parts == [] then "" else parts[0] + Concat(parts[1..])
  }

  /** The pieces of the line iterator put together are the body. */
  lemma {:induction false} LinesConcat(s: string)
    ensures Concat(Lines(s)) == s
    decreases |s|
  {
    if s != "" {
      LinesConcat(s[LineLen(s)..]);
      assert s == s[..LineLen(s)] + s[LineLen(s)..];
    }
  }

  // ---- header values ------------------------------------------------------------------------

  function DeleteCrLf(s: string): string {
    if s == "" then ""
    else if s[0] == '\r' || s[0] == '\n' then DeleteCrLf(s[1..])
    else s[..1] + DeleteCrLf(s[1..])
  }

  lemma {:induction false} DeleteSnoc(s: string, c: char)
    ensures DeleteCrLf(s + [c]) == if c == '\r' || c == '\n' then DeleteCrLf(s) else DeleteCrLf(s) + [c]
  {
    if s == "" {
      assert s + [c] == [c] && [c][1..] == "" && [c][..1] == [c];
    } else {
      assert (s + [c])[1..] == s[1..] + [c] && (s + [c])[..1] == s[..1];
      DeleteSnoc(s[1..], c);
    }
  }

  lemma {:induction false} TrimEndDelete(s: string)
    ensures TrimEnd(DeleteCrLf(s)) == DeleteCrLf(TrimEnd(s))
  {
    if s != "" {
      var init, c := s[..|s| - 1], s[|s| - 1];
      assert s == init + [c];
      DeleteSnoc(init, c);
      var d := DeleteCrLf(s);
      if In(Fws, c) {
        TrimEndDelete(init);
        if c == ' ' || c == '\t' { assert d[..|d| - 1] == DeleteCrLf(init); }
      }
    }
  }

  lemma {:induction false} TrimStartDelete(s: string)
    ensures TrimStart(DeleteCrLf(s)) == DeleteCrLf(TrimStart(s))
  {
    if s != "" && In(Fws, s[0]) {
      TrimStartDelete(s[1..]);
      if s[0] == ' ' || s[0] == '\t' { assert DeleteCrLf(s)[1..] == DeleteCrLf(s[1..]); }
    }
  }

  lemma {:induction false} FlattenDelete(s: string, run: bool)
    ensures Flatten(DeleteCrLf(s), run) == Flatten(s, run)
  {
    if s != "" {
      var d := DeleteCrLf(s);
      if s[0] == '\r' || s[0] == '\n' {
        FlattenDelete(s[1..], run);
      } else {
        assert d[1..] == DeleteCrLf(s[1..]) && d[..1] == s[..1];
        FlattenDelete(s[1..], Wsp(s[0]));
      }
    }
  }

  /** Folding a header value anew, or not at all, does not change its canonical form. */
  lemma {:induction false} UnfoldingIrrelevant(value: string)
    ensures RelaxValue(DeleteCrLf(value)) == RelaxValue(value)
  {
    TrimEndDelete(value);
    TrimStartDelete(TrimEnd(value));
    FlattenDelete(TrimStart(TrimEnd(value)), false);
  }

  /** No CR, LF or TAB, and no space after a space. */
  predicate Flat(s: string, run: bool) {
    s == "" || (if s[0] == ' ' then !run && Flat(s[1..], true) else !In(Fws, s[0]) && Flat(s[1..], false))
  }

  lemma {:induction false} FlattenFlat(s: string, run: bool)
    ensures Flat(Flatten(s, run), run)
    ensures Flat(Flatten(s, true), false)
    decreases s
  {
    if s != "" {
      if s[0] == '\r' || s[0] == '\n' {
        FlattenFlat(s[1..], run);
      } else if Wsp(s[0]) {
        FlattenFlat(s[1..], true);
        assert (" " + Flatten(s[1..], true))[1..] == Flatten(s[1..], true);
      } else {
        FlattenFlat(s[1..], false);
        assert (s[..1] + Flatten(s[1..], false))[1..] == Flatten(s[1..], false);
      }
    }
  }

  lemma {:induction false} FlatFixed(s: string, run: bool)
    requires Flat(s, run)
    ensures Flatten(s, run) == s
    decreases s
  {
    if s != "" { FlatFixed(s[1..], s[0] == ' '); }
  }

  predicate NonBlankEnds(s: string) {
    s == "" || (!In(Fws, s[0]) && !In(Fws, s[|s| - 1]))
  }

  lemma {:induction false} FlattenLast(s: string, run: bool)
    requires s != "" && !In(Fws, s[|s| - 1])
    ensures var f := Flatten(s, run); f != "" && f[|f| - 1] == s[|s| - 1]
    decreases s
  {
    if |s| > 1 {
      FlattenLast(s[1..], run);
      FlattenLast(s[1..], true);
      FlattenLast(s[1..], false);
    } else {
      assert s[1..] == "";
    }
  }

  lemma {:induction false} TrimmedEnds(s: string)
    ensures TrimEnd(s) != "" ==> !In(Fws, TrimEnd(s)[|TrimEnd(s)| - 1])
    decreases |s|
  {
    if s != "" && In(Fws, s[|s| - 1]) { TrimmedEnds(s[..|s| - 1]); }
  }

  lemma {:induction false} TrimmedStarts(s: string)
    requires s != "" ==> !In(Fws, s[|s| - 1])
    ensures NonBlankEnds(TrimStart(s))
    decreases |s|
  {
    if s != "" && In(Fws, s[0]) { TrimmedStarts(s[1..]); }
  }

  /** Canonicalising a header value twice is canonicalising it once. */
  lemma {:induction false} RelaxValueIdempotent(value: string)
    ensures RelaxValue(RelaxValue(value)) == RelaxValue(value)
  {
    var t := TrimStart(TrimEnd(value));
    TrimmedEnds(value);
    TrimmedStarts(TrimEnd(value));
    FlattenFlat(t, false);
    if t != "" { FlattenLast(t, false); }
    var w := Flatten(t, false);
    assert NonBlankEnds(w);
    FlatFixed(w, false);
  }

  lemma {:induction false} TrimNameTwice(s: string)
    ensures TrimName(TrimName(s)) == TrimName(s)
    decreases |s|
  {
    if s != "" && Space(s[|s| - 1]) { TrimNameTwice(s[..|s| - 1]); }
  }

  lemma {:induction false} TrimNameLower(s: string)
    ensures Lower(TrimName(s)) == TrimName(Lower(s))
    decreases |s|
  {
    if s != "" {
      assert Space(Lower(s)[|s| - 1]) <==> Space(s[|s| - 1]);
      assert Lower(s)[..|s| - 1] == Lower(s[..|s| - 1]);
      TrimNameLower(s[..|s| - 1]);
    }
  }

  /** A relaxed canonical header, taken apart again, canonicalises to itself. */
  lemma {:induction false} CanonHeaderIdempotent(name: string, value: string)
    ensures CanonHeader(Relaxed, TrimName(Lower(name)), RelaxValue(value)) == CanonHeader(Relaxed, name, value)
  {
    RelaxValueIdempotent(value);
    TrimNameLower(Lower(name));
    LowerTwice(name);
    TrimNameTwice(Lower(name));
  }

  // ---- relaxed bodies ---------------------------------------------------------------------

  /** No CRLF in the text. */
  predicate NoCrlf(s: string) {
    |s| < 2 || (!(s[0] == '\r' && s[1] == '\n') && NoCrlf(s[1..]))
  }

  /** No TAB, and no space after a space. */
  predicate Collapsed(s: string, run: bool) {
    s == "" || (if s[0] == ' ' then !run && Collapsed(s[1..], true) else s[0] != '\t' && Collapsed(s[1..], false))
  }

  predicate NonBlankEnd(s: string) {
    s != "" ==> !In(Fws, s[|s| - 1])
  }

  /** The text of a canonical line, without its CRLF. */
  predicate CanonLine(s: string) {
    NoCrlf(s) && Collapsed(s, false) && NonBlankEnd(s)
  }

  lemma {:induction false} CollapseCollapsed(s: string, run: bool)
    ensures Collapsed(Collapse(s, run), run) && Collapsed(Collapse(s, true), false)
    decreases s
  {
    if s != "" {
      CollapseCollapsed(s[1..], Wsp(s[0]));
      assert (" " + Collapse(s[1..], true))[1..] == Collapse(s[1..], true);
      assert (s[..1] + Collapse(s[1..], false))[1..] == Collapse(s[1..], false);
    }
  }

  lemma {:induction false} CollapsedFixed(s: string, run: bool)
    requires Collapsed(s, run)
    ensures Collapse(s, run) == s
    decreases s
  {
    if s != "" { CollapsedFixed(s[1..], s[0] == ' '); }
  }

  lemma {:induction false} CollapseLast(s: string, run: bool)
    requires NonBlankEnd(s)
    ensures NonBlankEnd(Collapse(s, run)) && (s != "" ==> Collapse(s, run) != "")
    decreases s
  {
    if |s| > 1 {
      CollapseLast(s[1..], Wsp(s[0]));
    } else if |s| == 1 {
      assert s[1..] == "";
    }
  }

  lemma {:induction false} CollapseNoCrlf(s: string, run: bool)
    requires NoCrlf(s)
    ensures NoCrlf(Collapse(s, run))
    decreases s
  {
    if s != "" {
      var rest := Collapse(s[1..], Wsp(s[0]));
      CollapseNoCrlf(s[1..], Wsp(s[0]));
      assert (" " + rest)[1..] == rest && (s[..1] + rest)[1..] == rest;
    }
  }

  lemma {:induction false} NoCrlfPrefix(s: string, n: nat)
    requires n <= |s| && NoCrlf(s)
    ensures NoCrlf(s[..n])
    decreases s
  {
    if n >= 2 {
      NoCrlfPrefix(s[1..], n - 1);
      assert s[1..][..n - 1] == s[..n][1..];
    }
  }

  /** A line is a text without CRLF, followed by CRLF or by the end of the body. */
  lemma {:induction false} FirstLineShape(s: string)
    requires s != ""
    ensures LineAt(s, LineLen(s))
    decreases |s|
  {
    if |s| > 1 && !(s[0] == '\r' && s[1] == '\n') {
      FirstLineShape(s[1..]);
      LongerLine(s, LineLen(s[1..]));
    } else if |s| > 1 {
      assert s[0..2] == CRLF && s[..0] == "";
    }
  }

  predicate LineAt(s: string, n: nat) {
    n <= |s| && (NoCrlf(s[..n]) || (n >= 2 && s[n - 2..n] == CRLF && NoCrlf(s[..n - 2])))
  }

  lemma {:induction false} LongerLine(s: string, m: nat)
    requires |s| > 1 && !(s[0] == '\r' && s[1] == '\n') && m > 0 && LineAt(s[1..], m)
    ensures LineAt(s, m + 1)
  {
    if NoCrlf(s[1..][..m]) {
      NoCrlfCons(s, m);
    } else {
      assert s[m - 1..m + 1] == s[1..][m - 2..m];
      NoCrlfCons(s, m - 2);
    }
  }

  lemma {:induction false} NoCrlfCons(s: string, m: nat)
    requires |s| > 1 && !(s[0] == '\r' && s[1] == '\n') && m < |s| && NoCrlf(s[1..][..m])
    ensures NoCrlf(s[..m + 1])
  {
    assert s[..m + 1][1..] == s[1..][..m];
  }

  lemma {:induction false} TrimEndCrlf(s: string)
    ensures TrimEnd(s + CRLF) == TrimEnd(s)
  {
    var t := s + CRLF;
    assert t[..|t| - 1] == s + "\r" && (s + "\r")[..|s|] == s;
  }

  lemma {:induction false} TrimEndFixed(s: string)
    requires NonBlankEnd(s)
    ensures TrimEnd(s) == s
  {
  }

  /** The canonical text of a line. */
  function LineText(line: string): string {
    Collapse(TrimEnd(line), false)
  }

  lemma {:induction false} LineTextCanon(x: string)
    requires NoCrlf(x)
    ensures CanonLine(LineText(x)) && LineText(x + CRLF) == LineText(x)
  {
    var t := TrimEnd(x);
    TrimmedEnds(x);
    assert t == x[..|t|];
    NoCrlfPrefix(x, |t|);
    CollapseCollapsed(t, false);
    CollapseLast(t, false);
    CollapseNoCrlf(t, false);
    TrimEndCrlf(x);
  }

  lemma {:induction false} CanonLineFixed(c: string)
    requires CanonLine(c)
    ensures LineText(c) == c && LineText(c + CRLF) == c
  {
    TrimEndFixed(c);
    TrimEndCrlf(c);
    CollapsedFixed(c, false);
  }

  function Texts(lines: seq<string>): (cs: seq<string>)
    ensures |cs| == |lines|
  {
    if lines == [] then [] else [LineText(lines[0])] + Texts(lines[1..])
  }

  function Unlines(cs: seq<string>): string {
    if cs == [] then "" else cs[0] + CRLF + Unlines(cs[1..])
  }

  ghost predicate CanonLines(cs: seq<string>) {
    cs == [] || (CanonLine(cs[0]) && CanonLines(cs[1..]))
  }

  lemma {:induction false} RelaxIsUnlines(lines: seq<string>)
    ensures RelaxLines(lines) == Unlines(Texts(lines))
  {
    if lines != [] { RelaxIsUnlines(lines[1..]); }
  }

  lemma {:induction false} TextsCanon(s: string)
    ensures CanonLines(Texts(Lines(s)))
    decreases |s|
  {
    if s != "" {
      var n := LineLen(s);
      FirstLineShape(s);
      if NoCrlf(s[..n]) {
        LineTextCanon(s[..n]);
      } else {
        LineTextCanon(s[..n - 2]);
        assert s[..n - 2] + CRLF == s[..n];
      }
      TextsCanon(s[n..]);
    }
  }

  lemma {:induction false} LineLenOf(c: string, rest: string)
    requires NoCrlf(c)
    ensures LineLen(c + CRLF + rest) == |c| + 2
    decreases c
  {
    var s := c + CRLF + rest;
    if c != "" {
      assert s[1..] == c[1..] + CRLF + rest;
      LineLenOf(c[1..], rest);
    }
  }

  lemma {:induction false} UnlinesLines(cs: seq<string>)
    requires CanonLines(cs)
    ensures Texts(Lines(Unlines(cs))) == cs
  {
    if cs != [] {
      var c, rest := cs[0], Unlines(cs[1..]);
      var s := c + CRLF + rest;
      LineLenOf(c, rest);
      assert s[..|c| + 2] == c + CRLF && s[|c| + 2..] == rest;
      UnlinesLines(cs[1..]);
      CanonLineFixed(c);
    }
  }

  /** Without the empty lines at the end, but keeping a first line. */
  function TrimLines(cs: seq<string>): (t: seq<string>)
    ensures |t| <= |cs| && (cs != [] ==> t != [])
  {
    if |cs| >= 2 && cs[|cs| - 1] == "" then TrimLines(cs[..|cs| - 1]) else cs
  }

  lemma {:induction false} UnlinesSnoc(cs: seq<string>, c: string)
    ensures Unlines(cs + [c]) == Unlines(cs) + c + CRLF
  {
    if cs == [] {
      assert cs + [c] == [c] && [c][1..] == [];
    } else {
      assert (cs + [c])[1..] == cs[1..] + [c];
      UnlinesSnoc(cs[1..], c);
    }
  }

  lemma {:induction false} CanonLinesInit(cs: seq<string>, c: string)
    requires CanonLines(cs + [c])
    ensures CanonLines(cs) && CanonLine(c)
  {
    if cs == [] {
      assert cs + [c] == [c];
    } else {
      assert (cs + [c])[1..] == cs[1..] + [c];
      CanonLinesInit(cs[1..], c);
    }
  }

  lemma {:induction false} UnlinesEnd(cs: seq<string>)
    requires cs != []
    ensures EndsWith(Unlines(cs), CRLF)
  {
    var init, c := cs[..|cs| - 1], cs[|cs| - 1];
    assert cs == init + [c];
    UnlinesSnoc(init, c);
  }

  /** Exactly an empty last line, not the only one, makes the text end in two CRLFs. */
  lemma {:induction false} TwoCrlfs(init: seq<string>, c: string)
    requires CanonLine(c)
    ensures EndsWith(Unlines(init + [c]), CRLF + CRLF) <==> c == "" && init != []
  {
    var s := Unlines(init + [c]);
    UnlinesSnoc(init, c);
    if c == "" {
      if init == [] {
        assert s == CRLF;
      } else {
        UnlinesEnd(init);
        var u := Unlines(init);
        assert s == u + CRLF && s[|s| - 4..] == u[|u| - 2..] + CRLF;
      }
    } else if |s| >= 4 {
      assert s[|s| - 4..][1] == s[|s| - 3] == c[|c| - 1];
    }
  }

  lemma {:induction false} DropUnlines(cs: seq<string>)
    requires CanonLines(cs) && cs != []
    ensures DropEmptyLines(Unlines(cs)) == Unlines(TrimLines(cs)) && CanonLines(TrimLines(cs))
    decreases |cs|
  {
    var init, c := cs[..|cs| - 1], cs[|cs| - 1];
    assert cs == init + [c];
    CanonLinesInit(init, c);
    TwoCrlfs(init, c);
    if c == "" && init != [] {
      UnlinesSnoc(init, c);
      var s := Unlines(cs);
      assert s[..|s| - 2] == Unlines(init);
      DropUnlines(init);
    }
  }

  /** On text made of canonical lines, canonicalising only drops the empty lines at the end. */
  lemma {:induction false} CanonOfUnlines(cs: seq<string>)
    requires CanonLines(cs)
    ensures CanonBody(Relaxed, Unlines(cs)) == Unlines(TrimLines(cs)) && CanonLines(TrimLines(cs))
  {
    if cs != [] {
      UnlinesEnd(cs);
      DropUnlines(cs);
      UnlinesLines(TrimLines(cs));
      RelaxIsUnlines(Lines(Unlines(TrimLines(cs))));
    }
  }

  /** The canonical lines of a body. */
  function BodyTexts(body: string): seq<string> {
    if body == "" then [] else Texts(Lines(DropEmptyLines(body)))
  }

  lemma {:induction false} CanonBodyTexts(body: string)
    ensures CanonBody(Relaxed, body) == Unlines(BodyTexts(body)) && CanonLines(BodyTexts(body))
  {
    if body != "" {
      RelaxIsUnlines(Lines(DropEmptyLines(body)));
      TextsCanon(DropEmptyLines(body));
    }
  }

  lemma {:induction false} TrimLinesTwice(cs: seq<string>)
    ensures TrimLines(TrimLines(cs)) == TrimLines(cs)
    decreases |cs|
  {
    if |cs| >= 2 && cs[|cs| - 1] == "" { TrimLinesTwice(cs[..|cs| - 1]); }
  }

  /** Relaxed body canonicalisation reaches a fixed point after two rounds. */
  lemma {:induction false} RelaxedBodyTwice(body: string)
    ensures var once := CanonBody(Relaxed, body);
            var twice := CanonBody(Relaxed, once);
            CanonBody(Relaxed, twice) == twice
  {
    var cs := BodyTexts(body);
    CanonBodyTexts(body);
    CanonOfUnlines(cs);
    CanonOfUnlines(TrimLines(cs));
    TrimLinesTwice(cs);
  }

  lemma {:induction false} UnlinesShorter(cs: seq<string>)
    requires TrimLines(cs) != cs
    ensures |Unlines(TrimLines(cs))| < |Unlines(cs)|
    decreases |cs|
  {
    var init, c := cs[..|cs| - 1], cs[|cs| - 1];
    assert cs == init + [c];
    UnlinesSnoc(init, c);
    if TrimLines(init) != init { UnlinesShorter(init); }
  }

  predicate AllBlank(s: string) {
    All(Fws, s)
  }

  lemma {:induction false} LineTextEmpty(line: string)
    ensures LineText(line) == "" <==> AllBlank(line)
    decreases |line|
  {
    if line != "" {
      var init, c := line[..|line| - 1], line[|line| - 1];
      if In(Fws, c) {
        LineTextEmpty(init);
        assert AllBlank(line) <==> AllBlank(init);
      } else {
        CollapseLast(line, false);
      }
    }
  }

  lemma {:induction false} TextsAt(lines: seq<string>, i: nat)
    requires i < |lines|
    ensures Texts(lines)[i] == LineText(lines[i])
  {
    if i > 0 { TextsAt(lines[1..], i - 1); }
  }

  /**
   * One round suffices exactly when, after the empty lines at the end are dropped, the last line
   * is the only one or has a byte that is not blank.
   */
  lemma {:induction false} RelaxedBodyOnceIff(body: string)
    ensures var once := CanonBody(Relaxed, body);
            var lines := Lines(DropEmptyLines(body));
            CanonBody(Relaxed, once) == once
            <==> |lines| <= 1 || !AllBlank(lines[|lines| - 1])
  {
    var cs := BodyTexts(body);
    CanonBodyTexts(body);
    CanonOfUnlines(cs);
    if body != "" {
      var lines := Lines(DropEmptyLines(body));
      DropNonEmpty(body);
      TextsAt(lines, |lines| - 1);
      LineTextEmpty(lines[|lines| - 1]);
      if TrimLines(cs) != cs { UnlinesShorter(cs); }
    }
  }

  lemma {:induction false} DropNonEmpty(s: string)
    requires s != ""
    ensures DropEmptyLines(s) != ""
    decreases |s|
  {
    if EndsWith(s, CRLF + CRLF) { DropNonEmpty(s[..|s| - 2]); }
  }

  // ---- simple bodies -------------------------------------------------------------------------

  /** Simple body canonicalisation is idempotent. */
  lemma {:induction false} SimpleBodyIdempotent(body: string)
    ensures CanonBody(Simple, CanonBody(Simple, body)) == CanonBody(Simple, body)
  {
    if body != "" { DropNonEmpty(body); }
  }

  lemma {:induction false} DropKeepsCrlf(s: string)
    ensures EndsWith(DropEmptyLines(s), CRLF) <==> EndsWith(s, CRLF)
    decreases |s|
  {
    if EndsWith(s, CRLF + CRLF) {
      var t := s[..|s| - 2];
      assert s[|s| - 4..][..2] == t[|t| - 2..] && s[|s| - 4..][2..] == s[|s| - 2..];
      DropKeepsCrlf(t);
    }
  }

  /** No CRLF is added to a body that lacks one, unlike section 3.4.3 of RFC 6376. */
  lemma {:induction false} SimpleEndsInCrlfIff(body: string)
    ensures EndsWith(CanonBody(Simple, body), CRLF) <==> body == "" || EndsWith(body, CRLF)
  {
    DropKeepsCrlf(body);
  }

  lemma {:induction false} OneLine(line: string, rest: string)
    requires line != "" && LineLen(line + rest) == |line|
    ensures Lines(line + rest) == [line] + Lines(rest)
  {
    assert (line + rest)[..|line|] == line && (line + rest)[|line|..] == rest;
  }

  lemma {:induction false} TwoLines()
    ensures Lines("a\r\n \r\n") == ["a\r\n", " \r\n"]
  {
    var l0, l1 := "a\r\n", " \r\n";
    assert "a\r\n \r\n"[1..] == "\r\n \r\n" && " \r\n"[1..] == "\r\n";
    assert l0 + l1 == "a\r\n \r\n" && l1 + "" == l1;
    OneLine(l1, "");
    OneLine(l0, l1);
  }

  lemma {:induction false} RelaxTwo()
    ensures RelaxLine("a\r\n") == "a\r\n" && RelaxLine(" \r\n") == "\r\n"
  {
    assert "a\r\n"[..2] == "a\r" && "a\r"[..1] == "a" && "a"[1..] == "";
    assert " \r\n"[..2] == " \r" && " \r"[..1] == " " && " "[..0] == "";
    assert TrimEnd("a\r\n") == "a" && TrimEnd(" \r\n") == "";
    assert Collapse("a", false) == "a";
  }

  lemma {:induction false} RelaxPair(a: string, b: string)
    ensures RelaxLines([a, b]) == RelaxLine(a) + RelaxLine(b)
  {
    assert [a, b][1..] == [b] && [b][1..] == [];
    assert RelaxLine(b) + "" == RelaxLine(b) && RelaxLines([b]) == RelaxLine(b) + RelaxLines([b][1..]);
  }

  /** A last line that is only blank survives one round as an empty line, which the next round drops. */
  lemma {:induction false} BlankLastLine()
    ensures CanonBody(Relaxed, "a\r\n \r\n") == "a\r\n\r\n"
    ensures CanonBody(Relaxed, CanonBody(Relaxed, "a\r\n \r\n")) != CanonBody(Relaxed, "a\r\n \r\n")
  {
    TwoLines();
    RelaxTwo();
    RelaxPair("a\r\n", " \r\n");
    assert DropEmptyLines("a\r\n \r\n") == "a\r\n \r\n" && "a\r\n" + "\r\n" == "a\r\n\r\n";
    assert AllBlank(" \r\n");
    RelaxedBodyOnceIff("a\r\n \r\n");
  }
}
