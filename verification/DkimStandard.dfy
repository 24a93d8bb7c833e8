/** Canonicalisation as sections 3.4.1 to 3.4.4 of RFC 6376 describe it, and exactly when the code agrees. */
module DkimStandard {
  import opened DkimCanon
  import opened DkimCanonLaws

  // ---- what the standard says ---------------------------------------------------------------

  /** A line without its terminator. */
  function Content(line: string): string {
    if EndsWith(line, CRLF) then line[..|line| - 2] else line
  }

  /** Only SP and TAB count as whitespace at the end of a line. */
  function TrimWsp(s: string): (t: string)
    ensures t <= s && (t == "" || !Wsp(t[|t| - 1]))
  {
    if s != "" && Wsp(s[|s| - 1]) then TrimWsp(s[..|s| - 1]) else s
  }

  function RelaxedContent(line: string): string {
    Collapse(TrimWsp(Content(line)), false)
  }

  function Mapped(f: string -> string, lines: seq<string>): (cs: seq<string>)
    ensures |cs| == |lines| && forall i | 0 <= i < |lines| :: cs[i] == f(lines[i])
  {
    seq(|lines|, i requires 0 <= i < |lines| => f(lines[i]))
  }

  /** All empty lines at the end are ignored, be they all there are. */
  function WithoutEmpty(cs: seq<string>): (t: seq<string>)
    ensures t <= cs && (t == [] || t[|t| - 1] != "")
  {
    if cs != [] && cs[|cs| - 1] == "" then WithoutEmpty(cs[..|cs| - 1]) else cs
  }

  /** Section 3.4.4: every line is relaxed first, and a body without lines left hashes as nothing. */
  function StandardRelaxed(body: string): string {
    Unlines(WithoutEmpty(Mapped(RelaxedContent, Lines(body))))
  }

  /** Section 3.4.3: a body without lines left hashes as one CRLF. */
  function StandardSimple(body: string): string {
    var cs := WithoutEmpty(Mapped(Content, Lines(body)));
    if cs == [] then CRLF else Unlines(cs)
  }

  // ---- lines ------------------------------------------------------------------------------------

  lemma {:induction false} EndsLater(s: string, k: nat)
    requires k + 2 <= |s|
    ensures EndsWith(s[k..], CRLF) <==> EndsWith(s, CRLF)
  {
    assert s[k..][|s| - k - 2..] == s[|s| - 2..];
  }

  lemma {:induction false} EndChars(s: string)
    requires EndsWith(s, CRLF)
    ensures s[|s| - 2] == '\r' && s[|s| - 1] == '\n'
  {
    assert s[|s| - 2..][0] == s[|s| - 2] && s[|s| - 2..][1] == s[|s| - 1];
  }

  /** A first line that is terminated does not change with what follows. */
  lemma {:induction false} TerminatedLine(s: string, rest: string)
    requires EndsWith(s, CRLF)
    ensures LineLen(s + rest) == LineLen(s) && (LineLen(s) == |s| || EndsWith(s[LineLen(s)..], CRLF))
    decreases |s|
  {
    EndChars(s);
    if s[0] == '\r' && s[1] == '\n' {
      if |s| > 3 { EndsLater(s, 2); }
    } else {
      EndsLater(s, 1);
      assert (s + rest)[1..] == s[1..] + rest;
      TerminatedLine(s[1..], rest);
      assert s[1..][LineLen(s[1..])..] == s[LineLen(s)..];
    }
  }

  lemma {:induction false} LineEnds(s: string)
    requires EndsWith(s, CRLF)
    ensures EndsWith(s[..LineLen(s)], CRLF)
    decreases |s|
  {
    EndChars(s);
    if s[0] == '\r' && s[1] == '\n' {
      assert s[..2] == CRLF;
    } else {
      EndsLater(s, 1);
      LineEnds(s[1..]);
      assert s[..LineLen(s)][1..] == s[1..][..LineLen(s[1..])];
      EndsLater(s[..LineLen(s)], 1);
    }
  }

  lemma {:induction false} LinesSnoc(s: string)
    requires s == "" || EndsWith(s, CRLF)
    ensures Lines(s + CRLF) == Lines(s) + [CRLF]
    decreases |s|
  {
    if s == "" {
      assert s + CRLF == CRLF && CRLF[2..] == "" && CRLF[..2] == CRLF;
    } else {
      var line, rest := s[..LineLen(s)], s[LineLen(s)..];
      TerminatedLine(s, CRLF);
      FirstLineStays(s, CRLF);
      LinesSnoc(rest);
      assert [line] + (Lines(rest) + [CRLF]) == [line] + Lines(rest) + [CRLF];
    }
  }

  lemma {:induction false} FirstLineStays(s: string, rest: string)
    requires s != "" && LineLen(s + rest) == LineLen(s)
    ensures Lines(s + rest) == [s[..LineLen(s)]] + Lines(s[LineLen(s)..] + rest)
  {
    var n := LineLen(s);
    assert (s + rest)[..n] == s[..n] && (s + rest)[n..] == s[n..] + rest;
  }

  /** The empty lines that the code drops are lines of the body. */
  lemma {:induction false} DroppedLine(s: string)
    requires EndsWith(s, CRLF + CRLF)
    ensures EndsWith(s[..|s| - 2], CRLF) && Lines(s) == Lines(s[..|s| - 2]) + [CRLF]
  {
    var t := s[..|s| - 2];
    assert s[|s| - 4..][..2] == t[|t| - 2..] == CRLF && s[|s| - 4..][2..] == s[|s| - 2..] == CRLF;
    assert s == t + CRLF;
    LinesSnoc(t);
  }

  lemma {:induction false} MappedSnoc(f: string -> string, lines: seq<string>, line: string)
    ensures Mapped(f, lines + [line]) == Mapped(f, lines) + [f(line)]
  {
  }

  lemma {:induction false} EmptySnoc(cs: seq<string>)
    ensures WithoutEmpty(cs + [""]) == WithoutEmpty(cs)
  {
    assert (cs + [""])[..|cs|] == cs;
  }

  /** Dropping them changes nothing that ignores empty lines at the end. */
  lemma {:induction false} DropIgnored(f: string -> string, s: string)
    requires f(CRLF) == ""
    ensures WithoutEmpty(Mapped(f, Lines(s))) == WithoutEmpty(Mapped(f, Lines(DropEmptyLines(s))))
    decreases |s|
  {
    if EndsWith(s, CRLF + CRLF) {
      var t := s[..|s| - 2];
      DroppedLine(s);
      DropIgnored(f, t);
      MappedSnoc(f, Lines(t), CRLF);
      EmptySnoc(Mapped(f, Lines(t)));
    }
  }

  ghost predicate AllLines(p: string -> bool, lines: seq<string>) {
    forall i | 0 <= i < |lines| :: p(lines[i])
  }

  lemma {:induction false} DropKeepsAll(p: string -> bool, s: string)
    requires p(CRLF)
    ensures AllLines(p, Lines(s)) <==> AllLines(p, Lines(DropEmptyLines(s)))
    decreases |s|
  {
    if EndsWith(s, CRLF + CRLF) {
      var t := s[..|s| - 2];
      DroppedLine(s);
      DropKeepsAll(p, t);
      var lines := Lines(t);
      assert lines + [CRLF] == Lines(s);
      if AllLines(p, lines + [CRLF]) {
        forall i | 0 <= i < |lines| ensures p(lines[i]) { assert (lines + [CRLF])[i] == lines[i]; }
      }
    }
  }

  /** Every line of a body is a text without CRLF, with or without a terminator. */
  ghost predicate IsLine(line: string) {
    NoCrlf(Content(line)) && (line == Content(line) || line == Content(line) + CRLF)
  }

  lemma {:induction false} LineShape(s: string, n: nat)
    requires LineAt(s, n)
    ensures IsLine(s[..n])
  {
    var line := s[..n];
    if EndsWith(line, CRLF) {
      assert line == line[..n - 2] + CRLF && line[..n - 2] == s[..n - 2];
      if NoCrlf(line) { NoCrlfPrefix(line, n - 2); }
    } else if n >= 2 {
      assert line[n - 2..] == s[n - 2..n];
    }
  }

  lemma {:induction false} LinesShape(s: string)
    ensures AllLines(IsLineOf(), Lines(s))
    decreases |s|
  {
    if s != "" {
      FirstLineShape(s);
      LineShape(s, LineLen(s));
      LinesShape(s[LineLen(s)..]);
      AllCons(IsLineOf(), s[..LineLen(s)], Lines(s[LineLen(s)..]));
    }
  }

  lemma {:induction false} AllCons(p: string -> bool, line: string, lines: seq<string>)
    requires p(line) && AllLines(p, lines)
    ensures AllLines(p, [line] + lines)
  {
  }

  ghost function IsLineOf(): string -> bool { line => IsLine(line) }

  ghost predicate NoneHasCrlf(cs: seq<string>) {
    forall i | 0 <= i < |cs| :: NoCrlf(cs[i])
  }

  /** Texts without CRLF can be told from their joined lines. */
  lemma {:induction false} UnlinesInjective(a: seq<string>, b: seq<string>)
    requires NoneHasCrlf(a) && NoneHasCrlf(b) && Unlines(a) == Unlines(b)
    ensures a == b
  {
    if a != [] && b != [] {
      var s, n := Unlines(a), |a[0]| + 2;
      LineLenOf(a[0], Unlines(a[1..]));
      LineLenOf(b[0], Unlines(b[1..]));
      assert s[..n - 2] == a[0] && s[..n - 2] == b[0];
      assert s[n..] == Unlines(a[1..]) && s[n..] == Unlines(b[1..]);
      UnlinesInjective(a[1..], b[1..]);
      assert a == [a[0]] + a[1..] && b == [b[0]] + b[1..];
    }
  }

  // ---- relaxed lines -----------------------------------------------------------------------------

  /** No CR or LF of its own stands at the end of the line, before the whitespace there. */
  predicate Tidy(line: string) {
    NonBlankEnd(TrimWsp(Content(line)))
  }

  lemma {:induction false} TrimEndWsp(s: string)
    ensures TrimEnd(s) == TrimEnd(TrimWsp(s))
    decreases |s|
  {
    if s != "" && Wsp(s[|s| - 1]) { TrimEndWsp(s[..|s| - 1]); }
  }

  /** A last byte that is not whitespace survives. */
  lemma {:induction false} CollapseKeepsLast(s: string, run: bool)
    requires s != "" && !Wsp(s[|s| - 1])
    ensures Collapse(s, run) != "" && Collapse(s, run)[|Collapse(s, run)| - 1] == s[|s| - 1]
    decreases s
  {
    if |s| > 1 { CollapseKeepsLast(s[1..], Wsp(s[0])); } else { assert s[1..] == ""; }
  }

  /** The code, which takes CR and LF for whitespace too, relaxes exactly the tidy lines as the standard does. */
  lemma {:induction false} TidyIff(line: string)
    requires IsLine(line)
    ensures LineText(line) == RelaxedContent(line) <==> Tidy(line)
  {
    var x := Content(line);
    var y := TrimWsp(x);
    if line != x { TrimEndCrlf(x); }
    TrimEndWsp(x);
    if Tidy(line) {
      TrimEndFixed(y);
    } else {
      var t := TrimEnd(y);
      TrimmedEnds(y);
      CollapseLast(t, false);
      CollapseKeepsLast(y, false);
    }
  }

  lemma {:induction false} RelaxedNoCrlf(line: string)
    requires IsLine(line)
    ensures NoCrlf(RelaxedContent(line)) && NoCrlf(LineText(line))
  {
    var x := Content(line);
    NoCrlfPrefix(x, |TrimWsp(x)|);
    assert TrimWsp(x) == x[..|TrimWsp(x)|];
    CollapseNoCrlf(TrimWsp(x), false);
    LineTextCanon(x);
  }

  lemma {:induction false} TextsMapped(lines: seq<string>)
    ensures Texts(lines) == Mapped(LineText, lines)
  {
    forall i | 0 <= i < |lines| ensures Texts(lines)[i] == LineText(lines[i]) { TextsAt(lines, i); }
  }

  /** Relaxed lines are as the standard has them exactly when all are tidy and the last is not blank. */
  lemma {:induction false} SameLinesIff(lines: seq<string>)
    requires lines != [] && AllLines(IsLineOf(), lines)
    ensures Mapped(LineText, lines) == WithoutEmpty(Mapped(RelaxedContent, lines))
            <==> AllLines(Tidy, lines) && !AllBlank(lines[|lines| - 1])
  {
    var code, std, last := Mapped(LineText, lines), Mapped(RelaxedContent, lines), lines[|lines| - 1];
    forall i | 0 <= i < |lines| ensures code[i] == std[i] <==> Tidy(lines[i]) {
      assert IsLineOf()(lines[i]);
      TidyIff(lines[i]);
    }
    LineTextEmpty(last);
    if code == WithoutEmpty(std) {
      assert WithoutEmpty(std) == std;
      forall i | 0 <= i < |lines| ensures Tidy(lines[i]) { assert code[i] == std[i]; }
    }
    if AllLines(Tidy, lines) {
      forall i | 0 <= i < |lines| ensures code[i] == std[i] { assert Tidy(lines[i]); }
      assert code == std;
    }
  }

  lemma {:induction false} MappedNoCrlf(lines: seq<string>)
    requires AllLines(IsLineOf(), lines)
    ensures NoneHasCrlf(Mapped(LineText, lines)) && NoneHasCrlf(WithoutEmpty(Mapped(RelaxedContent, lines)))
  {
    forall i | 0 <= i < |lines| ensures NoCrlf(LineText(lines[i])) && NoCrlf(RelaxedContent(lines[i])) {
      assert IsLineOf()(lines[i]);
      RelaxedNoCrlf(lines[i]);
    }
  }

  function LastLine(s: string): string {
    var lines := Lines(s);
    if lines == [] then "" else lines[|lines| - 1]
  }

  /**
   * The relaxed body is that of section 3.4.4 exactly when it is empty or, without the empty lines at
   * its end, its last line is not blank, and no line ends in a CR or LF of its own.
   */
  lemma {:induction false} RelaxedIsStandardIff(body: string)
    ensures CanonBody(Relaxed, body) == StandardRelaxed(body)
            <==> body == "" || (!AllBlank(LastLine(DropEmptyLines(body))) && AllLines(Tidy, Lines(body)))
  {
    if body != "" {
      var lines := Lines(DropEmptyLines(body));
      DropNonEmpty(body);
      RelaxIsUnlines(lines);
      TextsMapped(lines);
      CrlfIgnored();
      DropIgnored(RelaxedContent, body);
      DropKeepsAll(Tidy, body);
      LinesShape(DropEmptyLines(body));
      MappedNoCrlf(lines);
      SameLinesIff(lines);
      if CanonBody(Relaxed, body) == StandardRelaxed(body) {
        UnlinesInjective(Mapped(LineText, lines), WithoutEmpty(Mapped(RelaxedContent, lines)));
      }
    }
  }

  lemma {:induction false} CrlfIgnored()
    ensures Content(CRLF) == "" && RelaxedContent(CRLF) == "" && Tidy(CRLF)
  {
    assert CRLF[..0] == "" && CRLF[0..] == CRLF;
  }

  /** A body of one empty line hashes as that line, where the standard ignores it. */
  lemma {:induction false} EmptyLineHashed()
    ensures CanonBody(Relaxed, "\r\n") == "\r\n" && StandardRelaxed("\r\n") == ""
  {
    var s := "\r\n";
    LinesSnoc("");
    assert "" + CRLF == s && Lines("") + [CRLF] == [CRLF] && [CRLF][1..] == [];
    CrlfIgnored();
    assert Mapped(RelaxedContent, [CRLF]) == [""];
    EmptySnoc([]);
    assert [] + [""] == [""];
    assert TrimEnd(CRLF) == "" by { TrimEndCrlf(""); assert "" + CRLF == CRLF; }
  }

  lemma {:induction false} OneLineBody(x: string)
    requires NoCrlf(x)
    ensures Lines(x + CRLF) == [x + CRLF] && Content(x + CRLF) == x
  {
    var s := x + CRLF;
    LineLenOf(x, "");
    assert x + CRLF + "" == s && s[..|s|] == s && s[|s|..] == "";
    assert s[|x|..] == CRLF && s[..|x|] == x;
  }

  lemma {:induction false} OneRelaxed(x: string)
    requires NoCrlf(x) && x != "" && !Wsp(x[|x| - 1])
    ensures StandardRelaxed(x + CRLF) == Collapse(x, false) + CRLF
    ensures RelaxLines(Lines(x + CRLF)) == LineText(x) + CRLF
  {
    var s := x + CRLF;
    OneLineBody(x);
    CollapseKeepsLast(x, false);
    assert Mapped(RelaxedContent, [s]) == [Collapse(x, false)];
    TrimEndCrlf(x);
    UnlinesOne(Collapse(x, false));
    assert [s][1..] == [] && RelaxLine(s) + "" == RelaxLine(s);
  }

  lemma {:induction false} UnlinesOne(c: string)
    ensures Unlines([c]) == c + CRLF
  {
    assert [c][1..] == [] && c + CRLF + "" == c + CRLF;
  }

  /** A CR of its own before the end of a line is taken away, where the standard keeps it. */
  lemma {:induction false} BareCr()
    ensures CanonBody(Relaxed, "a\r\r\n") == "a\r\n" && StandardRelaxed("a\r\r\n") == "a\r\r\n"
  {
    var x := "a\r";
    CrKept();
    CrTrimmed();
    OneRelaxed(x);
    assert x + CRLF == "a\r\r\n" && "a" + CRLF == "a\r\n" && !EndsWith("a\r\r\n", CRLF + CRLF);
  }

  lemma {:induction false} CrKept()
    ensures NoCrlf("a\r") && Collapse("a\r", false) == "a\r"
  {
    assert "a\r"[1..] == "\r" && "a\r"[..1] == "a" && "\r"[1..] == "" && "\r"[..1] == "\r";
    assert Collapse("\r", false) == "\r";
  }

  lemma {:induction false} CrTrimmed()
    ensures LineText("a\r") == "a"
  {
    assert "a\r"[..1] == "a" && "a"[1..] == "" && "a"[..1] == "a";
    assert TrimEnd("a\r") == TrimEnd("a");
  }

  // ---- simple bodies ---------------------------------------------------------------------------------

  lemma {:induction false} MappedCons(f: string -> string, line: string, lines: seq<string>)
    ensures Mapped(f, [line] + lines) == [f(line)] + Mapped(f, lines)
  {
  }

  lemma {:induction false} UnlinesCons(c: string, cs: seq<string>)
    ensures Unlines([c] + cs) == c + CRLF + Unlines(cs)
  {
    assert ([c] + cs)[1..] == cs;
  }

  lemma {:induction false} ContentEnds(line: string)
    requires EndsWith(line, CRLF)
    ensures line == Content(line) + CRLF
  {
  }

  lemma {:induction false} Contents(s: string)
    requires s == "" || EndsWith(s, CRLF)
    ensures Unlines(Mapped(Content, Lines(s))) == s
    decreases |s|
  {
    if s != "" {
      var n := LineLen(s);
      var line, rest := s[..n], s[n..];
      TerminatedLine(s, "");
      LineEnds(s);
      Contents(rest);
      MappedCons(Content, line, Lines(rest));
      UnlinesCons(Content(line), Mapped(Content, Lines(rest)));
      ContentEnds(line);
      assert s == line + rest;
    }
  }

  lemma {:induction false} EmptyLast(init: seq<string>)
    requires init != []
    ensures EndsWith(Unlines(init + [""]), CRLF + CRLF)
  {
    var u := Unlines(init);
    UnlinesSnoc(init, "");
    UnlinesEnd(init);
    var s := u + "" + CRLF;
    assert s == u + CRLF && s[|s| - 4..] == u[|u| - 2..] + CRLF;
  }

  /** Without two CRLFs at its end, a body has no empty last line, or nothing but one. */
  lemma {:induction false} NothingDropped(cs: seq<string>)
    requires cs != [] && !EndsWith(Unlines(cs), CRLF + CRLF)
    ensures cs == [""] || WithoutEmpty(cs) == cs
  {
    if cs[|cs| - 1] == "" {
      var init := cs[..|cs| - 1];
      assert cs == init + [""];
      if init != [] { EmptyLast(init); }
    }
  }

  lemma {:induction false} NothingLeft(s: string)
    requires EndsWith(s, CRLF) && !EndsWith(s, CRLF + CRLF)
    ensures var cs := WithoutEmpty(Mapped(Content, Lines(s))); s == if cs == [] then CRLF else Unlines(cs)
  {
    var cs := Mapped(Content, Lines(s));
    Contents(s);
    NothingDropped(cs);
    if cs == [""] {
      UnlinesOne("");
      EmptySnoc([]);
      assert [] + [""] == [""];
    }
  }

  /** The simple body is that of section 3.4.3 exactly when it is empty or ends in CRLF. */
  lemma {:induction false} SimpleIsStandardIff(body: string)
    ensures CanonBody(Simple, body) == StandardSimple(body) <==> body == "" || EndsWith(body, CRLF)
  {
    SimpleEndsInCrlfIff(body);
    StandardEnds(body);
    if EndsWith(body, CRLF) {
      DropKeepsCrlf(body);
      CrlfIgnored();
      DropIgnored(Content, body);
      NothingLeft(DropEmptyLines(body));
    }
  }

  lemma {:induction false} StandardEnds(body: string)
    ensures EndsWith(StandardSimple(body), CRLF)
  {
    var cs := WithoutEmpty(Mapped(Content, Lines(body)));
    if cs != [] { UnlinesEnd(cs); }
  }

  /** A body without a final CRLF is hashed without one, where the standard adds it. */
  lemma {:induction false} CrlfMissing()
    ensures CanonBody(Simple, "a") == "a" && StandardSimple("a") == "a\r\n"
  {
    var s := "a";
    assert s[..1] == s && s[1..] == "" && Lines(s) == [s] + Lines("");
    MappedCons(Content, s, []);
    assert Mapped(Content, []) == [] && [s] + [] == [s] && WithoutEmpty([s]) == [s];
    UnlinesOne(s);
    assert s + CRLF == "a\r\n";
  }

  // ---- headers ----------------------------------------------------------------------------------------

  /** Section 3.4.1: the header as it stands, with whatever separates name and value. */
  function StandardSimpleHeader(name: string, separator: string, value: string): string {
    name + separator + value + CRLF
  }

  /** The code always writes a colon and a space. */
  lemma {:induction false} SimpleHeaderIsStandardIff(name: string, separator: string, value: string)
    ensures CanonHeader(Simple, name, value) == StandardSimpleHeader(name, separator, value) <==> separator == ": "
  {
    var tail := value + CRLF;
    var code, std := CanonHeader(Simple, name, value), StandardSimpleHeader(name, separator, value);
    assert code == name + (": " + tail) && std == name + (separator + tail);
    if code == std {
      assert code[|name|..] == ": " + tail && std[|name|..] == separator + tail;
      assert (": " + tail)[..2] == ": " && (separator + tail)[..|separator|] == separator;
    }
  }

  /** A CRLF before whitespace is a fold. */
  function Unfold(v: string): string {
    if v == "" then ""
    else if |v| >= 3 && v[0] == '\r' && v[1] == '\n' && Wsp(v[2]) then Unfold(v[2..])
    else v[..1] + Unfold(v[1..])
  }

  function SkipWsp(s: string): string {
    if s != "" && Wsp(s[0]) then SkipWsp(s[1..]) else s
  }

  /** Section 3.4.2: the value unfolded, without whitespace around it and with single spaces in it. */
  function StandardValue(v: string): string {
    Collapse(SkipWsp(TrimWsp(Unfold(v))), false)
  }

  predicate LineBreak(c: char) { c == '\r' || c == '\n' }

  predicate Unbroken(s: string) {
    forall i | 0 <= i < |s| :: !LineBreak(s[i])
  }

  lemma {:induction false} TrimWspKeeps(s: string, c: char)
    requires c in s && !Wsp(c)
    ensures c in TrimWsp(s)
    decreases |s|
  {
    if Wsp(s[|s| - 1]) {
      assert s == s[..|s| - 1] + [s[|s| - 1]];
      TrimWspKeeps(s[..|s| - 1], c);
    }
  }

  lemma {:induction false} SkipWspKeeps(s: string, c: char)
    requires c in s && !Wsp(c)
    ensures c in SkipWsp(s)
  {
    if Wsp(s[0]) { SkipWspKeeps(s[1..], c); }
  }

  lemma {:induction false} CollapseKeeps(s: string, run: bool, c: char)
    requires c in s && !Wsp(c)
    ensures c in Collapse(s, run)
    decreases s
  {
    if s[0] != c { CollapseKeeps(s[1..], Wsp(s[0]), c); }
  }

  lemma {:induction false} FlatUnbroken(s: string, run: bool)
    requires Flat(s, run)
    ensures Unbroken(s)
    decreases s
  {
    if s != "" {
      FlatUnbroken(s[1..], s[0] == ' ');
      assert s == [s[0]] + s[1..];
    }
  }

  lemma {:induction false} UnfoldDelete(v: string)
    ensures DeleteCrLf(Unfold(v)) == DeleteCrLf(v)
  {
    if v != "" {
      if |v| >= 3 && v[0] == '\r' && v[1] == '\n' && Wsp(v[2]) {
        assert v[1..][1..] == v[2..];
        UnfoldDelete(v[2..]);
      } else {
        var u := Unfold(v[1..]);
        UnfoldDelete(v[1..]);
        assert (v[..1] + u)[1..] == u && (v[..1] + u)[..1] == v[..1];
      }
    }
  }

  lemma {:induction false} DeleteNothing(s: string)
    requires Unbroken(s)
    ensures DeleteCrLf(s) == s
  {
    if s != "" {
      assert !LineBreak(s[0]);
      DeleteNothing(s[1..]);
      assert s[..1] + s[1..] == s;
    }
  }

  lemma {:induction false} TrimSame(s: string)
    requires Unbroken(s)
    ensures TrimEnd(s) == TrimWsp(s) && Unbroken(TrimWsp(s))
    decreases |s|
  {
    if s != "" {
      assert !LineBreak(s[|s| - 1]);
      if Wsp(s[|s| - 1]) { TrimSame(s[..|s| - 1]); }
    }
  }

  lemma {:induction false} SkipSame(s: string)
    requires Unbroken(s)
    ensures TrimStart(s) == SkipWsp(s) && Unbroken(SkipWsp(s))
  {
    if s != "" {
      assert !LineBreak(s[0]);
      if Wsp(s[0]) { SkipSame(s[1..]); }
    }
  }

  lemma {:induction false} FlattenSame(s: string, run: bool)
    requires Unbroken(s)
    ensures Flatten(s, run) == Collapse(s, run)
    decreases s
  {
    if s != "" {
      assert !LineBreak(s[0]);
      FlattenSame(s[1..], Wsp(s[0]));
    }
  }

  /** A relaxed value is that of section 3.4.2 exactly when unfolding leaves no CR or LF in it. */
  lemma {:induction false} RelaxedValueIsStandardIff(value: string)
    ensures RelaxValue(value) == StandardValue(value) <==> Unbroken(Unfold(value))
  {
    var u := Unfold(value);
    if Unbroken(u) {
      UnfoldDelete(value);
      DeleteNothing(u);
      UnfoldingIrrelevant(value);
      TrimSame(u);
      SkipSame(TrimWsp(u));
      FlattenSame(SkipWsp(TrimWsp(u)), false);
    } else {
      var i :| 0 <= i < |u| && LineBreak(u[i]);
      TrimWspKeeps(u, u[i]);
      SkipWspKeeps(TrimWsp(u), u[i]);
      CollapseKeeps(SkipWsp(TrimWsp(u)), false, u[i]);
      FlattenFlat(TrimStart(TrimEnd(value)), false);
      FlatUnbroken(RelaxValue(value), false);
    }
  }

  /** A header written without a space after its colon is hashed with one. */
  lemma {:induction false} SpaceAdded()
    ensures CanonHeader(Simple, "A", "b") == "A: b\r\n" && StandardSimpleHeader("A", ":", "b") == "A:b\r\n"
  {
  }

  /** A CR of its own inside a value is taken away, where the standard keeps it. */
  lemma {:induction false} CrInValue()
    ensures RelaxValue("a\rb") != StandardValue("a\rb")
  {
    var v := "a\rb";
    assert v[1..] == "\rb" && "\rb"[1..] == "b" && "b"[1..] == "";
    assert Unfold("b") == "b" && Unfold("\rb") == "\r" + "b" && Unfold(v) == "a" + ("\r" + "b");
    assert LineBreak(Unfold(v)[1]);
    RelaxedValueIsStandardIff(v);
  }
}
