/** Tagged headers: the folding printer, the header parser built on the grammar, and their round trip. */
module DkimHeader {
  import opened Common
  import opened DkimText
  import opened Strings
  import opened DkimParser

  const WIDTH: nat := 75

  /** What joins two lines. */
  const FOLD: string := "\r\n\t"

  // ---- printed values --------------------------------------------------------------

  /** The printer emits bits of the value and whitespace. */
  datatype Tok = Ws(s: string) | Val(s: string)

  function ToksText(ts: seq<Tok>): string {
    if ts == [] then "" else ts[0].s + ToksText(ts[1..])
  }

  /** The value bits are VALCHARs and put together make `value`; the rest is folding whitespace. */
  ghost predicate Spells(ts: seq<Tok>, value: string)
    decreases ts
  {
    if ts == [] then value == ""
    else
      match ts[0]
      case Ws(w) => All(Fws, w) && Spells(ts[1..], value)
      case Val(v) => All(ValChar, v) && v <= value && Spells(ts[1..], value[|v|..])
  }

  lemma {:induction false} SpellsVal(v: string, ts: seq<Tok>, value: string)
    requires All(ValChar, v) && Spells(ts, value)
    ensures Spells([Val(v)] + ts, v + value)
  {
    assert ([Val(v)] + ts)[1..] == ts && (v + value)[|v|..] == value;
  }

  lemma {:induction false} SpellsWs(w: string, ts: seq<Tok>, value: string)
    requires All(Fws, w) && Spells(ts, value)
    ensures Spells([Ws(w)] + ts, value)
  {
    assert ([Ws(w)] + ts)[1..] == ts;
  }

  const EMPTY_BODY := Body("", "", [], "")

  function PrependWs(ws: string, b: Body): Body {
    b.(lead := ws + b.lead)
  }

  function PrependVal(v: string, b: Body): Body {
    if v == "" then b
    else if b.first == "" then Body("", v, [], b.lead + b.trail)
    else if b.lead == "" then b.(first := v + b.first)
    else Body("", v, [Piece(b.lead, b.first)] + b.more, b.trail)
  }

  /** The same text as runs of the value with whitespace between them. */
  function Normal(ts: seq<Tok>): Body {
    if ts == [] then EMPTY_BODY
    else
      match ts[0]
      case Ws(w) => PrependWs(w, Normal(ts[1..]))
      case Val(v) => PrependVal(v, Normal(ts[1..]))
  }

  lemma {:induction false} PrependWsBody(ws: string, b: Body)
    requires ValidBody(b) && All(Fws, ws)
    ensures ValidBody(PrependWs(ws, b))
    ensures BodyText(PrependWs(ws, b)) == ws + BodyText(b)
    ensures BodyValue(PrependWs(ws, b)) == BodyValue(b)
  {
  }

  lemma {:induction false} PrependValBody(v: string, b: Body)
    requires ValidBody(b) && All(ValChar, v)
    ensures ValidBody(PrependVal(v, b))
    ensures BodyText(PrependVal(v, b)) == v + BodyText(b)
    ensures BodyValue(PrependVal(v, b)) == v + BodyValue(b)
  {
    PrependValText(v, b);
    PrependValValue(v, b);
    if v != "" && b.first != "" && b.lead != "" { ValidPiecesCons(Piece(b.lead, b.first), b.more); }
  }

  lemma {:induction false} ValidPiecesCons(p: Piece, ps: seq<Piece>)
    requires ValidPiece(p) && ValidPieces(ps)
    ensures ValidPieces([p] + ps)
  {
  }

  lemma {:induction false} PrependValValue(v: string, b: Body)
    requires b.first == "" ==> b.more == []
    ensures BodyValue(PrependVal(v, b)) == v + BodyValue(b)
  {
    if v == "" {
      assert "" + BodyValue(b) == BodyValue(b);
    } else if b.first != "" && b.lead != "" {
      assert ([Piece(b.lead, b.first)] + b.more)[1..] == b.more;
    }
  }

  lemma {:induction false} NormalOf(ts: seq<Tok>, value: string)
    requires Spells(ts, value)
    ensures ValidBody(Normal(ts)) && BodyText(Normal(ts)) == ToksText(ts) && BodyValue(Normal(ts)) == value
    decreases ts
  {
    if ts != [] {
      match ts[0] {
        case Ws(w) =>
          NormalOf(ts[1..], value);
          PrependWsBody(w, Normal(ts[1..]));
        case Val(v) =>
          NormalOf(ts[1..], value[|v|..]);
          PrependValBody(v, Normal(ts[1..]));
      }
    }
  }

  // ---- the layout of a tag -----------------------------------------------------------

  /** A value too long for any line, broken wherever a line is full. */
  function BreakToks(col: nat, value: string): seq<Tok>
    decreases value
  {
    if value == "" then []
    else if col + 1 >= WIDTH then [Val(value[..1])] + ([Ws(FOLD)] + BreakToks(0, value[1..]))
    else [Val(value[..1])] + BreakToks(col + 1, value[1..])
  }

  function BreakCol(col: nat, value: string): nat
    decreases value
  {
    if value == "" then col else BreakCol(if col + 1 >= WIDTH then 0 else col + 1, value[1..])
  }

  /** The whitespace put before a name of a header list: a new line when it does not fit. */
  function NameWs(col: nat, name: string): string {
    if col + |name| < WIDTH then "" else FOLD + "\t"
  }

  function AfterName(col: nat, name: string): nat {
    if col + |name| < WIDTH then col + |name| else 1 + |name|
  }

  /** A header list, broken before the names that do not fit. */
  function NamesToks(col: nat, names: seq<string>, sep: string): seq<Tok>
    decreases names
  {
    if names == [] then []
    else
      var c, name := col + |sep|, names[0];
      [Val(sep)] + ([Ws(NameWs(c, name))] + ([Val(name)] + NamesToks(AfterName(c, name), names[1..], ":")))
  }

  function NamesCol(col: nat, names: seq<string>, sep: string): nat
    decreases names
  {
    if names == [] then col else NamesCol(AfterName(col + |sep|, names[0]), names[1..], ":")
  }

  function ValueToks(col: nat, name: string, value: string): seq<Tok> {
    if col + |value| < WIDTH then [Val(value)] + []
    else if name == "h" then NamesToks(col, Split(value, ':'), "")
    else if |value| >= WIDTH then BreakToks(col, value)
    else [Ws(FOLD + "\t")] + ([Val(value)] + [])
  }

  function ValueCol(col: nat, name: string, value: string): nat {
    if col + |value| < WIDTH then col + |value|
    else if name == "h" then NamesCol(col, Split(value, ':'), "")
    else if |value| >= WIDTH then BreakCol(col, value)
    else 1 + |value|
  }

  /** `b` and `h` always start a line, and so does whatever would not fit. */
  predicate StartsLine(col: nat, tag: Tag) {
    tag.name == "b" || tag.name == "h" || col + |tag.name| + 2 + |tag.value| >= WIDTH
  }

  function Pre(col: nat, tag: Tag): string {
    if col == 0 then "" else if StartsLine(col, tag) then FOLD else " "
  }

  /** The column after the `=` of a tag. */
  function NameCol(col: nat, tag: Tag): nat {
    (if col == 0 || StartsLine(col, tag) then 0 else col + 1) + |tag.name| + 1
  }

  function TagItem(col: nat, tag: Tag): Item {
    Item(Pre(col, tag), tag.name, Normal(ValueToks(NameCol(col, tag), tag.name, tag.value)))
  }

  function TagCol(col: nat, tag: Tag): nat {
    ValueCol(NameCol(col, tag), tag.name, tag.value) + 1
  }

  function Layout(tags: seq<Tag>, col: nat): (items: seq<Item>)
    ensures |items| == |tags|
  {
    if tags == [] then [] else [TagItem(col, tags[0])] + Layout(tags[1..], TagCol(col, tags[0]))
  }

  /** The folded text of a tag map. */
  function Serialized(tags: seq<Tag>): string {
    Render(Layout(tags, 0))
  }

  // ---- the layout holds the tags --------------------------------------------------------

  ghost predicate ValidTag(tag: Tag) {
    tag.name != "" && All(Alpha, tag.name) && All(ValChar, tag.value)
  }

  lemma {:induction false} BreakToksOf(col: nat, value: string)
    requires All(ValChar, value)
    ensures Spells(BreakToks(col, value), value)
    decreases value
  {
    if value != "" {
      var c, x := value[..1], value[1..];
      assert value == c + x;
      if col + 1 >= WIDTH {
        BreakToksOf(0, x);
        SpellsWs(FOLD, BreakToks(0, x), x);
        SpellsVal(c, [Ws(FOLD)] + BreakToks(0, x), x);
      } else {
        BreakToksOf(col + 1, x);
        SpellsVal(c, BreakToks(col + 1, x), x);
      }
    }
  }

  /** What a header list prints: every name behind a separator. */
  function Listed(names: seq<string>, sep: string): string {
    if names == [] then "" else sep + (names[0] + Listed(names[1..], ":"))
  }

  lemma {:induction false} NamesFirst(col: nat, names: seq<string>, sep: string)
    requires names != []
    ensures var c, name := col + |sep|, names[0];
            && NamesToks(col, names, sep)
               == [Val(sep)] + ([Ws(NameWs(c, name))] + ([Val(name)] + NamesToks(AfterName(c, name), names[1..], ":")))
            && Listed(names, sep) == sep + (name + Listed(names[1..], ":"))
  {
  }

  lemma {:induction false} NameWsBlank(col: nat, name: string)
    ensures All(Fws, NameWs(col, name))
  {
  }

  ghost predicate AllNames(names: seq<string>) {
    forall i | 0 <= i < |names| :: All(ValChar, names[i])
  }

  lemma {:induction false} AllNamesTail(names: seq<string>)
    requires names != [] && AllNames(names)
    ensures All(ValChar, names[0]) && AllNames(names[1..])
  {
  }

  lemma {:induction false} NamesToksOf(col: nat, names: seq<string>, sep: string)
    requires All(ValChar, sep) && AllNames(names)
    ensures Spells(NamesToks(col, names, sep), Listed(names, sep))
    decreases names
  {
    if names != [] {
      var c, name := col + |sep|, names[0];
      var rest, x := NamesToks(AfterName(c, name), names[1..], ":"), Listed(names[1..], ":");
      AllNamesTail(names);
      NamesToksOf(AfterName(c, name), names[1..], ":");
      NamesFirst(col, names, sep);
      NameWsBlank(c, name);
      SpellsName(sep, NameWs(c, name), name, rest, x);
    }
  }

  lemma {:induction false} SpellsName(sep: string, ws: string, name: string, rest: seq<Tok>, x: string)
    requires All(ValChar, sep) && All(Fws, ws) && All(ValChar, name) && Spells(rest, x)
    ensures Spells([Val(sep)] + ([Ws(ws)] + ([Val(name)] + rest)), sep + (name + x))
  {
    SpellsVal(name, rest, x);
    SpellsWs(ws, [Val(name)] + rest, name + x);
    SpellsVal(sep, [Ws(ws)] + ([Val(name)] + rest), name + x);
  }

  lemma {:induction false} ListedIsJoin(names: seq<string>, sep: string)
    requires names != []
    ensures Listed(names, sep) == sep + Join(names, ":")
  {
    if |names| == 1 {
      assert Listed(names[1..], ":") == "";
    } else {
      ListedIsJoin(names[1..], ":");
    }
  }

  lemma {:induction false} SplitClass(value: string, sep: char)
    requires All(ValChar, value)
    ensures AllNames(Split(value, sep))
  {
    if value != "" {
      SplitClass(value[1..], sep);
      AllNamesTail(Split(value[1..], sep));
    }
  }

  lemma {:induction false} ValueToksOf(col: nat, name: string, value: string)
    requires All(ValChar, value)
    ensures Spells(ValueToks(col, name, value), value)
  {
    SpellsVal(value, [], "");
    assert value + "" == value;
    if col + |value| < WIDTH {
    } else if name == "h" {
      SplitClass(value, ':');
      NamesToksOf(col, Split(value, ':'), "");
      ListedIsJoin(Split(value, ':'), "");
      JoinSplit(value, ':');
      assert "" + value == value;
    } else if |value| >= WIDTH {
      BreakToksOf(col, value);
    } else {
      SpellsWs(FOLD + "\t", [Val(value)] + [], value);
    }
  }

  lemma {:induction false} LayoutOf(tags: seq<Tag>, col: nat)
    requires forall t | t in tags :: ValidTag(t)
    ensures ValidItems(Layout(tags, col))
    ensures forall i | 0 <= i < |tags| :: HoldsTag(Layout(tags, col)[i], tags[i])
    decreases tags
  {
    if tags != [] {
      assert ValidTag(tags[0]);
      TagItemOf(col, tags[0]);
      LayoutOf(tags[1..], TagCol(col, tags[0]));
    }
  }

  ghost predicate HoldsTag(it: Item, tag: Tag) {
    it.name == tag.name && BodyValue(it.body) == tag.value
  }

  lemma {:induction false} TagItemOf(col: nat, tag: Tag)
    requires ValidTag(tag)
    ensures ValidItem(TagItem(col, tag)) && HoldsTag(TagItem(col, tag), tag)
  {
    ValueToksOf(NameCol(col, tag), tag.name, tag.value);
    NormalOf(ValueToks(NameCol(col, tag), tag.name, tag.value), tag.value);
  }

  lemma {:induction false} PrependWsText(v: string, b: Body)
    ensures BodyText(PrependWs(v, b)) == v + BodyText(b)
  {
    Assoc4(v, b.lead, BodyRaw(b), b.trail);
  }

  lemma {:induction false} PiecesTextCons(p: Piece, ps: seq<Piece>)
    ensures PiecesText([p] + ps) == p.ws + p.val + PiecesText(ps)
  {
    assert ([p] + ps)[1..] == ps;
  }

  lemma {:induction false} PrependValText(v: string, b: Body)
    requires b.first == "" ==> b.more == []
    ensures BodyText(PrependVal(v, b)) == v + BodyText(b)
    ensures PrependVal(v, b).first == "" ==> PrependVal(v, b).more == []
  {
    if v == "" {
      assert "" + BodyText(b) == BodyText(b);
    } else if b.first != "" && b.lead != "" {
      PiecesTextCons(Piece(b.lead, b.first), b.more);
    }
  }

  lemma {:induction false} NormalText(ts: seq<Tok>)
    ensures BodyText(Normal(ts)) == ToksText(ts)
    ensures Normal(ts).first == "" ==> Normal(ts).more == []
  {
    if ts != [] {
      NormalText(ts[1..]);
      match ts[0]
      case Ws(w) => PrependWsText(w, Normal(ts[1..]));
      case Val(v) => PrependValText(v, Normal(ts[1..]));
    }
  }

  // ---- the printer, line by line ----------------------------------------------------------

  /** The text of the finished lines and the current one. */
  function Written(lines: seq<string>, line: string): string {
    Join(lines + [line], FOLD)
  }

  lemma {:induction false} WrittenMore(lines: seq<string>, line: string, t: string)
    ensures Written(lines, line + t) == Written(lines, line) + t
  {
    JoinExtend(lines, line, t, FOLD);
  }

  lemma {:induction false} WrittenFold(lines: seq<string>, line: string, t: string)
    ensures Written(lines + [line], t) == Written(lines, line) + FOLD + t
  {
    JoinSnoc(lines + [line], t, FOLD);
  }

  lemma {:induction false} ToksTextCons(t: Tok, ts: seq<Tok>)
    ensures ToksText([t] + ts) == t.s + ToksText(ts)
  {
    assert ([t] + ts)[1..] == ts;
  }

  method EmitBroken(lines0: seq<string>, line0: string, value: string) returns (lines: seq<string>, line: string)
    ensures Written(lines, line) == Written(lines0, line0) + ToksText(BreakToks(|line0|, value))
    ensures |line| == BreakCol(|line0|, value)
  {
    lines, line := lines0, line0;
    for j := 0 to |value|
      invariant Written(lines, line) + ToksText(BreakToks(|line|, value[j..]))
             == Written(lines0, line0) + ToksText(BreakToks(|line0|, value))
      invariant BreakCol(|line|, value[j..]) == BreakCol(|line0|, value)
    {
      ghost var rest := value[j..];
      BrokenStep(lines, line, rest);
      assert rest[1..] == value[j + 1..] && rest[..1] == [value[j]];
      line := line + [value[j]];
      if |line| >= WIDTH {
        lines := lines + [line];
        line := "";
      }
    }
    assert value[|value|..] == "";
  }

  lemma {:induction false} BrokenStep(lines: seq<string>, line: string, rest: string)
    requires rest != ""
    ensures var l := line + rest[..1];
            Written(lines, line) + ToksText(BreakToks(|line|, rest))
            == if |l| >= WIDTH then Written(lines + [l], "") + ToksText(BreakToks(0, rest[1..]))
               else Written(lines, l) + ToksText(BreakToks(|l|, rest[1..]))
  {
    var c, x, w := rest[..1], rest[1..], Written(lines, line);
    WrittenMore(lines, line, c);
    if |line| + 1 >= WIDTH {
      var t := ToksText(BreakToks(0, x));
      assert ToksText(BreakToks(|line|, rest)) == c + (FOLD + t) by {
        ToksTextCons(Ws(FOLD), BreakToks(0, x));
        ToksTextCons(Val(c), [Ws(FOLD)] + BreakToks(0, x));
      }
      WrittenFold(lines, line + c, "");
      Assoc4(w, c, FOLD, t);
      assert w + c + FOLD + "" == w + c + FOLD;
    } else {
      ToksTextCons(Val(c), BreakToks(|line| + 1, x));
      Assoc3(w, c, ToksText(BreakToks(|line| + 1, x)));
    }
  }

  method EmitNames(lines0: seq<string>, line0: string, names: seq<string>) returns (lines: seq<string>, line: string)
    ensures Written(lines, line) == Written(lines0, line0) + ToksText(NamesToks(|line0|, names, ""))
    ensures |line| == NamesCol(|line0|, names, "")
  {
    lines, line := lines0, line0;
    for idx := 0 to |names|
      invariant Written(lines, line) + ToksText(NamesToks(|line|, names[idx..], if idx > 0 then ":" else ""))
             == Written(lines0, line0) + ToksText(NamesToks(|line0|, names, ""))
      invariant NamesCol(|line|, names[idx..], if idx > 0 then ":" else "") == NamesCol(|line0|, names, "")
    {
      ghost var sep := if idx > 0 then ":" else "";
      NamesStep(lines, line, names[idx..], sep);
      NamesColStep(line, names[idx..], sep);
      assert names[idx..][1..] == names[idx + 1..] && names[idx..][0] == names[idx];
      assert line + "" == line;
      if idx > 0 { line := line + ":"; }
      var name := names[idx];
      if |line| + |name| < WIDTH {
        line := line + name;
      } else {
        lines := lines + [line];
        line := "\t" + name;
      }
    }
    assert names[|names|..] == [];
  }

  lemma {:induction false} NamesStep(lines: seq<string>, line: string, names: seq<string>, sep: string)
    requires names != []
    ensures var l, name := line + sep, names[0];
            Written(lines, line) + ToksText(NamesToks(|line|, names, sep))
            == if |l| + |name| < WIDTH
               then Written(lines, l + name) + ToksText(NamesToks(|l + name|, names[1..], ":"))
               else Written(lines + [l], "\t" + name) + ToksText(NamesToks(|"\t" + name|, names[1..], ":"))
  {
    var l, name, w := line + sep, names[0], Written(lines, line);
    var ws := NameWs(|l|, name);
    var rest := NamesToks(AfterName(|l|, name), names[1..], ":");
    var t := ToksText(rest);
    assert ToksText(NamesToks(|line|, names, sep)) == sep + (ws + (name + t)) by {
      ToksTextCons(Val(name), rest);
      ToksTextCons(Ws(ws), [Val(name)] + rest);
      ToksTextCons(Val(sep), [Ws(ws)] + ([Val(name)] + rest));
    }
    Assoc5(w, sep, ws, name, t);
    NameLine(lines, line, sep, name);
  }

  lemma {:induction false} NamesColStep(line: string, names: seq<string>, sep: string)
    requires names != []
    ensures var l, name := line + sep, names[0];
            NamesCol(|line|, names, sep)
            == NamesCol(if |l| + |name| < WIDTH then |l + name| else |"\t" + name|, names[1..], ":")
  {
  }

  /** A separator and a name, on this line or on a new one. */
  lemma {:induction false} NameLine(lines: seq<string>, line: string, sep: string, name: string)
    ensures var l := line + sep;
            Written(lines, line) + sep + NameWs(|l|, name) + name
            == if |l| + |name| < WIDTH then Written(lines, l + name) else Written(lines + [l], "\t" + name)
  {
    var l, w := line + sep, Written(lines, line);
    WrittenMore(lines, line, sep);
    if |l| + |name| < WIDTH {
      WrittenMore(lines, l, name);
      assert w + sep + "" == w + sep;
    } else {
      WrittenFold(lines, l, "\t" + name);
      assert w + sep + (FOLD + "\t") + name == w + sep + FOLD + ("\t" + name);
    }
  }

  method EmitValue(lines0: seq<string>, line0: string, name: string, value: string)
    returns (lines: seq<string>, line: string)
    ensures Written(lines, line) == Written(lines0, line0) + ToksText(ValueToks(|line0|, name, value))
    ensures |line| == ValueCol(|line0|, name, value)
  {
    lines, line := lines0, line0;
    if |line| + |value| < WIDTH {
      line := line + value;
      WrittenMore(lines0, line0, value);
      ToksTextCons(Val(value), []);
      assert value + "" == value;
    } else if name == "h" {
      lines, line := EmitNames(lines, line, Split(value, ':'));
    } else if |value| >= WIDTH {
      lines, line := EmitBroken(lines, line, value);
    } else {
      lines := lines + [line];
      line := "\t" + value;
      WrittenFold(lines0, line0, line);
      ToksTextCons(Val(value), []);
      ToksTextCons(Ws(FOLD + "\t"), [Val(value)] + []);
      assert Written(lines0, line0) + FOLD + line == Written(lines0, line0) + (FOLD + "\t" + (value + ""));
    }
  }

  /** Everything up to and including the `=` of a tag. */
  method EmitName(lines0: seq<string>, line0: string, tag: Tag) returns (lines: seq<string>, line: string)
    ensures Written(lines, line) == Written(lines0, line0) + (Pre(|line0|, tag) + tag.name + "=")
    ensures |line| == NameCol(|line0|, tag)
  {
    lines, line := lines0, line0;
    var alwaysNewLine := tag.name == "b" || tag.name == "h";
    if alwaysNewLine || |line| + |tag.name| + 2 + |tag.value| >= WIDTH {
      if line != "" {
        lines := lines + [line];
        line := "";
      }
    }
    ghost var before := line;
    if line != "" { line := line + " "; }
    line := line + tag.name;
    line := line + "=";
    NameWritten(lines0, line0, lines, before, line, tag);
  }

  lemma {:induction false} NameWritten(lines0: seq<string>, line0: string, lines: seq<string>, before: string,
                                       line: string, tag: Tag)
    requires var gap := if before != "" then " " else ""; line == before + gap + tag.name + "="
    requires if line0 != "" && StartsLine(|line0|, tag) then lines == lines0 + [line0] && before == ""
             else lines == lines0 && before == line0
    ensures Written(lines, line) == Written(lines0, line0) + (Pre(|line0|, tag) + tag.name + "=")
  {
    var gap := if before != "" then " " else "";
    Assoc4(before, gap, tag.name, "=");
    WrittenMore(lines, before, gap + tag.name + "=");
    if lines != lines0 { WrittenFold(lines0, line0, ""); }
    Assoc4(Written(lines0, line0), Pre(|line0|, tag), tag.name, "=");
  }

  lemma {:induction false} ItemTextOf(col: nat, tag: Tag)
    ensures ItemText(TagItem(col, tag))
         == Pre(col, tag) + tag.name + "=" + ToksText(ValueToks(NameCol(col, tag), tag.name, tag.value))
  {
    NormalText(ValueToks(NameCol(col, tag), tag.name, tag.value));
  }

  method EmitTag(lines0: seq<string>, line0: string, tag: Tag) returns (lines: seq<string>, line: string)
    ensures Written(lines, line) == Written(lines0, line0) + (ItemText(TagItem(|line0|, tag)) + ";")
    ensures |line| == TagCol(|line0|, tag)
  {
    lines, line := EmitName(lines0, line0, tag);
    lines, line := EmitValue(lines, line, tag.name, tag.value);
    WrittenMore(lines, line, ";");
    line := line + ";";
    ItemTextOf(|line0|, tag);
    Assoc4(Written(lines0, line0), Pre(|line0|, tag) + tag.name + "=",
            ToksText(ValueToks(NameCol(|line0|, tag), tag.name, tag.value)), ";");
  }

  /** `TaggedHeader::serialize` */
  method Serialize(tags: seq<Tag>) returns (text: string)
    ensures text == Serialized(tags)
  {
    var lines: seq<string>, line := [], "";
    for i := 0 to |tags|
      invariant Written(lines, line) + Render(Layout(tags[i..], |line|)) == Serialized(tags)
      invariant line == "" ==> lines == []
    {
      ghost var col, written := |line|, Written(lines, line);
      lines, line := EmitTag(lines, line, tags[i]);
      SerializeStep(tags, i, col, written);
    }
    assert tags[|tags|..] == [];
    if line != "" { lines := lines + [line]; }
    text := Join(lines, FOLD);
  }

  lemma {:induction false} SerializeStep(tags: seq<Tag>, i: nat, col: nat, written: string)
    requires i < |tags|
    ensures written + Render(Layout(tags[i..], col))
         == written + (ItemText(TagItem(col, tags[i])) + ";") + Render(Layout(tags[i + 1..], TagCol(col, tags[i])))
  {
    RenderNext(tags[i..], col);
    assert tags[i..][1..] == tags[i + 1..];
    Assoc4(written, ItemText(TagItem(col, tags[i])), ";", Render(Layout(tags[i + 1..], TagCol(col, tags[i]))));
    Assoc4("", written, ItemText(TagItem(col, tags[i])), ";");
  }

  lemma {:induction false} RenderNext(tags: seq<Tag>, col: nat)
    requires tags != []
    ensures Render(Layout(tags, col))
         == ItemText(TagItem(col, tags[0])) + ";" + Render(Layout(tags[1..], TagCol(col, tags[0])))
  {
    var items := Layout(tags, col);
    assert items[1..] == Layout(tags[1..], TagCol(col, tags[0]));
  }

  // ---- headers --------------------------------------------------------------------------

  /** A parsed or built header: its tags, in order and with distinct names, and its text. */
  datatype TaggedHeader = TaggedHeader(tags: seq<Tag>, raw: string)

  ghost predicate Distinct(tags: seq<Tag>) {
    forall i, j | 0 <= i < j < |tags| :: tags[i].name != tags[j].name
  }

  /** Inserting into an ordered map: a name that is there keeps its place. */
  function InsertTag(tags: seq<Tag>, tag: Tag): seq<Tag> {
    if tags == [] then [tag]
    else if tags[0].name == tag.name then [tag] + tags[1..]
    else [tags[0]] + InsertTag(tags[1..], tag)
  }

  function GetTag(tags: seq<Tag>, name: string): Option<Tag> {
    if tags == [] then None else if tags[0].name == name then Some(tags[0]) else GetTag(tags[1..], name)
  }

  function Collected(tags: seq<Tag>): seq<Tag> {
    if tags == [] then [] else InsertTag(Collected(tags[..|tags| - 1]), tags[|tags| - 1])
  }

  /** `TaggedHeader::parse`: what follows the tag list is ignored. */
  function ParseHeader(value: string): Option<TaggedHeader> {
    match TagList(value)
    case Fail => None
    case Done(_, tags) => Some(TaggedHeader(Collected(tags), value))
  }

  lemma {:induction false} InsertNew(tags: seq<Tag>, tag: Tag)
    requires forall i | 0 <= i < |tags| :: tags[i].name != tag.name
    ensures InsertTag(tags, tag) == tags + [tag]
  {
    if tags != [] { InsertNew(tags[1..], tag); }
  }

  lemma {:induction false} CollectedDistinct(tags: seq<Tag>)
    requires Distinct(tags)
    ensures Collected(tags) == tags
  {
    if tags != [] {
      var init := tags[..|tags| - 1];
      CollectedDistinct(init);
      InsertNew(init, tags[|tags| - 1]);
      assert tags == init + [tags[|tags| - 1]];
    }
  }

  ghost predicate ValidTags(tags: seq<Tag>) {
    Distinct(tags) && forall t | t in tags :: ValidTag(t)
  }

  /**
   * Parsing what was printed gives back the same names and values in the same order, wherever the
   * folds fall, and reads the text to its end.
   */
  lemma {:induction false} RoundTrip(tags: seq<Tag>)
    requires tags != [] && ValidTags(tags)
    ensures TagList(Serialized(tags)).Done? && TagList(Serialized(tags)).end == |Serialized(tags)|
    ensures ParseHeader(Serialized(tags)) == Some(TaggedHeader(ItemTags(Layout(tags, 0)), Serialized(tags)))
    ensures var parsed := ItemTags(Layout(tags, 0));
            |parsed| == |tags|
            && forall i | 0 <= i < |tags| :: parsed[i].name == tags[i].name && parsed[i].value == tags[i].value
  {
    LayoutOf(tags, 0);
    TagListOf(Layout(tags, 0));
    CollectedDistinct(ItemTags(Layout(tags, 0)));
  }
}
