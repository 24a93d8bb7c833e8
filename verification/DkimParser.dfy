/** The tag-list grammar of section 3.2 of RFC 6376, as the combinator parser reads it. */
module DkimParser {
  import opened Common
  import opened DkimText

  datatype Tag = Tag(name: string, value: string, raw: string)

  /** A parser's answer: where it stopped, and what it read. */
  datatype Parsed<+T> = Fail | Done(end: nat, value: T)

  /** Parsers read a text from a position on. */
  type Parser<!T> = (string, nat) -> Parsed<T>

  /** `fold_many0`: the results of running `p` until it fails, and where that is. */
  function Many<T>(p: Parser<T>, s: string, i: nat): seq<T>
    decreases |s| - i
  {
    match p(s, i)
    case Fail => []
    case Done(n, x) => if i < n <= |s| then [x] + Many(p, s, n) else []
  }

  function ManyEnd<T>(p: Parser<T>, s: string, i: nat): nat
    decreases |s| - i
  {
    match p(s, i)
    case Fail => i
    case Done(n, _) => if i < n <= |s| then ManyEnd(p, s, n) else i
  }

  /** Running `p` from `i` on gives `xs` one by one, and then fails at `end`. */
  ghost predicate Reads<T>(p: Parser<T>, s: string, i: nat, xs: seq<T>, end: nat)
    decreases xs
  {
    if xs == [] then i == end && p(s, i).Fail?
    else
      match p(s, i)
      case Fail => false
      case Done(n, x) => i < n <= |s| && x == xs[0] && Reads(p, s, n, xs[1..], end)
  }

  lemma {:induction false} ManyReads<T>(p: Parser<T>, s: string, i: nat, xs: seq<T>, end: nat)
    requires Reads(p, s, i, xs, end)
    ensures Many(p, s, i) == xs && ManyEnd(p, s, i) == end
    decreases xs
  {
    if xs != [] { ManyReads(p, s, p(s, i).end, xs[1..], end); }
  }

  lemma {:induction false} ReadsCons<T>(p: Parser<T>, s: string, i: nat, n: nat, xs: seq<T>, end: nat)
    requires xs != [] && i < n <= |s| && p(s, i) == Done(n, xs[0]) && Reads(p, s, n, xs[1..], end)
    ensures Reads(p, s, i, xs, end)
  {
  }

  // ---- the grammar ---------------------------------------------------------------

  /** Folding whitespace followed by more of the value. */
  datatype Piece = Piece(ws: string, val: string)

  /** `pair(fws, take_while1(is_valchar))` */
  function MorePiece(s: string, i: nat): Parsed<Piece> {
    if i > |s| then Fail
    else
      var w := SpanEnd(Fws, s, i);
      var v := SpanEnd(ValChar, s, w);
      if w == i || v == w then Fail else Done(v, Piece(s[i..w], s[w..v]))
  }

  function Runs(s: string, i: nat): seq<Piece> { Many(MorePiece, s, i) }

  function RunsEnd(s: string, i: nat): nat { ManyEnd(MorePiece, s, i) }

  function PiecesText(ps: seq<Piece>): string {
    if ps == [] then "" else ps[0].ws + ps[0].val + PiecesText(ps[1..])
  }

  function PiecesValue(ps: seq<Piece>): string {
    if ps == [] then "" else ps[0].val + PiecesValue(ps[1..])
  }

  /** `tag_value`: the runs with the whitespace between them dropped. */
  function TagValue(s: string, i: nat): Parsed<string> {
    if i > |s| then Fail
    else
      var v := SpanEnd(ValChar, s, i);
      if v == i then Done(i, "")
      else Done(RunsEnd(s, v), s[i..v] + PiecesValue(Runs(s, v)))
  }

  /** `raw_tag_value`: the same, with the whitespace kept. */
  function RawTagValue(s: string, i: nat): Parsed<string> {
    if i > |s| then Fail
    else
      var v := SpanEnd(ValChar, s, i);
      if v == i then Done(i, "")
      else Done(RunsEnd(s, v), s[i..v] + PiecesText(Runs(s, v)))
  }

  /** The `opt(fws)` after what was read. */
  function Trailing<T>(s: string, r: Parsed<T>): Parsed<T> {
    match r
    case Fail => Fail
    case Done(n, x) => if n > |s| then Fail else Done(SpanEnd(Fws, s, n), x)
  }

  /** `delimited(opt(fws), _, opt(fws))` around a value and a raw value. */
  function SpacedValue(s: string, i: nat): Parsed<string> {
    if i > |s| then Fail else Trailing(s, TagValue(s, SpanEnd(Fws, s, i)))
  }

  function SpacedRaw(s: string, i: nat): Parsed<string> {
    if i > |s| then Fail else Trailing(s, RawTagValue(s, SpanEnd(Fws, s, i)))
  }

  /** tag-name, as `alpha1`. */
  function TagName(s: string, i: nat): Parsed<string> {
    if i > |s| then Fail
    else
      var n := SpanEnd(Alpha, s, i);
      if n == i then Fail else Done(n, s[i..n])
  }

  function SpacedName(s: string, i: nat): Parsed<string> {
    if i > |s| then Fail else Trailing(s, TagName(s, SpanEnd(Fws, s, i)))
  }

  /** tag-spec = [FWS] tag-name [FWS] "=" [FWS] tag-value [FWS]; the value is read twice. */
  function TagSpec(s: string, i: nat): Parsed<Tag> {
    match SpacedName(s, i)
    case Fail => Fail
    case Done(n, name) =>
      if n >= |s| || s[n] != '=' then Fail
      else
        match (SpacedRaw(s, n + 1), SpacedValue(s, n + 1))
        case (Done(_, raw), Done(end, value)) => Done(end, Tag(name, value, raw))
        case _ => Fail
  }

  /** `preceded(tag(";"), tag_spec)` */
  function NextTag(s: string, i: nat): Parsed<Tag> {
    if i < |s| && s[i] == ';' then TagSpec(s, i + 1) else Fail
  }

  function MoreTags(s: string, i: nat): seq<Tag> { Many(NextTag, s, i) }

  function MoreTagsEnd(s: string, i: nat): nat { ManyEnd(NextTag, s, i) }

  /** tag-list = tag-spec *( ";" tag-spec ) [ ";" ] */
  function TagList(s: string): Parsed<seq<Tag>> {
    match TagSpec(s, 0)
    case Fail => Fail
    case Done(n, tag) =>
      var end := MoreTagsEnd(s, n);
      Done(if end < |s| && s[end] == ';' then end + 1 else end, [tag] + MoreTags(s, n))
  }

  // ---- values with folding whitespace in them ----------------------------------

  /** A printed value: whitespace before it, its first run, further runs, whitespace after it. */
  datatype Body = Body(lead: string, first: string, more: seq<Piece>, trail: string)

  ghost predicate ValidPiece(p: Piece) {
    All(Fws, p.ws) && p.ws != "" && All(ValChar, p.val) && p.val != ""
  }

  ghost predicate ValidPieces(ps: seq<Piece>) {
    forall i | 0 <= i < |ps| :: ValidPiece(ps[i])
  }

  lemma {:induction false} ValidPiecesTail(ps: seq<Piece>)
    requires ps != [] && ValidPieces(ps)
    ensures ValidPiece(ps[0]) && ValidPieces(ps[1..])
  {
  }

  ghost predicate ValidBody(b: Body) {
    && All(Fws, b.lead) && All(Fws, b.trail) && All(ValChar, b.first)
    && (b.first == "" ==> b.more == [])
    && ValidPieces(b.more)
  }

  /** The value as a reader means it, and as it stands in the text. */
  function BodyValue(b: Body): string { b.first + PiecesValue(b.more) }

  function BodyRaw(b: Body): string { b.first + PiecesText(b.more) }

  function BodyText(b: Body): string { b.lead + BodyRaw(b) + b.trail }

  /** Neither whitespace nor VALCHAR follows at `i`: the place where a value must end. */
  predicate EndsValue(s: string, i: nat) {
    i < |s| && !In(Fws, s[i]) && !In(ValChar, s[i])
  }

  ghost predicate TrailAt(s: string, i: nat, trail: string) {
    All(Fws, trail) && At(s, i, trail) && EndsValue(s, i + |trail|)
  }

  ghost predicate PieceAt(s: string, i: nat, p: Piece) {
    ValidPiece(p) && At(s, i, p.ws) && At(s, i + |p.ws|, p.val)
  }

  ghost predicate PiecesAt(s: string, i: nat, ps: seq<Piece>, trail: string)
    decreases ps
  {
    if ps == [] then TrailAt(s, i, trail)
    else PieceAt(s, i, ps[0]) && PiecesAt(s, i + |ps[0].ws| + |ps[0].val|, ps[1..], trail)
  }

  lemma {:induction false} PiecesPlaced(s: string, i: nat, ps: seq<Piece>, trail: string)
    requires ValidPieces(ps)
    requires At(s, i, PiecesText(ps)) && TrailAt(s, i + |PiecesText(ps)|, trail)
    ensures PiecesAt(s, i, ps, trail)
    decreases ps
  {
    if ps != [] {
      ValidPiecesTail(ps);
      FirstPlaced(s, i, ps[0], PiecesText(ps[1..]));
      PiecesPlaced(s, i + |ps[0].ws| + |ps[0].val|, ps[1..], trail);
    }
  }

  lemma {:induction false} FirstPlaced(s: string, i: nat, p: Piece, rest: string)
    requires ValidPiece(p) && At(s, i, p.ws + p.val + rest)
    ensures PieceAt(s, i, p) && At(s, i + |p.ws| + |p.val|, rest)
  {
    AtConcat(s, i, p.ws + p.val, rest);
    AtConcat(s, i, p.ws, p.val);
  }

  /** A printed piece is read where it was put. */
  lemma {:induction false} MorePieceAt(s: string, i: nat, p: Piece)
    requires PieceAt(s, i, p)
    requires var v := i + |p.ws| + |p.val|; v < |s| && !In(ValChar, s[v])
    ensures MorePiece(s, i) == Done(i + |p.ws| + |p.val|, p) && !In(ValChar, s[i])
  {
    var w := i + |p.ws|;
    assert s[i] == s[i..w][0];
    assert s[w] == s[w..w + |p.val|][0];
    SpanAt(Fws, s, i, p.ws);
    SpanAt(ValChar, s, w, p.val);
  }

  lemma {:induction false} TrailStops(s: string, i: nat, trail: string)
    requires TrailAt(s, i, trail)
    ensures MorePiece(s, i) == Fail && !In(ValChar, s[i])
  {
    SpanAt(Fws, s, i, trail);
    if trail != "" { assert s[i] == s[i..i + |trail|][0]; }
  }

  lemma {:induction false} PiecesStart(s: string, i: nat, ps: seq<Piece>, trail: string)
    requires PiecesAt(s, i, ps, trail)
    ensures i < |s| && !In(ValChar, s[i])
  {
    if ps == [] {
      TrailStops(s, i, trail);
    } else {
      assert s[i] == s[i..i + |ps[0].ws|][0];
    }
  }

  ghost predicate PieceEndsAt(s: string, i: nat, p: Piece, n: nat) {
    PieceAt(s, i, p) && n == i + |p.ws| + |p.val| && n < |s| && !In(ValChar, s[n])
  }

  function PiecesEnd(i: nat, ps: seq<Piece>): nat
    decreases ps
  {
    if ps == [] then i else PiecesEnd(i + |ps[0].ws| + |ps[0].val|, ps[1..])
  }

  lemma {:induction false} PiecesEndIs(i: nat, ps: seq<Piece>)
    ensures PiecesEnd(i, ps) == i + |PiecesText(ps)|
    decreases ps
  {
    if ps != [] { PiecesEndIs(i + |ps[0].ws| + |ps[0].val|, ps[1..]); }
  }

  /** The pieces are read one after the other by any parser that reads each of them. */
  lemma {:induction false} PiecesReadBy(p: Parser<Piece>, s: string, i: nat, ps: seq<Piece>, trail: string)
    requires PiecesAt(s, i, ps, trail)
    requires forall j: nat, x, n: nat | PieceEndsAt(s, j, x, n) :: p(s, j) == Done(n, x)
    requires forall j: nat | TrailAt(s, j, trail) :: p(s, j).Fail?
    ensures Reads(p, s, i, ps, PiecesEnd(i, ps))
    decreases ps
  {
    if ps != [] {
      var n := i + |ps[0].ws| + |ps[0].val|;
      PieceNext(s, i, ps, trail);
      PiecesReadBy(p, s, n, ps[1..], trail);
      ReadsCons(p, s, i, n, ps, PiecesEnd(i, ps));
    }
  }

  lemma {:induction false} PieceNext(s: string, i: nat, ps: seq<Piece>, trail: string)
    requires ps != [] && PiecesAt(s, i, ps, trail)
    ensures var n := i + |ps[0].ws| + |ps[0].val|;
            i < n <= |s| && PieceEndsAt(s, i, ps[0], n) && PiecesAt(s, n, ps[1..], trail)
  {
    PiecesStart(s, i + |ps[0].ws| + |ps[0].val|, ps[1..], trail);
  }

  lemma {:induction false} PiecesRead(s: string, i: nat, ps: seq<Piece>, trail: string)
    requires PiecesAt(s, i, ps, trail)
    ensures Runs(s, i) == ps && RunsEnd(s, i) == i + |PiecesText(ps)|
  {
    forall j: nat, x, n: nat | PieceEndsAt(s, j, x, n) ensures MorePiece(s, j) == Done(n, x) { MorePieceAt(s, j, x); }
    forall j: nat | TrailAt(s, j, trail) ensures MorePiece(s, j).Fail? { TrailStops(s, j, trail); }
    PiecesReadBy(MorePiece, s, i, ps, trail);
    ManyReads(MorePiece, s, i, ps, PiecesEnd(i, ps));
    PiecesEndIs(i, ps);
  }

  ghost predicate BodyAt(s: string, i: nat, b: Body) {
    ValidBody(b) && At(s, i, b.first) && PiecesAt(s, i + |b.first|, b.more, b.trail)
  }

  lemma {:induction false} FirstRun(s: string, i: nat, b: Body)
    requires BodyAt(s, i, b)
    ensures SpanEnd(ValChar, s, i) == i + |b.first|
  {
    PiecesStart(s, i + |b.first|, b.more, b.trail);
    SpanAt(ValChar, s, i, b.first);
  }

  lemma {:induction false} BodyRead(s: string, i: nat, b: Body)
    requires BodyAt(s, i, b)
    ensures TagValue(s, i) == Done(i + |BodyRaw(b)|, BodyValue(b))
    ensures RawTagValue(s, i) == Done(i + |BodyRaw(b)|, BodyRaw(b))
  {
    RunsAre(s, i, b);
    RunsRead(s, i, b);
  }

  /** The first run ends and the further runs are found where they were put. */
  ghost predicate RunsAt(s: string, i: nat, b: Body) {
    var v := i + |b.first|;
    && At(s, i, b.first) && SpanEnd(ValChar, s, i) == v && (b.first == "" ==> b.more == [])
    && Runs(s, v) == b.more && RunsEnd(s, v) == v + |PiecesText(b.more)|
  }

  lemma {:induction false} RunsAre(s: string, i: nat, b: Body)
    requires BodyAt(s, i, b)
    ensures RunsAt(s, i, b)
  {
    FirstRun(s, i, b);
    PiecesRead(s, i + |b.first|, b.more, b.trail);
  }

  lemma {:induction false} RunsRead(s: string, i: nat, b: Body)
    requires RunsAt(s, i, b)
    ensures TagValue(s, i) == Done(i + |BodyRaw(b)|, BodyValue(b))
    ensures RawTagValue(s, i) == Done(i + |BodyRaw(b)|, BodyRaw(b))
  {
  }

  lemma {:induction false} BodyPlaced(s: string, i: nat, b: Body)
    requires ValidBody(b) && At(s, i, BodyText(b)) && EndsValue(s, i + |BodyText(b)|)
    ensures At(s, i, b.lead) && BodyAt(s, i + |b.lead|, b)
    ensures TrailAt(s, i + |b.lead| + |BodyRaw(b)|, b.trail)
  {
    AtConcat(s, i, b.lead + BodyRaw(b), b.trail);
    AtConcat(s, i, b.lead, BodyRaw(b));
    RunsPlaced(s, i + |b.lead|, b);
  }

  lemma {:induction false} RunsPlaced(s: string, i: nat, b: Body)
    requires ValidBody(b) && At(s, i, BodyRaw(b)) && TrailAt(s, i + |BodyRaw(b)|, b.trail)
    ensures BodyAt(s, i, b)
  {
    AtConcat(s, i, b.first, PiecesText(b.more));
    assert i + |BodyRaw(b)| == i + |b.first| + |PiecesText(b.more)|;
    PiecesPlaced(s, i + |b.first|, b.more, b.trail);
  }

  /** Whitespace in front and behind is skipped. */
  lemma {:induction false} Skips(s: string, i: nat, lead: string, n: nat, trail: string)
    requires All(Fws, lead) && At(s, i, lead) && i + |lead| < |s| && !In(Fws, s[i + |lead|])
    requires All(Fws, trail) && At(s, n, trail) && (n + |trail| < |s| ==> !In(Fws, s[n + |trail|]))
    ensures SpanEnd(Fws, s, i) == i + |lead| && n <= |s| && SpanEnd(Fws, s, n) == n + |trail|
  {
    SpanAt(Fws, s, i, lead);
    SpanAt(Fws, s, n, trail);
  }

  lemma {:induction false} EmptyRead(s: string, i: nat)
    requires EndsValue(s, i)
    ensures TagValue(s, i) == Done(i, "") && RawTagValue(s, i) == Done(i, "")
  {
  }

  /** A printed value reads back as its runs alone, and raw as its text without the outer whitespace. */
  lemma {:induction false} ValueOf(s: string, i: nat, b: Body)
    requires ValidBody(b) && At(s, i, BodyText(b)) && EndsValue(s, i + |BodyText(b)|)
    ensures SpacedValue(s, i) == Done(i + |BodyText(b)|, BodyValue(b))
    ensures SpacedRaw(s, i) == Done(i + |BodyText(b)|, BodyRaw(b))
  {
    BodyPlaced(s, i, b);
    if b.first == "" {
      EmptyOf(s, i, b);
    } else {
      NonEmptyOf(s, i, b);
    }
  }

  lemma {:induction false} NonEmptyOf(s: string, i: nat, b: Body)
    requires b.first != "" && At(s, i, b.lead) && BodyAt(s, i + |b.lead|, b)
    requires TrailAt(s, i + |b.lead| + |BodyRaw(b)|, b.trail)
    ensures SpacedValue(s, i) == Done(i + |BodyText(b)|, BodyValue(b))
    ensures SpacedRaw(s, i) == Done(i + |BodyText(b)|, BodyRaw(b))
  {
    var k := i + |b.lead|;
    assert s[k] == s[k..k + |b.first|][0];
    BodyRead(s, k, b);
    SpacedBody(s, i, b.lead, k + |BodyRaw(b)|, b.trail, BodyValue(b), BodyRaw(b));
  }

  lemma {:induction false} SpacedBody(s: string, i: nat, lead: string, n: nat, trail: string, value: string,
                                      raw: string)
    requires All(Fws, lead) && At(s, i, lead) && i + |lead| < |s| && !In(Fws, s[i + |lead|]) && TrailAt(s, n, trail)
    requires TagValue(s, i + |lead|) == Done(n, value) && RawTagValue(s, i + |lead|) == Done(n, raw)
    ensures SpacedValue(s, i) == Done(n + |trail|, value) && SpacedRaw(s, i) == Done(n + |trail|, raw)
  {
    Skips(s, i, lead, n, trail);
  }

  lemma {:induction false} EmptyOf(s: string, i: nat, b: Body)
    requires ValidBody(b) && b.first == "" && At(s, i, b.lead) && TrailAt(s, i + |b.lead|, b.trail)
    ensures SpacedValue(s, i) == Done(i + |BodyText(b)|, BodyValue(b))
    ensures SpacedRaw(s, i) == Done(i + |BodyText(b)|, BodyRaw(b))
  {
    var ws := b.lead + b.trail;
    assert BodyText(b) == ws && BodyValue(b) == BodyRaw(b) == "";
    AtConcat(s, i, b.lead, b.trail);
    EmptySpaced(s, i, ws);
  }

  lemma {:induction false} EmptySpaced(s: string, i: nat, ws: string)
    requires TrailAt(s, i, ws)
    ensures SpacedValue(s, i) == Done(i + |ws|, "") && SpacedRaw(s, i) == Done(i + |ws|, "")
  {
    EmptyRead(s, i + |ws|);
    Skips(s, i, ws, i + |ws|, "");
  }

  // ---- whole tag lists -----------------------------------------------------------

  /** One printed tag: whitespace, the name, `=` and the value. */
  datatype Item = Item(pre: string, name: string, body: Body)

  ghost predicate ValidItem(it: Item) {
    All(Fws, it.pre) && it.name != "" && All(Alpha, it.name) && ValidBody(it.body)
  }

  function ItemText(it: Item): string {
    it.pre + it.name + "=" + BodyText(it.body)
  }

  function ItemTag(it: Item): Tag {
    Tag(it.name, BodyValue(it.body), BodyRaw(it.body))
  }

  ghost predicate ValidItems(items: seq<Item>) {
    forall i | 0 <= i < |items| :: ValidItem(items[i])
  }

  lemma {:induction false} ValidItemsTail(items: seq<Item>)
    requires items != [] && ValidItems(items)
    ensures ValidItem(items[0]) && ValidItems(items[1..])
  {
  }

  /** Every tag is followed by a semicolon, the last one too. */
  function Render(items: seq<Item>): string {
    if items == [] then "" else ItemText(items[0]) + ";" + Render(items[1..])
  }

  function ItemTags(items: seq<Item>): (tags: seq<Tag>)
    ensures |tags| == |items| && forall i | 0 <= i < |items| :: tags[i] == ItemTag(items[i])
  {
    if items == [] then [] else [ItemTag(items[0])] + ItemTags(items[1..])
  }

  lemma {:induction false} NameOf(s: string, i: nat, pre: string, name: string)
    requires All(Fws, pre) && All(Alpha, name) && name != "" && At(s, i, pre + name + "=")
    ensures var n := i + |pre| + |name|; n < |s| && s[n] == '=' && SpacedName(s, i) == Done(n, name)
  {
    var k, n := i + |pre|, i + |pre| + |name|;
    AtConcat(s, i, pre + name, "=");
    AtConcat(s, i, pre, name);
    assert s[n] == s[n..n + 1][0];
    assert s[k] == s[k..n][0];
    SpanAt(Alpha, s, k, name);
    Skips(s, i, pre, n, "");
  }

  lemma {:induction false} TagSpecOf(s: string, i: nat, it: Item)
    requires ValidItem(it) && At(s, i, ItemText(it)) && EndsValue(s, i + |ItemText(it)|)
    ensures TagSpec(s, i) == Done(i + |ItemText(it)|, ItemTag(it))
  {
    var n := i + |it.pre| + |it.name|;
    ItemName(s, i, it);
    ItemValue(s, i, it, n + 1);
    TagSpecParts(s, i, n, i + |ItemText(it)|, it.name, BodyValue(it.body), BodyRaw(it.body));
  }

  lemma {:induction false} ItemParts(s: string, i: nat, it: Item)
    requires At(s, i, ItemText(it))
    ensures var n := i + |it.pre| + |it.name| + 1;
            && At(s, i, it.pre + it.name + "=") && At(s, n, BodyText(it.body))
            && i + |ItemText(it)| == n + |BodyText(it.body)|
  {
    AtConcat(s, i, it.pre + it.name + "=", BodyText(it.body));
  }

  lemma {:induction false} ItemName(s: string, i: nat, it: Item)
    requires ValidItem(it) && At(s, i, ItemText(it))
    ensures var n := i + |it.pre| + |it.name|; n < |s| && s[n] == '=' && SpacedName(s, i) == Done(n, it.name)
  {
    ItemParts(s, i, it);
    NameOf(s, i, it.pre, it.name);
  }

  lemma {:induction false} ItemValue(s: string, i: nat, it: Item, n: nat)
    requires ValidItem(it) && At(s, i, ItemText(it)) && EndsValue(s, i + |ItemText(it)|)
    requires n == i + |it.pre| + |it.name| + 1
    ensures SpacedValue(s, n) == Done(i + |ItemText(it)|, BodyValue(it.body))
    ensures SpacedRaw(s, n) == Done(i + |ItemText(it)|, BodyRaw(it.body))
  {
    ItemParts(s, i, it);
    ValueOf(s, n, it.body);
  }

  lemma {:induction false} TagSpecParts(s: string, i: nat, n: nat, end: nat, name: string, value: string, raw: string)
    requires SpacedName(s, i) == Done(n, name) && n < |s| && s[n] == '='
    requires SpacedValue(s, n + 1) == Done(end, value) && SpacedRaw(s, n + 1) == Done(end, raw)
    ensures TagSpec(s, i) == Done(end, Tag(name, value, raw))
  {
  }

  /** A semicolon at `i`, the item after it, and the next semicolon at `n`. */
  ghost predicate ItemAt(s: string, i: nat, it: Item, n: nat) {
    && i < n < |s| && s[i] == ';' && s[n] == ';'
    && ValidItem(it) && n == i + 1 + |ItemText(it)| && At(s, i + 1, ItemText(it))
  }

  /** From the semicolon at `i` on, the items stand one after the other to the end of the text. */
  ghost predicate ItemsAt(s: string, i: nat, items: seq<Item>)
    decreases items
  {
    if items == [] then i + 1 == |s| && s[i] == ';'
    else
      var n := i + 1 + |ItemText(items[0])|;
      ItemAt(s, i, items[0], n) && ItemsAt(s, n, items[1..])
  }

  lemma {:induction false} ItemsPlaced(s: string, i: nat, items: seq<Item>)
    requires ValidItems(items) && At(s, i, ";" + Render(items)) && i + 1 + |Render(items)| == |s|
    ensures ItemsAt(s, i, items)
    decreases items
  {
    if items == [] {
      SemicolonAt(s, i, Render(items));
    } else {
      var n := i + 1 + |ItemText(items[0])|;
      ValidItemsTail(items);
      FirstItemPlaced(s, i, items, n);
      ItemsPlaced(s, n, items[1..]);
      ItemsCons(s, i, items, n);
    }
  }

  lemma {:induction false} ItemsCons(s: string, i: nat, items: seq<Item>, n: nat)
    requires items != [] && ItemAt(s, i, items[0], n) && ItemsAt(s, n, items[1..])
    ensures ItemsAt(s, i, items)
  {
  }

  lemma {:induction false} SemicolonAt(s: string, i: nat, rest: string)
    requires At(s, i, ";" + rest)
    ensures i < |s| && s[i] == ';'
  {
    assert s[i] == s[i..i + |";" + rest|][0];
  }

  lemma {:induction false} FirstItemPlaced(s: string, i: nat, items: seq<Item>, n: nat)
    requires items != [] && ValidItem(items[0]) && n == i + 1 + |ItemText(items[0])|
    requires At(s, i, ";" + Render(items)) && i + 1 + |Render(items)| == |s|
    ensures ItemAt(s, i, items[0], n)
    ensures At(s, n, ";" + Render(items[1..])) && n + 1 + |Render(items[1..])| == |s|
  {
    var text, rest := ItemText(items[0]), Render(items[1..]);
    SemicolonAt(s, i, Render(items));
    Assoc4(";", text, ";", rest);
    AtConcat(s, i, ";" + text, ";" + rest);
    AtConcat(s, i, ";", text);
    SemicolonAt(s, n, rest);
  }

  /** The items are read one after the other by any parser that reads each of them. */
  lemma {:induction false} ItemsReadBy(p: Parser<Tag>, s: string, i: nat, items: seq<Item>)
    requires ItemsAt(s, i, items) && p(s, |s| - 1).Fail?
    requires forall j: nat, it, n: nat | ItemAt(s, j, it, n) :: p(s, j) == Done(n, ItemTag(it))
    ensures Reads(p, s, i, ItemTags(items), |s| - 1)
    decreases items
  {
    if items != [] {
      var n := i + 1 + |ItemText(items[0])|;
      ItemsReadBy(p, s, n, items[1..]);
      assert ItemAt(s, i, items[0], n);
      ReadsTag(p, s, i, n, items);
    }
  }

  lemma {:induction false} ReadsTag(p: Parser<Tag>, s: string, i: nat, n: nat, items: seq<Item>)
    requires items != [] && i < n <= |s| && p(s, i) == Done(n, ItemTag(items[0]))
    requires Reads(p, s, n, ItemTags(items[1..]), |s| - 1)
    ensures Reads(p, s, i, ItemTags(items), |s| - 1)
  {
    TagsCons(items);
    ReadsCons(p, s, i, n, ItemTags(items), |s| - 1);
  }

  lemma {:induction false} TagsCons(items: seq<Item>)
    requires items != []
    ensures ItemTags(items)[0] == ItemTag(items[0]) && ItemTags(items)[1..] == ItemTags(items[1..])
  {
    forall k | 0 <= k < |items| - 1 ensures ItemTags(items)[1..][k] == ItemTags(items[1..])[k] {
      assert items[1..][k] == items[k + 1];
    }
  }

  lemma {:induction false} ItemsManyBy(p: Parser<Tag>, s: string, i: nat, items: seq<Item>)
    requires ItemsAt(s, i, items) && p(s, |s| - 1).Fail?
    requires forall j: nat, it, n: nat | ItemAt(s, j, it, n) :: p(s, j) == Done(n, ItemTag(it))
    ensures Many(p, s, i) == ItemTags(items) && ManyEnd(p, s, i) == |s| - 1
  {
    ItemsReadBy(p, s, i, items);
    ManyReads(p, s, i, ItemTags(items), |s| - 1);
  }

  lemma {:induction false} NextTagOf(s: string, i: nat, it: Item, n: nat)
    requires ItemAt(s, i, it, n)
    ensures NextTag(s, i) == Done(n, ItemTag(it))
  {
    TagSpecOf(s, i + 1, it);
  }

  lemma {:induction false} NextTagStops(s: string)
    requires s != ""
    ensures NextTag(s, |s| - 1).Fail?
  {
    assert SpacedName(s, |s|) == Fail;
  }

  lemma {:induction false} ItemsRead(s: string, i: nat, items: seq<Item>)
    requires ItemsAt(s, i, items)
    ensures MoreTags(s, i) == ItemTags(items) && MoreTagsEnd(s, i) == |s| - 1
  {
    forall j: nat, it, n: nat | ItemAt(s, j, it, n) ensures NextTag(s, j) == Done(n, ItemTag(it)) {
      NextTagOf(s, j, it, n);
    }
    NextTagStops(s);
    ItemsManyBy(NextTag, s, i, items);
  }

  lemma {:induction false} ItemsEnd(s: string, i: nat, items: seq<Item>)
    requires ItemsAt(s, i, items)
    ensures |s| > 0 && s[|s| - 1] == ';'
    decreases items
  {
    if items != [] { ItemsEnd(s, i + 1 + |ItemText(items[0])|, items[1..]); }
  }

  /** The parser undoes any rendering of a tag list, consuming all of it. */
  lemma {:induction false} TagListOf(items: seq<Item>)
    requires items != [] && ValidItems(items)
    ensures TagList(Render(items)) == Done(|Render(items)|, ItemTags(items))
  {
    var n := |ItemText(items[0])|;
    ValidItemsTail(items);
    FirstRead(items);
    RestRead(Render(items), n, items[1..]);
    TagListParts(Render(items), n, ItemTag(items[0]), ItemTags(items[1..]));
  }

  lemma {:induction false} FirstRead(items: seq<Item>)
    requires items != [] && ValidItem(items[0])
    ensures var s, n := Render(items), |ItemText(items[0])|;
            && At(s, n, ";" + Render(items[1..])) && n + 1 + |Render(items[1..])| == |s|
            && TagSpec(s, 0) == Done(n, ItemTag(items[0]))
  {
    RenderFirst(items);
    TagSpecOf(Render(items), 0, items[0]);
  }

  lemma {:induction false} RestRead(s: string, n: nat, items: seq<Item>)
    requires ValidItems(items) && At(s, n, ";" + Render(items)) && n + 1 + |Render(items)| == |s|
    ensures MoreTags(s, n) == ItemTags(items) && MoreTagsEnd(s, n) == |s| - 1 && s[|s| - 1] == ';'
  {
    ItemsPlaced(s, n, items);
    ItemsRead(s, n, items);
    ItemsEnd(s, n, items);
  }

  lemma {:induction false} RenderFirst(items: seq<Item>)
    requires items != []
    ensures var s, n := Render(items), |ItemText(items[0])|;
            && At(s, 0, ItemText(items[0])) && At(s, n, ";" + Render(items[1..]))
            && n + 1 + |Render(items[1..])| == |s| && s[n] == ';'
  {
    var s, text, rest := Render(items), ItemText(items[0]), ";" + Render(items[1..]);
    assert s == text + rest && s[0..|s|] == s;
    AtConcat(s, 0, text, rest);
    SemicolonAt(s, |text|, Render(items[1..]));
  }

  lemma {:induction false} TagListParts(s: string, n: nat, tag: Tag, tags: seq<Tag>)
    requires TagSpec(s, 0) == Done(n, tag) && s != "" && s[|s| - 1] == ';'
    requires MoreTags(s, n) == tags && MoreTagsEnd(s, n) == |s| - 1
    ensures TagList(s) == Done(|s|, [tag] + tags)
  {
  }
}
