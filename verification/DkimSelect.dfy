/** Which headers a list of names selects (section 5.4.2 of RFC 6376), and over-signing. */
module DkimSelect {
  import opened Common
  import opened Strings

  datatype Header = Header(name: string, value: string)

  /** `eq_ignore_ascii_case` */
  predicate SameName(a: string, b: string) {
    Lower(a) == Lower(b)
  }

  /** How many headers at `i` or below carry the name. */
  function CountFrom(hs: seq<Header>, name: string, i: nat): nat
    requires i <= |hs|
    decreases |hs| - i
  {
    if i == |hs| then 0 else (if SameName(hs[i].name, name) then 1 else 0) + CountFrom(hs, name, i + 1)
  }

  function Occurrences(list: seq<string>, name: string): nat {
    if list == [] then 0
    else Occurrences(list[..|list| - 1], name) + (if list[|list| - 1] == name then 1 else 0)
  }

  /** The `k`-th header with the name, counting up from just above position `upto`. */
  function KthAbove(hs: seq<Header>, name: string, upto: nat, k: nat): (r: Option<nat>)
    requires upto <= |hs|
    ensures r.Some? ==> r.value < upto
  {
    if upto == 0 then None
    else if !SameName(hs[upto - 1].name, name) then KthAbove(hs, name, upto - 1, k)
    else if k == 0 then Some(upto - 1)
    else KthAbove(hs, name, upto - 1, k - 1)
  }

  /** The header chosen by the last name of the list, if there is one left. */
  function Choice(hs: seq<Header>, list: seq<string>): Option<nat>
    requires list != []
  {
    var init, name := list[..|list| - 1], list[|list| - 1];
    KthAbove(hs, name, |hs|, Occurrences(init, name))
  }

  /** Positions of the headers the list selects, in the order of the list. */
  function Selected(hs: seq<Header>, list: seq<string>): seq<nat> {
    if list == [] then []
    else
      match Choice(hs, list)
      case None => Selected(hs, list[..|list| - 1])
      case Some(i) => Selected(hs, list[..|list| - 1]) + [i]
  }

  /** The headers at those positions. */
  function SelectedHeaders(hs: seq<Header>, list: seq<string>): seq<Header> {
    if list == [] then []
    else
      match Choice(hs, list)
      case None => SelectedHeaders(hs, list[..|list| - 1])
      case Some(i) => SelectedHeaders(hs, list[..|list| - 1]) + [hs[i]]
  }

  /** What is hashed are the headers at the selected positions, in the same order. */
  lemma {:induction false} SelectedAre(hs: seq<Header>, list: seq<string>)
    ensures AreAt(hs, Selected(hs, list), SelectedHeaders(hs, list))
  {
    if list != [] { SelectedAre(hs, list[..|list| - 1]); }
  }

  ghost predicate AreAt(hs: seq<Header>, at: seq<nat>, picked: seq<Header>) {
    |picked| == |at| && forall k | 0 <= k < |at| :: at[k] < |hs| && picked[k] == hs[at[k]]
  }

  // ---- the loop --------------------------------------------------------------------

  /** Where the search for a name resumes. */
  function Resume(last: map<string, nat>, n: nat, name: string): nat {
    if name in last then last[name] else n
  }

  /** `c` headers with the name lie at `p` or below, or all of them are used up. */
  ghost predicate CountsOn(hs: seq<Header>, name: string, p: nat, c: nat) {
    p <= |hs| && (CountFrom(hs, name, p) == c || (p == 0 && CountFrom(hs, name, 0) <= c))
  }

  /** Every name resumes above what was chosen for it already. */
  ghost predicate Tracks(hs: seq<Header>, last: map<string, nat>, done: seq<string>) {
    forall name :: CountsOn(hs, name, Resume(last, |hs|, name), Occurrences(done, name))
  }

  method FindAbove(hs: seq<Header>, name: string, upto: nat, ghost c: nat) returns (found: Option<nat>)
    requires CountsOn(hs, name, upto, c)
    ensures found == KthAbove(hs, name, |hs|, c)
    ensures CountsOn(hs, name, if found.Some? then found.value else 0, c + 1)
  {
    var i := upto;
    while i > 0
      invariant 0 <= i <= upto && CountsOn(hs, name, i, c)
    {
      i := i - 1;
      if SameName(hs[i].name, name) {
        KthFinds(hs, name, i);
        return Some(i);
      }
    }
    KthNone(hs, name, c);
    return None;
  }

  /** `compute_concrete_header_list` */
  method ConcreteHeaderList(hs: seq<Header>, list: seq<string>) returns (picked: seq<nat>, headers: seq<Header>)
    ensures picked == Selected(hs, list) && headers == SelectedHeaders(hs, list)
  {
    picked, headers := [], [];
    var last: map<string, nat> := map[];
    for j := 0 to |list|
      invariant picked == Selected(hs, list[..j]) && headers == SelectedHeaders(hs, list[..j])
      invariant Tracks(hs, last, list[..j])
    {
      var name := list[j];
      assert CountsOn(hs, name, Resume(last, |hs|, name), Occurrences(list[..j], name));
      var found := FindAbove(hs, name, Resume(last, |hs|, name), Occurrences(list[..j], name));
      var next := if found.Some? then found.value else 0;
      SelectedNext(hs, list, j);
      TrackStep(hs, last, list[..j], name, next);
      if found.Some? { picked, headers := picked + [found.value], headers + [hs[found.value]]; }
      last := last[name := next];
    }
    assert list[..|list|] == list;
  }

  lemma {:induction false} SelectedNext(hs: seq<Header>, list: seq<string>, j: nat)
    requires j < |list|
    ensures list[..j] + [list[j]] == list[..j + 1]
    ensures Selected(hs, list[..j + 1])
         == match KthAbove(hs, list[j], |hs|, Occurrences(list[..j], list[j]))
            case None => Selected(hs, list[..j])
            case Some(i) => Selected(hs, list[..j]) + [i]
    ensures SelectedHeaders(hs, list[..j + 1])
         == match KthAbove(hs, list[j], |hs|, Occurrences(list[..j], list[j]))
            case None => SelectedHeaders(hs, list[..j])
            case Some(i) => SelectedHeaders(hs, list[..j]) + [hs[i]]
  {
    assert list[..j + 1][..j] == list[..j];
  }

  lemma {:induction false} OccurrencesSnoc(done: seq<string>, name: string, nm: string)
    ensures Occurrences(done + [name], nm) == Occurrences(done, nm) + if nm == name then 1 else 0
  {
    assert (done + [name])[..|done|] == done;
  }

  lemma {:induction false} TrackOne(hs: seq<Header>, last: map<string, nat>, c: nat, nm: string, name: string, p: nat)
    requires nm != name ==> CountsOn(hs, nm, Resume(last, |hs|, nm), c)
    requires nm == name ==> CountsOn(hs, name, p, c + 1)
    ensures CountsOn(hs, nm, Resume(last[name := p], |hs|, nm), c + if nm == name then 1 else 0)
  {
  }

  lemma {:induction false} TrackStep(hs: seq<Header>, last: map<string, nat>, done: seq<string>, name: string, p: nat)
    requires Tracks(hs, last, done) && CountsOn(hs, name, p, Occurrences(done, name) + 1)
    ensures Tracks(hs, last[name := p], done + [name])
  {
    forall nm ensures CountsOn(hs, nm, Resume(last[name := p], |hs|, nm), Occurrences(done + [name], nm)) {
      OccurrencesSnoc(done, name, nm);
      assert CountsOn(hs, nm, Resume(last, |hs|, nm), Occurrences(done, nm));
      TrackOne(hs, last, Occurrences(done, nm), nm, name, p);
    }
  }

  // ---- what is selected ---------------------------------------------------------------

  /** The choice is the header with the name that has exactly `k` of them below it. */
  lemma {:induction false} KthIff(hs: seq<Header>, name: string, upto: nat, k: nat)
    requires upto <= |hs|
    ensures match KthAbove(hs, name, upto, k)
            case Some(i) => i < upto && SameName(hs[i].name, name)
                            && CountFrom(hs, name, i + 1) == k + CountFrom(hs, name, upto)
            case None => CountFrom(hs, name, 0) <= k + CountFrom(hs, name, upto)
  {
    if upto > 0 {
      KthIff(hs, name, upto - 1, if SameName(hs[upto - 1].name, name) && k > 0 then k - 1 else k);
    }
  }

  lemma {:induction false} CountStrict(hs: seq<Header>, name: string, i: nat, j: nat)
    requires i <= j <= |hs|
    ensures CountFrom(hs, name, j) <= CountFrom(hs, name, i)
    ensures i < j && SameName(hs[i].name, name) ==> CountFrom(hs, name, j) < CountFrom(hs, name, i)
    decreases j - i
  {
    if i < j { CountStrict(hs, name, i + 1, j); }
  }

  /** Every header with the name is the k-th from the bottom, for its own k. */
  lemma {:induction false} KthFinds(hs: seq<Header>, name: string, i: nat)
    requires i < |hs| && SameName(hs[i].name, name)
    ensures KthAbove(hs, name, |hs|, CountFrom(hs, name, i + 1)) == Some(i)
  {
    var k := CountFrom(hs, name, i + 1);
    KthIff(hs, name, |hs|, k);
    CountStrict(hs, name, 0, i);
    CountStrict(hs, name, i, i + 1);
    match KthAbove(hs, name, |hs|, k) {
      case Some(j) =>
        if j < i { CountStrict(hs, name, j + 1, i); }
        if i < j { CountStrict(hs, name, i + 1, j); }
      case None =>
    }
  }

  lemma {:induction false} KthNone(hs: seq<Header>, name: string, c: nat)
    requires CountFrom(hs, name, 0) <= c
    ensures KthAbove(hs, name, |hs|, c) == None
  {
    KthIff(hs, name, |hs|, c);
    match KthAbove(hs, name, |hs|, c) {
      case Some(i) =>
        CountStrict(hs, name, 0, i);
      case None =>
    }
  }

  /** What a position of the list contributes: the k-th header from the bottom, k its earlier occurrences. */
  function Chosen(hs: seq<Header>, list: seq<string>, j: nat): Option<nat>
    requires j < |list|
  {
    KthAbove(hs, list[j], |hs|, Occurrences(list[..j], list[j]))
  }

  lemma {:induction false} SelectedIff(hs: seq<Header>, list: seq<string>, i: nat)
    ensures i in Selected(hs, list) <==> exists j :: 0 <= j < |list| && Chosen(hs, list, j) == Some(i)
  {
    if list != [] {
      var n := |list| - 1;
      var init := list[..n];
      SelectedIff(hs, init, i);
      assert Chosen(hs, list, n) == Choice(hs, list);
      assert forall j | 0 <= j < n :: init[..j] == list[..j];
      assert forall j | 0 <= j < n :: Chosen(hs, init, j) == Chosen(hs, list, j);
    }
  }

  /** Names are normalised to lower case when the list is made. */
  ghost predicate Normalised(list: seq<string>) {
    forall j | 0 <= j < |list| :: Lower(list[j]) == list[j]
  }

  lemma {:induction false} OccurrencesGrow(list: seq<string>, i: nat, j: nat, name: string)
    requires i <= j <= |list|
    ensures Occurrences(list[..i], name) <= Occurrences(list[..j], name)
    ensures i < j && list[i] == name ==> Occurrences(list[..i], name) < Occurrences(list[..j], name)
    decreases j
  {
    if i < j {
      assert list[..j][..j - 1] == list[..j - 1];
      OccurrencesGrow(list, i, j - 1, name);
    }
  }

  /** Different positions of the list never choose the same header. */
  lemma {:induction false} ChosenOnce(hs: seq<Header>, list: seq<string>, i: nat, j: nat)
    requires i < j < |list| && Normalised(list) && Chosen(hs, list, i).Some?
    ensures Chosen(hs, list, i) != Chosen(hs, list, j)
  {
    KthIff(hs, list[i], |hs|, Occurrences(list[..i], list[i]));
    KthIff(hs, list[j], |hs|, Occurrences(list[..j], list[j]));
    if list[i] == list[j] { OccurrencesGrow(list, i, j, list[i]); }
  }

  ghost predicate NoDuplicates(xs: seq<nat>) {
    forall i, j | 0 <= i < j < |xs| :: xs[i] != xs[j]
  }

  /** No header instance is selected twice. */
  lemma {:induction false} SelectedOnce(hs: seq<Header>, list: seq<string>)
    requires Normalised(list)
    ensures NoDuplicates(Selected(hs, list))
  {
    if list != [] {
      var n := |list| - 1;
      var init := list[..n];
      SelectedOnce(hs, init);
      match Choice(hs, list) {
        case None =>
        case Some(i) =>
          if i in Selected(hs, init) {
            SelectedIff(hs, init, i);
            var j :| 0 <= j < n && Chosen(hs, init, j) == Some(i);
            assert init[..j] == list[..j];
            ChosenOnce(hs, list, j, n);
          }
      }
    }
  }

  // ---- prepending ---------------------------------------------------------------------------

  ghost predicate NoneNamed(hs: seq<Header>, name: string) {
    forall h | h in hs :: !SameName(h.name, name)
  }

  ghost predicate NoneListed(hs: seq<Header>, list: seq<string>) {
    forall name | name in list :: NoneNamed(hs, name)
  }

  lemma {:induction false} CountBehind(a: seq<Header>, b: seq<Header>, name: string, i: nat)
    requires i <= |b|
    ensures CountFrom(a + b, name, |a| + i) == CountFrom(b, name, i)
    decreases |b| - i
  {
    if i < |b| {
      assert (a + b)[|a| + i] == b[i];
      CountBehind(a, b, name, i + 1);
    }
  }

  lemma {:induction false} CountConcat(a: seq<Header>, b: seq<Header>, name: string, i: nat)
    requires i <= |a|
    ensures CountFrom(a + b, name, i) == CountFrom(a, name, i) + CountFrom(b, name, 0)
    decreases |a| - i
  {
    if i == |a| {
      CountBehind(a, b, name, 0);
    } else {
      assert (a + b)[i] == a[i];
      CountConcat(a, b, name, i + 1);
    }
  }

  /** The list asks for no more headers of a name than there are, or there are none of that name in front. */
  ghost predicate Settled(pre: seq<Header>, hs: seq<Header>, list: seq<string>) {
    forall name | name in list :: SettledFor(pre, hs, list, name)
  }

  ghost predicate SettledFor(pre: seq<Header>, hs: seq<Header>, list: seq<string>, name: string) {
    NoneNamed(pre, name) || Occurrences(list, name) <= CountFrom(hs, name, 0)
  }

  lemma {:induction false} NoneListedSettled(pre: seq<Header>, hs: seq<Header>, list: seq<string>)
    requires NoneListed(pre, list)
    ensures Settled(pre, hs, list)
  {
  }

  lemma {:induction false} CountUnlisted(pre: seq<Header>, name: string, i: nat)
    requires NoneNamed(pre, name) && i <= |pre|
    ensures CountFrom(pre, name, i) == 0
    decreases |pre| - i
  {
    if i < |pre| {
      assert pre[i] in pre;
      CountUnlisted(pre, name, i + 1);
    }
  }

  /** A header that is chosen is chosen still, whatever is put in front. */
  lemma {:induction false} KthFound(pre: seq<Header>, hs: seq<Header>, name: string, k: nat)
    requires k < CountFrom(hs, name, 0)
    ensures KthAbove(hs, name, |hs|, k).Some?
    ensures KthAbove(pre + hs, name, |pre + hs|, k) == Some(|pre| + KthAbove(hs, name, |hs|, k).value)
  {
    KthIff(hs, name, |hs|, k);
    var i := KthAbove(hs, name, |hs|, k).value;
    assert (pre + hs)[|pre| + i] == hs[i];
    CountBehind(pre, hs, name, i + 1);
    KthFinds(pre + hs, name, |pre| + i);
  }

  /** With none of the name in front, the choice stays the same, or stays none. */
  lemma {:induction false} KthPrepend(pre: seq<Header>, hs: seq<Header>, name: string, k: nat)
    requires NoneNamed(pre, name) || k < CountFrom(hs, name, 0)
    ensures KthAbove(pre + hs, name, |pre + hs|, k)
         == match KthAbove(hs, name, |hs|, k) case None => None case Some(i) => Some(|pre| + i)
  {
    if k < CountFrom(hs, name, 0) {
      KthFound(pre, hs, name, k);
    } else {
      CountConcat(pre, hs, name, 0);
      CountUnlisted(pre, name, 0);
      KthNone(pre + hs, name, k);
      KthNone(hs, name, k);
    }
  }

  lemma {:induction false} SettledInit(pre: seq<Header>, hs: seq<Header>, list: seq<string>)
    requires list != [] && Settled(pre, hs, list)
    ensures Settled(pre, hs, list[..|list| - 1])
  {
    var n := |list| - 1;
    assert list[..|list|] == list;
    forall name | name in list[..n] ensures SettledFor(pre, hs, list[..n], name) {
      assert SettledFor(pre, hs, list, name);
      OccurrencesGrow(list, n, |list|, name);
    }
  }

  /** Putting headers in front that the list does not reach changes nothing that is selected. */
  lemma {:induction false} PrependIrrelevant(pre: seq<Header>, hs: seq<Header>, list: seq<string>)
    requires Settled(pre, hs, list)
    ensures SelectedHeaders(pre + hs, list) == SelectedHeaders(hs, list)
  {
    if list != [] {
      var init, name := list[..|list| - 1], list[|list| - 1];
      assert SettledFor(pre, hs, list, name);
      SettledInit(pre, hs, list);
      PrependIrrelevant(pre, hs, init);
      KthPrepend(pre, hs, name, Occurrences(init, name));
      SameChoice(pre, hs, list);
    }
  }

  lemma {:induction false} SameChoice(pre: seq<Header>, hs: seq<Header>, list: seq<string>)
    requires list != []
    requires Choice(pre + hs, list) == match Choice(hs, list) case None => None case Some(i) => Some(|pre| + i)
    ensures match Choice(hs, list)
            case None => Choice(pre + hs, list) == None
            case Some(i) => Choice(pre + hs, list) == Some(|pre| + i) && (pre + hs)[|pre| + i] == hs[i]
  {
  }

  // ---- over-signing -------------------------------------------------------------------------

  ghost predicate Increasing(names: seq<string>) {
    forall i, j | 0 <= i < j < |names| :: Less(names[i], names[j])
  }

  function InsertName(names: seq<string>, name: string): seq<string> {
    if names == [] || Less(name, names[0]) then [name] + names
    else if name == names[0] then names
    else names[..1] + InsertName(names[1..], name)
  }

  /** `sort` followed by `dedup`. */
  function SortDedup(list: seq<string>): seq<string> {
    if list == [] then [] else InsertName(SortDedup(list[1..]), list[0])
  }

  lemma {:induction false} InsertNameIn(names: seq<string>, name: string, x: string)
    ensures x in InsertName(names, name) <==> x == name || x in names
  {
    if names != [] && !Less(name, names[0]) && name != names[0] { InsertNameIn(names[1..], name, x); }
  }

  lemma {:induction false} InsertNameIncreasing(names: seq<string>, name: string)
    requires Increasing(names)
    ensures Increasing(InsertName(names, name))
  {
    if names == [] {
    } else if Less(name, names[0]) {
      forall j | 0 < j < |names| ensures Less(name, names[j]) { LessTransitive(name, names[0], names[j]); }
    } else if name != names[0] {
      InsertNameIncreasing(names[1..], name);
      var rest := InsertName(names[1..], name);
      forall j | 0 <= j < |rest| ensures Less(names[0], rest[j]) {
        InsertNameIn(names[1..], name, rest[j]);
        LessTotal(names[0], name);
      }
    }
  }

  lemma {:induction false} SortDedupOf(list: seq<string>)
    ensures Increasing(SortDedup(list)) && forall x :: x in SortDedup(list) <==> x in list
  {
    if list != [] {
      SortDedupOf(list[1..]);
      InsertNameIncreasing(SortDedup(list[1..]), list[0]);
      forall x ensures x in SortDedup(list) <==> x in list { InsertNameIn(SortDedup(list[1..]), list[0], x); }
    }
  }

  function Repeat(name: string, n: nat): seq<string> {
    if n == 0 then [] else Repeat(name, n - 1) + [name]
  }

  /** Every name once more than the message has headers of it. */
  function OneMore(hs: seq<Header>, names: seq<string>): seq<string> {
    if names == [] then []
    else
      var name := names[|names| - 1];
      OneMore(hs, names[..|names| - 1]) + Repeat(name, CountFrom(hs, name, 0) + 1)
  }

  function OverSigned(hs: seq<Header>, list: seq<string>): seq<string> {
    OneMore(hs, SortDedup(list))
  }

  /** `compute_over_signed` */
  method ComputeOverSigned(hs: seq<Header>, list: seq<string>) returns (result: seq<string>)
    ensures result == OverSigned(hs, list)
  {
    var unique := SortDedup(list);
    result := [];
    for i := 0 to |unique|
      invariant result == OneMore(hs, unique[..i])
    {
      result := OnePerHeader(hs, unique[i], result);
      result := result + [unique[i]];
      assert unique[..i + 1][..i] == unique[..i];
    }
    assert unique[..|unique|] == unique;
  }

  /** Adds the name once for every header that carries it. */
  method OnePerHeader(hs: seq<Header>, name: string, before: seq<string>) returns (result: seq<string>)
    ensures result == before + Repeat(name, CountFrom(hs, name, 0))
  {
    result := before;
    var j := |hs|;
    while j > 0
      invariant 0 <= j <= |hs| && result == before + Repeat(name, CountFrom(hs, name, j))
    {
      j := j - 1;
      if SameName(hs[j].name, name) { result := result + [name]; }
    }
  }

  lemma {:induction false} RepeatMore(xs: seq<string>, name: string, n: nat)
    requires n > 0
    ensures xs + Repeat(name, n) == (xs + Repeat(name, n - 1)) + [name]
  {
  }

  lemma {:induction false} OccurrencesConcat(xs: seq<string>, name: string, n: nat, x: string)
    ensures Occurrences(xs + Repeat(name, n), x) == Occurrences(xs, x) + if x == name then n else 0
  {
    if n == 0 {
      assert xs + Repeat(name, 0) == xs;
    } else {
      var ys := xs + Repeat(name, n - 1);
      RepeatMore(xs, name, n);
      OccurrencesConcat(xs, name, n - 1, x);
      OccurrencesSnoc(ys, name, x);
    }
  }

  lemma {:induction false} OneMoreCount(hs: seq<Header>, names: seq<string>, x: string)
    requires Increasing(names)
    ensures Occurrences(OneMore(hs, names), x) == if x in names then CountFrom(hs, x, 0) + 1 else 0
  {
    if names != [] {
      var init, name := names[..|names| - 1], names[|names| - 1];
      OneMoreCount(hs, init, x);
      OccurrencesConcat(OneMore(hs, init), name, CountFrom(hs, name, 0) + 1, x);
      assert names == init + [name];
      LessIrreflexive(x);
    }
  }

  /** A name that occurs m times in a list has an occurrence with k earlier ones, for every k < m. */
  lemma {:induction false} OccurrenceAt(list: seq<string>, name: string, k: nat) returns (j: nat)
    requires k < Occurrences(list, name)
    ensures j < |list| && list[j] == name && Occurrences(list[..j], name) == k
  {
    var n := |list| - 1;
    if k < Occurrences(list[..n], name) {
      j := OccurrenceAt(list[..n], name, k);
      assert list[..n][..j] == list[..j];
    } else {
      j := n;
    }
  }

  /**
   * An over-signed list selects every header with a listed name, in any message that has at most
   * one more of each than the message it was made for; and it selects nothing else.
   */
  lemma {:induction false} OverSignedSelects(hs: seq<Header>, list: seq<string>, later: seq<Header>, i: nat)
    requires Normalised(list) && i < |later|
    requires forall name | name in list :: CountFrom(later, name, 0) <= CountFrom(hs, name, 0) + 1
    ensures i in Selected(later, OverSigned(hs, list)) <==> Lower(later[i].name) in list
  {
    var signed, name := OverSigned(hs, list), Lower(later[i].name);
    SortDedupOf(list);
    SelectedIff(later, signed, i);
    if name in list {
      LowerTwice(later[i].name);
      CountStrict(later, name, 0, i);
      CountStrict(later, name, i, i + 1);
      OneMoreCount(hs, SortDedup(list), name);
      KthFinds(later, name, i);
      var j := OccurrenceAt(signed, name, CountFrom(later, name, i + 1));
      assert Chosen(later, signed, j) == Some(i);
    } else {
      forall j | 0 <= j < |signed| ensures Chosen(later, signed, j) != Some(i) {
        OverSignedNames(hs, list, j);
        KthIff(later, signed[j], |later|, Occurrences(signed[..j], signed[j]));
      }
    }
  }

  lemma {:induction false} OverSignedNames(hs: seq<Header>, list: seq<string>, j: nat)
    requires Normalised(list) && j < |OverSigned(hs, list)|
    ensures OverSigned(hs, list)[j] in list && Lower(OverSigned(hs, list)[j]) == OverSigned(hs, list)[j]
  {
    var signed := OverSigned(hs, list);
    SortDedupOf(list);
    OneMoreCount(hs, SortDedup(list), signed[j]);
    OccurrencesGrow(signed, j, |signed|, signed[j]);
    assert signed[..|signed|] == signed;
  }
}
