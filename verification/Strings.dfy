/** Splitting, joining, ordering and lower-casing text. */
module Strings {

  /** `split`: always at least one piece. */
  function Split(s: string, sep: char): (parts: seq<string>)
    ensures parts != []
  {
    if s == "" then [""]
    else
      var rest := Split(s[1..], sep);
      if s[0] == sep then [""] + rest else [[s[0]] + rest[0]] + rest[1..]
  }

  function Join(parts: seq<string>, sep: string): string {
    if parts == [] then ""
    else if |parts| == 1 then parts[0]
    else parts[0] + sep + Join(parts[1..], sep)
  }

  lemma {:induction false} JoinSplit(s: string, sep: char)
    ensures Join(Split(s, sep), [sep]) == s
  {
    if s != "" {
      JoinSplit(s[1..], sep);
      var rest := Split(s[1..], sep);
      if s[0] == sep {
        assert ([""] + rest)[1..] == rest;
      } else if |rest| > 1 {
        assert ([[s[0]] + rest[0]] + rest[1..])[1..] == rest[1..];
      }
    }
  }

  lemma {:induction false} SplitPiece(p: string, sep: char)
    requires sep !in p
    ensures Split(p, sep) == [p]
  {
    if p != "" {
      SplitPiece(p[1..], sep);
      assert [p[0]] + p[1..] == p && p[0] in p;
    }
  }

  lemma {:induction false} SplitAppend(p: string, s: string, sep: char)
    requires sep !in p
    ensures Split(p + [sep] + s, sep) == [p] + Split(s, sep)
  {
    var t := p + [sep] + s;
    if p == "" {
      assert t[1..] == s;
    } else {
      assert t[1..] == p[1..] + [sep] + s;
      SplitAppend(p[1..], s, sep);
      assert [p[0]] + p[1..] == p && p[0] in p;
    }
  }

  predicate NoneHas(parts: seq<string>, sep: char) {
    forall i | 0 <= i < |parts| :: sep !in parts[i]
  }

  lemma {:induction false} NoneHasTail(parts: seq<string>, sep: char)
    requires parts != [] && NoneHas(parts, sep)
    ensures sep !in parts[0] && NoneHas(parts[1..], sep) && [parts[0]] + parts[1..] == parts
  {
  }

  /** Pieces without the separator come back from their joined text. */
  lemma {:induction false} SplitJoin(parts: seq<string>, sep: char)
    requires parts != [] && NoneHas(parts, sep)
    ensures Split(Join(parts, [sep]), sep) == parts
  {
    NoneHasTail(parts, sep);
    if |parts| == 1 {
      SplitPiece(parts[0], sep);
    } else {
      SplitJoin(parts[1..], sep);
      SplitAppend(parts[0], Join(parts[1..], [sep]), sep);
    }
  }

  lemma {:induction false} JoinSnoc(parts: seq<string>, x: string, sep: string)
    requires parts != []
    ensures Join(parts + [x], sep) == Join(parts, sep) + sep + x
  {
    if |parts| > 1 {
      assert (parts + [x])[1..] == parts[1..] + [x];
      JoinSnoc(parts[1..], x, sep);
    }
  }

  lemma {:induction false} JoinExtend(parts: seq<string>, x: string, t: string, sep: string)
    ensures Join(parts + [x + t], sep) == Join(parts + [x], sep) + t
  {
    if parts != [] {
      JoinSnoc(parts, x, sep);
      JoinSnoc(parts, x + t, sep);
    }
  }

  /** The byte order of strings. */
  predicate Less(a: string, b: string) {
    b != "" && (a == "" || a[0] < b[0] || (a[0] == b[0] && Less(a[1..], b[1..])))
  }

  lemma {:induction false} LessTotal(a: string, b: string)
    ensures Less(a, b) || Less(b, a) || a == b
    decreases |a| + |b|
  {
    if a != "" && b != "" && a[0] == b[0] {
      LessTotal(a[1..], b[1..]);
      assert a == [a[0]] + a[1..] && b == [b[0]] + b[1..];
    }
  }

  lemma {:induction false} LessIrreflexive(a: string)
    ensures !Less(a, a)
  {
    if a != "" { LessIrreflexive(a[1..]); }
  }

  lemma {:induction false} LessTransitive(a: string, b: string, c: string)
    requires Less(a, b) && Less(b, c)
    ensures Less(a, c)
    decreases |a|
  {
    if a != "" && a[0] == b[0] && b[0] == c[0] { LessTransitive(a[1..], b[1..], c[1..]); }
  }

  function LowerChar(c: char): char {
    if 'A' <= c <= 'Z' then ('a' as int + (c as int - 'A' as int)) as char else c
  }

  /** `to_ascii_lowercase` */
  function Lower(s: string): (t: string)
    ensures |t| == |s| && forall i | 0 <= i < |s| :: t[i] == LowerChar(s[i])
  {
    seq(|s|, i requires 0 <= i < |s| => LowerChar(s[i]))
  }

  lemma {:induction false} LowerTwice(s: string)
    ensures Lower(Lower(s)) == Lower(s)
  {
  }
}
