/** Domain names as label paths, and what a lookup means on a flat map of patterns. */
module DomainNames {
  import opened Common
  import opened Strings

  /** `rsplit('.')`: the labels, the top-level one first. */
  function Labels(name: string): (path: seq<string>)
    ensures path != []
  {
    Reversed(Split(name, '.'))
  }

  function Name(path: seq<string>): string {
    Join(Reversed(path), ".")
  }

  predicate Dotless(path: seq<string>) {
    NoneHas(path, '.')
  }

  lemma {:induction false} SplitDotless(s: string)
    ensures Dotless(Split(s, '.'))
  {
    if s != "" { SplitDotless(s[1..]); }
  }

  lemma {:induction false} LabelsDotless(name: string)
    ensures Dotless(Labels(name))
  {
    SplitDotless(name);
  }

  lemma {:induction false} NameLabels(name: string)
    ensures Name(Labels(name)) == name
  {
    var parts := Split(name, '.');
    assert Reversed(Reversed(parts)) == parts;
    JoinSplit(name, '.');
  }

  lemma {:induction false} LabelsName(path: seq<string>)
    requires path != [] && Dotless(path)
    ensures Labels(Name(path)) == path
  {
    var parts := Reversed(path);
    ReversedDotless(path);
    SplitJoin(parts, '.');
    assert Reversed(parts) == path;
  }

  lemma {:induction false} ReversedDotless(path: seq<string>)
    requires Dotless(path)
    ensures Dotless(Reversed(path))
  {
  }

  // ---- lookups on a flat map --------------------------------------------------------------

  /** Some pattern's labels begin with `path`. */
  ghost predicate Continues<V>(flat: map<string, V>, path: seq<string>) {
    exists key :: key in flat && path <= Labels(key)
  }

  /** How many labels of `path`, from `i` on, can be followed before no pattern continues. */
  ghost function Depth<V>(flat: map<string, V>, path: seq<string>, i: nat): (d: nat)
    requires i <= |path|
    ensures i <= d <= |path|
    decreases |path| - i
  {
    if i < |path| && Continues(flat, path[..i + 1]) then Depth(flat, path, i + 1) else i
  }

  function Find<V>(flat: map<string, V>, key: string): Option<V> {
    if key in flat then Some(flat[key]) else None
  }

  /** The wildcard pattern that stands in for the labels of `path` from `d` on. */
  ghost function Wildcard(path: seq<string>, d: nat): string
    requires d <= |path|
  {
    Name(path[..d] + ["*"])
  }

  /** What a lookup of `name` gives. */
  ghost function Lookup<V>(flat: map<string, V>, name: string): Option<V> {
    var path := Labels(name);
    var d := Depth(flat, path, 0);
    if d == |path| then Find(flat, name) else Find(flat, Wildcard(path, d))
  }

  lemma {:induction false} ContinuesShorter<V>(flat: map<string, V>, path: seq<string>, i: nat, j: nat)
    requires i <= j <= |path| && Continues(flat, path[..j])
    ensures Continues(flat, path[..i])
  {
    var key :| key in flat && path[..j] <= Labels(key);
    assert path[..i] <= path[..j];
  }

  /** The depth is the one place where patterns stop: all shorter prefixes continue, no longer one does. */
  lemma {:induction false} DepthIff<V>(flat: map<string, V>, path: seq<string>, i: nat, d: nat)
    requires i <= d <= |path| && (i > 0 ==> Continues(flat, path[..i]))
    ensures Depth(flat, path, i) == d <==>
            (d == i || Continues(flat, path[..d])) && (d < |path| ==> !Continues(flat, path[..d + 1]))
    decreases |path| - i
  {
    if i < |path| {
      if Continues(flat, path[..i + 1]) {
        if d > i { DepthIff(flat, path, i + 1, d); }
      } else if d > i && Continues(flat, path[..d]) {
        ContinuesShorter(flat, path, i + 1, d);
        assert false;
      }
    }
  }

  /** A name that was inserted as a pattern is found, whatever wildcards there are. */
  lemma {:induction false} ExactWins<V>(flat: map<string, V>, name: string)
    requires name in flat
    ensures Lookup(flat, name) == Some(flat[name])
  {
    var path := Labels(name);
    assert path[..|path|] == path && Continues(flat, path);
    DepthIff(flat, path, 0, |path|);
  }

  /**
   * A name that no pattern continues is found exactly when the wildcard at the first level where
   * patterns stop is present; wildcards at earlier levels do not count.
   */
  lemma {:induction false} WildcardIff<V>(flat: map<string, V>, name: string, d: nat)
    requires d < |Labels(name)| && !Continues(flat, Labels(name)[..d + 1])
    requires d == 0 || Continues(flat, Labels(name)[..d])
    ensures Lookup(flat, name) == Find(flat, Wildcard(Labels(name), d))
  {
    DepthIff(flat, Labels(name), 0, d);
  }

  /** A name all of whose labels can be followed is found exactly when it is a pattern. */
  lemma {:induction false} FullLookup<V>(flat: map<string, V>, name: string)
    requires Continues(flat, Labels(name))
    ensures Lookup(flat, name) == Find(flat, Name(Labels(name))) == Find(flat, name)
  {
    var path := Labels(name);
    assert path[..|path|] == path;
    DepthIff(flat, path, 0, |path|);
    NameLabels(name);
  }

  /** A name that some longer pattern continues, and that is not itself a pattern, is not found. */
  lemma {:induction false} InnerNotFound<V>(flat: map<string, V>, name: string)
    requires Continues(flat, Labels(name)) && name !in flat
    ensures Lookup(flat, name) == None
  {
    var path := Labels(name);
    assert path[..|path|] == path;
    DepthIff(flat, path, 0, |path|);
  }

  /** Patterns stop after `d` labels of the name, and the wildcard there is one of them. */
  ghost predicate WildcardAt<V>(flat: map<string, V>, name: string, d: nat) {
    var path := Labels(name);
    && d < |path| && !Continues(flat, path[..d + 1]) && (d == 0 || Continues(flat, path[..d]))
    && Wildcard(path, d) in flat
  }

  /** A name is found exactly when it is a pattern, or the wildcard where patterns stop is one. */
  lemma {:induction false} FoundIff<V>(flat: map<string, V>, name: string)
    ensures Lookup(flat, name).Some? <==> name in flat || exists d :: WildcardAt(flat, name, d)
  {
    var path := Labels(name);
    var d := Depth(flat, path, 0);
    DepthIff(flat, path, 0, d);
    if name in flat { ExactWins(flat, name); }
    if e :| WildcardAt(flat, name, e) { WildcardIff(flat, name, e); }
    if d < |path| && Lookup(flat, name).Some? { assert WildcardAt(flat, name, d); }
  }

  /** The labels a pattern stands for: a wildcard matches names at least as long as itself. */
  ghost predicate Matches(pattern: string, name: string) {
    var p, path := Labels(pattern), Labels(name);
    p == path || (|p| <= |path| && p[|p| - 1] == "*" && p[..|p| - 1] == path[..|p| - 1])
  }

  /** Whatever is found was inserted under a pattern that matches the name. */
  lemma {:induction false} LookupSound<V>(flat: map<string, V>, name: string)
    requires Lookup(flat, name).Some?
    ensures exists key :: key in flat && Matches(key, name) && Lookup(flat, name) == Some(flat[key])
  {
    var path := Labels(name);
    var d := Depth(flat, path, 0);
    if d < |path| {
      var p := path[..d] + ["*"];
      LabelsDotless(name);
      LabelsName(p);
      assert p[..d] == path[..d] && Wildcard(path, d) in flat && Matches(Wildcard(path, d), name);
    } else {
      assert name in flat && Matches(name, name);
    }
  }

  lemma {:induction false} ContinuesInsert<V>(flat: map<string, V>, pattern: string, value: V, path: seq<string>)
    ensures Continues(flat[pattern := value], path) <==> Continues(flat, path) || path <= Labels(pattern)
  {
    var flat' := flat[pattern := value];
    if Continues(flat, path) {
      var key :| key in flat && path <= Labels(key);
      assert key in flat';
    }
    if path <= Labels(pattern) { assert pattern in flat'; }
  }

  lemma {:induction false} LabelMore(head: string, rest: string)
    requires '.' !in head
    ensures Labels(head + "." + rest) == Labels(rest) + [head]
  {
    SplitAppend(head, rest, '.');
    assert Reversed([head] + Split(rest, '.')) == Reversed(Split(rest, '.')) + [head];
  }

  lemma {:induction false} NextLabelIs(top: seq<string>, x: string, longer: seq<string>)
    ensures top + [x] <= longer ==> |top| < |longer| && longer[|top|] == x
  {
    if top + [x] <= longer { assert (top + [x])[|top|] == longer[|top|]; }
  }

  /** A wildcard below `rest`, and a pattern two labels longer than `rest`. */
  ghost predicate TwoPatterns<V>(flat: map<string, V>, rest: string, a: string, b: string) {
    && '.' !in a && '.' !in b && a != "*" && b != "*"
    && flat.Keys == {"*" + "." + rest, a + "." + (b + "." + rest)}
  }

  lemma {:induction false} TwoPatternLabels<V>(flat: map<string, V>, rest: string, a: string, b: string, key: string)
    requires TwoPatterns(flat, rest, a, b) && key in flat
    ensures Labels(key) == Labels(rest) + ["*"] || Labels(key) == Labels(rest) + [b] + [a]
  {
    LabelMore("*", rest);
    LabelMore(b, rest);
    LabelMore(a, b + "." + rest);
  }

  /** A longer pattern hides the wildcard from the names on the way to it. */
  lemma {:induction false} HiddenOnTheWay<V>(flat: map<string, V>, rest: string, a: string, b: string)
    requires TwoPatterns(flat, rest, a, b)
    ensures Lookup(flat, b + "." + rest) == None
  {
    var name, far := b + "." + rest, a + "." + (b + "." + rest);
    LabelMore(b, rest);
    LabelMore(a, name);
    assert far in flat && Labels(name) <= Labels(far);
    if name in flat { TwoPatternLabels(flat, rest, a, b, name); }
    InnerNotFound(flat, name);
  }

  /** It also hides the wildcard from the other names below those. */
  lemma {:induction false} HiddenBeside<V>(flat: map<string, V>, rest: string, a: string, b: string, x: string)
    requires TwoPatterns(flat, rest, a, b) && '.' !in x && x != a
    ensures Lookup(flat, x + "." + (b + "." + rest)) == None
  {
    var name, far := x + "." + (b + "." + rest), a + "." + (b + "." + rest);
    var top, d := Labels(rest) + [b], |Labels(rest)| + 1;
    LabelMore(b, rest);
    LabelMore(a, b + "." + rest);
    LabelMore(x, b + "." + rest);
    var path := Labels(name);
    assert far in flat && path[..d] == top && top <= Labels(far) && path[..d + 1] == top + [x];
    forall key | key in flat ensures !(top + [x] <= Labels(key)) && Labels(key) != top + ["*"] {
      TwoPatternLabels(flat, rest, a, b, key);
      NextLabelIs(top, x, Labels(key));
      NextLabelIs(top, "*", Labels(key));
    }
    WildcardIff(flat, name, d);
    LabelsDotless(b + "." + rest);
    LabelsName(top + ["*"]);
  }

  /** In the clear, the wildcard is found. */
  lemma {:induction false} WildcardSeen<V>(flat: map<string, V>, rest: string, a: string, b: string, x: string)
    requires TwoPatterns(flat, rest, a, b) && '.' !in x && x != b && x != "*"
    ensures Lookup(flat, x + "." + rest) == Some(flat["*" + "." + rest])
  {
    var name, star := x + "." + rest, "*" + "." + rest;
    var top, d := Labels(rest), |Labels(rest)|;
    LabelMore("*", rest);
    LabelMore(x, rest);
    var path := Labels(name);
    assert star in flat && path[..d] == top && top <= Labels(star) && path[..d + 1] == top + [x];
    forall key | key in flat ensures !(top + [x] <= Labels(key)) {
      TwoPatternLabels(flat, rest, a, b, key);
      NextLabelIs(top, x, Labels(key));
    }
    WildcardIff(flat, name, d);
    NameLabels(star);
  }

  /** With the patterns `*.example.com` and `a.b.example.com`, `b.example.com` and `x.b.example.com` find nothing. */
  lemma {:induction false} WildcardHidden<V>(one: V, two: V)
    ensures var flat := map["*.example.com" := one, "a.b.example.com" := two];
            && Lookup(flat, "b.example.com") == None && Lookup(flat, "x.b.example.com") == None
            && Lookup(flat, "x.example.com") == Some(one)
  {
    var flat := map["*.example.com" := one, "a.b.example.com" := two];
    var rest := "example.com";
    assert "*" + "." + rest == "*.example.com" && "b" + "." + rest == "b.example.com";
    assert "a" + "." + "b.example.com" == "a.b.example.com" && "x" + "." + "b.example.com" == "x.b.example.com";
    assert "x" + "." + rest == "x.example.com";
    HiddenOnTheWay(flat, rest, "a", "b");
    HiddenBeside(flat, rest, "a", "b", "x");
    WildcardSeen(flat, rest, "a", "b", "x");
  }
}
