/** A lookup table has exactly one canonical tree, and the tree lists its leaves in order. */
module CidrCanonical {
  import opened Common
  import opened CidrKeys
  import opened CidrTrie

  ghost predicate SameLookup<V>(m: Node<V>, n: Node<V>) {
    forall a | IsAddress(a) :: Lookup(m, a) == Lookup(n, a)
  }

  /** An address covered by the leftmost leaf. */
  ghost function Witness<V>(n: Node<V>): (a: Key)
    requires Wf(n)
    ensures IsAddress(a) && Lookup(n, a).Some?
  {
    match n
    case Leaf(k, _) => FirstAddress(k)
    case Inner(_, l, _) => Witness(l)
  }

  /** Every tree that is not a single address covers addresses on both sides of its key. */
  lemma {:induction false} SideAddress<V>(n: Node<V>, b: bool) returns (a: Key)
    requires Wf(n) && !IsAddress(n.key)
    ensures IsAddress(a) && n.key + [b] <= a && Lookup(n, a).Some?
  {
    if n.Leaf? {
      a := FirstAddress(n.key + [b]);
    } else {
      var child := if b then n.right else n.left;
      a := Witness(child);
      CoveredExtendsKey(child, a);
    }
  }

  lemma {:induction false} KeyNotLonger<V>(m: Node<V>, n: Node<V>)
    requires Wf(m) && Wf(n) && SameLookup(m, n)
    ensures |n.key| <= |m.key|
  {
    if |m.key| < |n.key| {
      var w := Witness(n);
      CoveredExtendsKey(n, w);
      CoveredExtendsKey(m, w);
      assert m.key == w[..|m.key|] == n.key[..|m.key|];
      PrefixIsKey(n, |n.key|);
      assert n.key[..|n.key|] == n.key;
      var b := !n.key[|m.key|];
      var a := SideAddress(m, b);
      CoveredExtendsKey(n, a);
    }
  }

  /** The root key is determined by the lookups: it is the common prefix of all covered addresses. */
  lemma {:induction false} KeyUnique<V>(m: Node<V>, n: Node<V>)
    requires Wf(m) && Wf(n) && SameLookup(m, n)
    ensures m.key == n.key
  {
    KeyNotLonger(m, n);
    KeyNotLonger(n, m);
    var w := Witness(n);
    CoveredExtendsKey(n, w);
    CoveredExtendsKey(m, w);
  }

  /** A canonical tree that gives one value everywhere under its key is a leaf. */
  lemma {:induction false} ConstantIsLeaf<V>(n: Node<V>, v: V)
    requires Canonical(n)
    requires forall a | IsAddress(a) && n.key <= a :: Lookup(n, a) == Some(v)
    ensures n == Leaf(n.key, v)
  {
    if n.Leaf? {
      assert Lookup(n, FirstAddress(n.key)) == Some(v);
    } else {
      ConstantChild(n, false, v);
      ConstantChild(n, true, v);
      ConstantIsLeaf(n.left, v);
      ConstantIsLeaf(n.right, v);
    }
  }

  lemma {:induction false} ConstantChild<V>(n: Node<V>, b: bool, v: V)
    requires Wf(n) && n.Inner?
    requires forall a | IsAddress(a) && n.key <= a :: Lookup(n, a) == Some(v)
    ensures var child := if b then n.right else n.left;
            && |child.key| == |n.key| + 1
            && forall a | IsAddress(a) && child.key <= a :: Lookup(child, a) == Some(v)
  {
    var child := if b then n.right else n.left;
    forall a | IsAddress(a) && child.key <= a ensures Lookup(child, a) == Some(v) {
      LookupSide(n, a);
    }
    if |child.key| > |n.key| + 1 {
      PrefixIsKey(child, |n.key| + 2);
      var k := child.key[..|n.key| + 1] + [!child.key[|n.key| + 1]];
      assert IsKey(k);
      var a := FirstAddress(k);
      assert n.key + [b] == child.key[..|n.key| + 1] <= a;
      LookupSide(n, a);
      CoveredExtendsKey(child, a);
    }
  }

  lemma {:induction false} SameChildren<V>(m: Node<V>, n: Node<V>, b: bool)
    requires Wf(m) && Wf(n) && m.Inner? && n.Inner? && m.key == n.key && SameLookup(m, n)
    ensures SameLookup(if b then m.right else m.left, if b then n.right else n.left)
  {
    var mc, nc := if b then m.right else m.left, if b then n.right else n.left;
    forall a | IsAddress(a) ensures Lookup(mc, a) == Lookup(nc, a) {
      LookupSide(m, a);
      LookupSide(n, a);
      if !(m.key + [b] <= a) {
        if Lookup(mc, a).Some? { CoveredExtendsKey(mc, a); }
        if Lookup(nc, a).Some? { CoveredExtendsKey(nc, a); }
      }
    }
  }

  /** Canonical trees with the same lookups are the same tree. */
  lemma {:induction false} CanonicalUnique<V>(m: Node<V>, n: Node<V>)
    requires Canonical(m) && Canonical(n) && SameLookup(m, n)
    ensures m == n
  {
    KeyUnique(m, n);
    if m.Leaf? {
      ConstantIsLeaf(n, m.value);
    } else if n.Leaf? {
      ConstantIsLeaf(m, n.value);
    } else {
      SameChildren(m, n, false);
      SameChildren(m, n, true);
      CanonicalUnique(m.left, n.left);
      CanonicalUnique(m.right, n.right);
    }
  }

  // ---- the leaves in order --------------------------------------------------

  function Leaves<V>(n: Node<V>): seq<(Key, V)> {
    match n
    case Leaf(k, v) => [(k, v)]
    case Inner(_, l, r) => Leaves(l) + Leaves(r)
  }

  lemma {:induction false} LeavesExtendKey<V>(n: Node<V>, i: nat)
    requires Wf(n) && i < |Leaves(n)|
    ensures IsKey(Leaves(n)[i].0) && n.key <= Leaves(n)[i].0
  {
    if n.Inner? {
      var s := |Leaves(n.left)|;
      if i < s { LeavesExtendKey(n.left, i); } else { LeavesExtendKey(n.right, i - s); }
    }
  }

  /** The keys listed are increasing, and none is a prefix of another. */
  lemma {:induction false} LeavesOrdered<V>(n: Node<V>, i: nat, j: nat)
    requires Wf(n) && i < j < |Leaves(n)|
    ensures Before(Leaves(n)[i].0, Leaves(n)[j].0)
  {
    if n.Inner? {
      var s := |Leaves(n.left)|;
      if j < s {
        LeavesOrdered(n.left, i, j);
      } else if i >= s {
        LeavesOrdered(n.right, i - s, j - s);
      } else {
        LeavesExtendKey(n.left, i);
        LeavesExtendKey(n.right, j - s);
        var x, y := Leaves(n)[i].0, Leaves(n)[j].0;
        assert x[..|n.key|] == n.key == y[..|n.key|];
        assert !x[|n.key|] && y[|n.key|];
      }
    }
  }

  /** The value of the most recent entry whose key covers `a`. */
  function LastMatch<V>(entries: seq<(Key, V)>, a: Key): Option<V> {
    if entries == [] then None
    else
      var last := entries[|entries| - 1];
      if last.0 <= a then Some(last.1) else LastMatch(entries[..|entries| - 1], a)
  }

  lemma {:induction false} LastMatchConcat<V>(xs: seq<(Key, V)>, ys: seq<(Key, V)>, a: Key)
    ensures LastMatch(xs + ys, a) == if LastMatch(ys, a).Some? then LastMatch(ys, a) else LastMatch(xs, a)
  {
    if ys == [] {
      assert xs + ys == xs;
    } else {
      assert (xs + ys)[..|xs + ys| - 1] == xs + ys[..|ys| - 1];
      LastMatchConcat(xs, ys[..|ys| - 1], a);
    }
  }

  /** The listing, read as a last-writer-wins list, has the tree's lookups. */
  lemma {:induction false} LeavesLookup<V>(n: Node<V>, a: Key)
    requires Wf(n)
    ensures LastMatch(Leaves(n), a) == Lookup(n, a)
  {
    if n.Inner? {
      LeavesLookup(n.left, a);
      LeavesLookup(n.right, a);
      LastMatchConcat(Leaves(n.left), Leaves(n.right), a);
      LookupSide(n, a);
      if Lookup(n.right, a).Some? { CoveredExtendsKey(n.right, a); }
    }
  }
}
