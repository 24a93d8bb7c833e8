/**
 * The path-compressed binary trie behind `CidrMap`.
 *
 * A CIDR is the string of its significant bits: the empty string is the `any`
 * network, otherwise the first bit gives the address family (false for IPv4,
 * true for IPv6) and up to 32 or 128 address bits follow.  An address is a
 * string of full length.
 */
module CidrKeys {

  type Key = seq<bool>

  /** Family bit plus 32 or 128 address bits. */
  function FullLength(v6: bool): nat {
    if v6 then 129 else 33
  }

  predicate IsKey(k: Key) {
    k == [] || |k| <= FullLength(k[0])
  }

  predicate IsAddress(a: Key) {
    a != [] && |a| == FullLength(a[0])
  }

  /** The number of leading bits on which both strings agree. */
  function SharedPrefixLen(a: Key, b: Key): (n: nat)
    ensures n <= |a| && n <= |b|
    ensures a[..n] == b[..n]
    ensures n < |a| && n < |b| ==> a[n] != b[n]
  {
    if a == [] || b == [] || a[0] != b[0] then 0
    else
      var n := SharedPrefixLen(a[1..], b[1..]);
      assert a[..n + 1] == [a[0]] + a[1..][..n] && b[..n + 1] == [b[0]] + b[1..][..n];
      n + 1
  }

  /** The first address of a network; `any` has none of its own, and the first IPv4 address stands for it. */
  function FirstAddress(k: Key): (a: Key)
    requires IsKey(k)
    ensures IsAddress(a) && k <= a
    ensures IsAddress(k) ==> a == k
    decreases 130 - |k|
  {
    if k != [] && |k| == FullLength(k[0]) then k else FirstAddress(k + [false])
  }

  /** `a` sorts before `b`, and neither is a prefix of the other. */
  ghost predicate Before(a: Key, b: Key) {
    exists n :: 0 <= n < |a| && n < |b| && a[..n] == b[..n] && !a[n] && b[n]
  }
}

module CidrTrie {
  import opened Common
  import opened CidrKeys

  datatype Node<V> =
    | Leaf(key: Key, value: V)
    | Inner(key: Key, left: Node<V>, right: Node<V>)

  /**
   * What a tree may look like: each inner key is the exact common prefix of what
   * is below it, and the bit after it picks the side.
   */
  ghost predicate Wf<V>(n: Node<V>) {
    match n
    case Leaf(k, _) => IsKey(k)
    case Inner(k, l, r) => k + [false] <= l.key && k + [true] <= r.key && Wf(l) && Wf(r)
  }

  /** Two leaves that together cover exactly their parent, with one value. */
  predicate Mergeable<V(==)>(n: Node<V>) {
    && n.Inner? && n.left.Leaf? && n.right.Leaf?
    && |n.left.key| == |n.key| + 1 && |n.right.key| == |n.key| + 1
    && n.left.value == n.right.value
  }

  ghost predicate Canonical<V>(n: Node<V>) {
    Wf(n) && (n.Inner? ==> !Mergeable(n) && Canonical(n.left) && Canonical(n.right))
  }

  /** The value of the leaf covering `a`, by searching every leaf. */
  ghost function Lookup<V>(n: Node<V>, a: Key): Option<V> {
    match n
    case Leaf(k, v) => if k <= a then Some(v) else None
    case Inner(_, l, r) => if Lookup(l, a).Some? then Lookup(l, a) else Lookup(r, a)
  }

  /** Reading past the end of a key is left to an arbitrary oracle. */
  type PastEnd = (Key, nat) -> bool

  function Bit(k: Key, i: nat, past: PastEnd): bool {
    if i < |k| then k[i] else past(k, i)
  }

  /** `find_item`: one bit decides the side, only the leaf is checked; `any` has no first address to check. */
  function FindItem<V>(n: Node<V>, q: Key, past: PastEnd): Option<V>
    requires IsKey(q) && q != []
  {
    match n
    case Leaf(k, v) => if k <= FirstAddress(q) then Some(v) else None
    case Inner(k, l, r) => FindItem(if Bit(q, |k|, past) then r else l, q, past)
  }

  /** `new_inner_unknown_order`; its assertion on the two bits is the precondition. */
  function NewInner<V>(shared: nat, a: Node<V>, b: Node<V>): (n: Node<V>)
    requires shared < |a.key| && shared < |b.key|
    requires a.key[shared] != b.key[shared]
  {
    var key := a.key[..shared];
    if a.key[shared] then Inner(key, b, a) else Inner(key, a, b)
  }

  /** The chain of inner nodes from depth `l` down to a leaf for `key`. */
  function SplitFrom<V>(l: nat, key: Key, value: V, oldValue: V): (n: Node<V>)
    requires l <= |key|
    ensures n.key == key[..l] && (l == |key| ==> n == Leaf(key, value))
    decreases |key| - l
  {
    if l == |key| then Leaf(key, value)
    else
      var n := SplitFrom(l + 1, key, value, oldValue);
      NewInner(l, n, Leaf(key[..l] + [!key[l]], oldValue))
  }

  function Compress<V(==)>(n: Node<V>): Node<V> {
    if Mergeable(n) then Leaf(n.key, n.left.value) else n
  }

  /** `Node::insert`. */
  function Inserted<V(==)>(n: Node<V>, key: Key, value: V): Node<V> {
    var shared := SharedPrefixLen(n.key, key);
    if shared == |key| then Leaf(n.key[..shared], value)
    else if shared < |n.key| then
      if shared + 1 == |n.key| && shared + 1 == |key| && n.Leaf? && n.value == value
      then Leaf(n.key[..shared], value)
      else NewInner(shared, n, Leaf(key, value))
    else
      match n
      case Leaf(_, was) => if was == value then n else SplitFrom(shared, key, value, was)
      case Inner(k, l, r) =>
        Compress(if key[|k|] then Inner(k, l, Inserted(r, key, value))
                 else Inner(k, Inserted(l, key, value), r))
  }

  /** `Node::insert_uncompressed`. */
  function InsertedUncompressed<V>(n: Node<V>, key: Key, value: V): Node<V> {
    var shared := SharedPrefixLen(n.key, key);
    if shared == |key| then Leaf(n.key[..shared], value)
    else if shared < |n.key| then NewInner(shared, n, Leaf(key, value))
    else
      match n
      case Leaf(_, was) => SplitFrom(shared, key, value, was)
      case Inner(k, l, r) =>
        if key[|k|] then Inner(k, l, InsertedUncompressed(r, key, value))
        else Inner(k, InsertedUncompressed(l, key, value), r)
  }

  // ---- lookup -----------------------------------------------------------

  lemma {:induction false} CoveredExtendsKey<V>(n: Node<V>, a: Key)
    requires Wf(n) && Lookup(n, a).Some?
    ensures n.key <= a
  {
    if n.Inner? {
      if Lookup(n.left, a).Some? { CoveredExtendsKey(n.left, a); } else { CoveredExtendsKey(n.right, a); }
    }
  }

  /** Only the child on `a`'s side can cover `a`. */
  lemma {:induction false} LookupSide<V>(n: Node<V>, a: Key)
    requires Wf(n) && n.Inner?
    ensures |a| <= |n.key| ==> Lookup(n, a) == None
    ensures |a| > |n.key| ==> Lookup(n, a) == Lookup(if a[|n.key|] then n.right else n.left, a)
  {
    if Lookup(n.left, a).Some? { CoveredExtendsKey(n.left, a); }
    if Lookup(n.right, a).Some? { CoveredExtendsKey(n.right, a); }
  }

  /** Routing by single bits finds exactly the covering leaf, whatever lies past the end of a key. */
  lemma {:induction false} FindItemIsLookup<V>(n: Node<V>, a: Key, past: PastEnd)
    requires Wf(n) && IsAddress(a)
    ensures FindItem(n, a, past) == Lookup(n, a)
  {
    if n.Inner? {
      LookupSide(n, a);
      var side := if Bit(a, |n.key|, past) then n.right else n.left;
      FindItemIsLookup(side, a, past);
      if |a| <= |n.key| && Lookup(side, a).Some? { CoveredExtendsKey(side, a); }
    }
  }

  /** A network that is not a single address never finds a leaf that misses its first address. */
  lemma {:induction false} FindItemSound<V>(n: Node<V>, q: Key, past: PastEnd)
    requires Wf(n) && IsKey(q) && q != [] && FindItem(n, q, past).Some?
    ensures FindItem(n, q, past) == Lookup(n, FirstAddress(q))
  {
    if n.Inner? {
      var a := FirstAddress(q);
      var side := if Bit(q, |n.key|, past) then n.right else n.left;
      FindItemSound(side, q, past);
      CoveredExtendsKey(side, a);
      LookupSide(n, a);
    }
  }

  /** A network that lies under a leaf is found there, whatever reading past its end gives. */
  lemma {:induction false} FindItemCovered<V>(n: Node<V>, q: Key, past: PastEnd)
    requires Wf(n) && IsKey(q) && q != [] && Lookup(n, q).Some?
    ensures FindItem(n, q, past) == Lookup(n, q)
  {
    if n.Inner? {
      LookupSide(n, q);
      FindItemCovered(if q[|n.key|] then n.right else n.left, q, past);
    }
  }

  // ---- insertion is a point-wise update -----------------------------------

  lemma {:induction false} SplitWf<V>(l: nat, key: Key, value: V, was: V)
    requires l <= |key| && IsKey(key)
    ensures Wf(SplitFrom(l, key, value, was))
    ensures value != was ==> Canonical(SplitFrom(l, key, value, was))
    decreases |key| - l
  {
    if l < |key| {
      SplitWf(l + 1, key, value, was);
      assert key[..l + 1] == key[..l] + [key[l]];
    }
  }

  lemma {:induction false} SplitLookup<V>(l: nat, key: Key, value: V, was: V, a: Key)
    requires l <= |key| && IsKey(key) && IsAddress(a) && key[..l] <= a
    ensures Lookup(SplitFrom(l, key, value, was), a) == Some(if key <= a then value else was)
    decreases |key| - l
  {
    if l < |key| {
      SplitSide(l, key, value, was, a);
      if a[l] == key[l] {
        assert key[..l + 1] <= a;
        SplitLookup(l + 1, key, value, was, a);
      }
    }
  }

  lemma {:induction false} SplitSide<V>(l: nat, key: Key, value: V, was: V, a: Key)
    requires l < |key| && IsKey(key) && IsAddress(a) && key[..l] <= a
    ensures l < |a|
    ensures Lookup(SplitFrom(l, key, value, was), a)
         == if a[l] == key[l] then Lookup(SplitFrom(l + 1, key, value, was), a) else Some(was)
  {
    assert l < |a| by { if l > 0 { assert a[0] == key[0]; } }
    SplitWf(l, key, value, was);
    LookupSide(SplitFrom(l, key, value, was), a);
  }

  /** `s` is where the two keys part. */
  predicate PartAt(s: nat, a: Key, b: Key) {
    s < |a| && s < |b| && a[..s] == b[..s] && a[s] != b[s]
  }

  lemma {:induction false} NewInnerWf<V>(s: nat, n: Node<V>, key: Key, value: V)
    requires Wf(n) && IsKey(key) && PartAt(s, n.key, key)
    ensures Wf(NewInner(s, n, Leaf(key, value)))
  {
    assert n.key[..s] + [n.key[s]] == n.key[..s + 1];
    assert n.key[..s] + [key[s]] == key[..s + 1];
  }

  lemma {:induction false} NewInnerLookup<V>(s: nat, n: Node<V>, key: Key, value: V, a: Key)
    requires Wf(n) && IsKey(key) && PartAt(s, n.key, key)
    ensures Lookup(NewInner(s, n, Leaf(key, value)), a) == if key <= a then Some(value) else Lookup(n, a)
  {
    if Lookup(n, a).Some? {
      CoveredExtendsKey(n, a);
      assert a[s] == n.key[s];
    }
  }

  /** Two sibling networks cover exactly what their parent covers. */
  lemma {:induction false} SiblingsCover(s: nat, k1: Key, k2: Key, a: Key)
    requires PartAt(s, k1, k2) && |k1| == s + 1 && |k2| == s + 1
    requires IsKey(k1) && IsKey(k2) && IsAddress(a)
    ensures k1[..s] <= a <==> (k1 <= a || k2 <= a)
  {
    if k1[..s] <= a {
      assert s < |a| by { if s > 0 { assert a[0] == k1[0]; } }
      assert k1 == k1[..s] + [k1[s]] && k2 == k1[..s] + [k2[s]];
      assert a[..s + 1] == k1[..s] + [a[s]];
      assert a[s] == k1[s] || a[s] == k2[s];
    }
  }

  lemma {:induction false} CompressLookup<V>(n: Node<V>, a: Key)
    requires Wf(n) && IsAddress(a)
    ensures Wf(Compress(n)) && Lookup(Compress(n), a) == Lookup(n, a)
  {
    if Mergeable(n) {
      assert n.left.key == n.key + [false] && n.right.key == n.key + [true];
      if n.key <= a {
        assert |n.key| < |a| by { if n.key != [] { assert a[0] == n.key[0] == n.left.key[0]; } }
      }
      LookupSide(n, a);
    }
  }

  /** A child that keeps at least what it shares with `key` stays on its side. */
  lemma {:induction false} StaysBelow(side: Key, child: Key, key: Key, k: Key)
    requires side <= child && side <= key && k <= child
    requires |k| >= SharedPrefixLen(child, key)
    ensures side <= k
  {
    assert child[..|side|] == side == key[..|side|];
    var s := SharedPrefixLen(child, key);
    assert |side| <= s;
  }

  lemma {:induction false} InsertedWf<V>(n: Node<V>, key: Key, value: V)
    requires Wf(n) && IsKey(key)
    ensures Wf(Inserted(n, key, value))
    ensures Inserted(n, key, value).key <= n.key
    ensures |Inserted(n, key, value).key| >= SharedPrefixLen(n.key, key)
    ensures Canonical(n) ==> Canonical(Inserted(n, key, value))
    decreases n, 1
  {
    var shared := SharedPrefixLen(n.key, key);
    PrefixIsKey(n, shared);
    if shared == |key| {
    } else if shared < |n.key| {
      NewInnerWf(shared, n, key, value);
    } else if n.Leaf? {
      SplitWf(shared, key, value, n.value);
    } else {
      SideWf(n, key, value);
      CompressWf(Inserted(n, key, value), n, key, value);
    }
  }

  lemma {:induction false} CompressWf<V>(m: Node<V>, n: Node<V>, key: Key, value: V)
    requires Wf(n) && n.Inner? && IsKey(key) && n.key <= key && |n.key| < |key| && IsKey(n.key)
    requires var b := key[|n.key|];
             && (b ==> m == Compress(Inner(n.key, n.left, Inserted(n.right, key, value))))
             && (!b ==> m == Compress(Inner(n.key, Inserted(n.left, key, value), n.right)))
    requires key[|n.key|] ==> Wf(Inner(n.key, n.left, Inserted(n.right, key, value)))
    requires !key[|n.key|] ==> Wf(Inner(n.key, Inserted(n.left, key, value), n.right))
    requires Canonical(n) ==> Canonical(Inserted(if key[|n.key|] then n.right else n.left, key, value))
    ensures Wf(m) && m.key == n.key && (Canonical(n) ==> Canonical(m))
  {
  }

  lemma {:induction false} PrefixIsKey<V>(n: Node<V>, l: nat)
    requires Wf(n) && l <= |n.key|
    ensures IsKey(n.key[..l])
  {
    if n.Inner? {
      PrefixIsKey(n.left, l);
      assert n.left.key[..l] == n.key[..l];
    }
  }

  /** Before compressing, the node whose child was replaced is well formed. */
  lemma {:induction false} SideWf<V>(n: Node<V>, key: Key, value: V)
    requires Wf(n) && n.Inner? && IsKey(key) && n.key <= key && |n.key| < |key|
    ensures key[|n.key|] ==> Wf(Inner(n.key, n.left, Inserted(n.right, key, value)))
    ensures !key[|n.key|] ==> Wf(Inner(n.key, Inserted(n.left, key, value), n.right))
    ensures Canonical(n) ==> Canonical(Inserted(if key[|n.key|] then n.right else n.left, key, value))
    decreases n, 0
  {
    var child := if key[|n.key|] then n.right else n.left;
    InsertedWf(child, key, value);
    ChildWf(n, key, child, Inserted(child, key, value));
  }

  /** The law of `insert`: the addresses under `key` now give `value`, every other one is as before. */
  lemma {:induction false} InsertedLookup<V>(n: Node<V>, key: Key, value: V, a: Key)
    requires Wf(n) && IsKey(key) && IsAddress(a)
    ensures Lookup(Inserted(n, key, value), a) == if key <= a then Some(value) else Lookup(n, a)
  {
    var shared := SharedPrefixLen(n.key, key);
    if shared == |key| {
      ReplaceLookup(n, key, value, a);
    } else if shared < |n.key| {
      NewInnerLookup(shared, n, key, value, a);
      if |n.key| == shared + 1 == |key| && n.Leaf? { SiblingsCover(shared, n.key, key, a); }
    } else if n.Leaf? {
      LeafLookup(n, key, value, a);
    } else {
      InsertedLookup(if key[|n.key|] then n.right else n.left, key, value, a);
      InnerLookup(n, key, value, a);
    }
  }

  /** If the child on the key's side obeys the law, so does the node. */
  lemma {:induction false} InnerLookup<V>(n: Node<V>, key: Key, value: V, a: Key)
    requires Wf(n) && n.Inner? && IsKey(key) && IsAddress(a) && n.key <= key && |n.key| < |key|
    requires var child := if key[|n.key|] then n.right else n.left;
             Lookup(Inserted(child, key, value), a) == if key <= a then Some(value) else Lookup(child, a)
    ensures var below := if key[|n.key|] then Inner(n.key, n.left, Inserted(n.right, key, value))
                         else Inner(n.key, Inserted(n.left, key, value), n.right);
            Lookup(Compress(below), a) == if key <= a then Some(value) else Lookup(n, a)
  {
    var below := if key[|n.key|] then Inner(n.key, n.left, Inserted(n.right, key, value))
                 else Inner(n.key, Inserted(n.left, key, value), n.right);
    SideWf(n, key, value);
    CompressLookup(below, a);
    LookupSide(below, a);
    LookupSide(n, a);
  }

  lemma {:induction false} LeafLookup<V>(n: Node<V>, key: Key, value: V, a: Key)
    requires n.Leaf? && IsKey(key) && IsAddress(a) && n.key <= key
    ensures Lookup(SplitFrom(|n.key|, key, value, n.value), a) == if key <= a then Some(value) else Lookup(n, a)
    ensures n.value == value ==> Lookup(n, a) == if key <= a then Some(value) else Lookup(n, a)
  {
    if n.key <= a { SplitLookup(|n.key|, key, value, n.value, a); } else { MissLookup(n, key, value, a); }
  }

  /** Outside the old leaf, splitting it changes nothing. */
  lemma {:induction false} MissLookup<V>(n: Node<V>, key: Key, value: V, a: Key)
    requires n.Leaf? && IsKey(key) && n.key <= key && !(n.key <= a)
    ensures Lookup(SplitFrom(|n.key|, key, value, n.value), a) == None && !(key <= a)
  {
    SplitWf(|n.key|, key, value, n.value);
    var r := SplitFrom(|n.key|, key, value, n.value);
    if Lookup(r, a).Some? { CoveredExtendsKey(r, a); }
  }

  lemma {:induction false} ReplaceLookup<V>(n: Node<V>, key: Key, value: V, a: Key)
    requires Wf(n) && key <= n.key
    ensures Lookup(Leaf(key, value), a) == if key <= a then Some(value) else Lookup(n, a)
  {
    if Lookup(n, a).Some? { CoveredExtendsKey(n, a); }
  }

  // ---- insertion without merging ------------------------------------------

  lemma {:induction false} UncompressedWf<V>(n: Node<V>, key: Key, value: V)
    requires Wf(n) && IsKey(key)
    ensures Wf(InsertedUncompressed(n, key, value))
    ensures InsertedUncompressed(n, key, value).key <= n.key
    ensures |InsertedUncompressed(n, key, value).key| >= SharedPrefixLen(n.key, key)
  {
    var shared := SharedPrefixLen(n.key, key);
    if shared == |key| {
      PrefixIsKey(n, shared);
    } else if shared < |n.key| {
      NewInnerWf(shared, n, key, value);
    } else if n.Leaf? {
      SplitWf(shared, key, value, n.value);
    } else {
      var child := if key[|n.key|] then n.right else n.left;
      UncompressedWf(child, key, value);
      ChildWf(n, key, child, InsertedUncompressed(child, key, value));
    }
  }

  /** A child that keeps at least what it shares with the key can be put back in its place. */
  lemma {:induction false} ChildWf<V>(n: Node<V>, key: Key, child: Node<V>, m: Node<V>)
    requires Wf(n) && n.Inner? && n.key <= key && |n.key| < |key| && Wf(m)
    requires child == if key[|n.key|] then n.right else n.left
    requires m.key <= child.key && |m.key| >= SharedPrefixLen(child.key, key)
    ensures Wf(if key[|n.key|] then Inner(n.key, n.left, m) else Inner(n.key, m, n.right))
  {
    var b := key[|n.key|];
    assert n.key + [b] == key[..|n.key| + 1];
    StaysBelow(n.key + [b], child.key, key, m.key);
  }

  /** `insert_uncompressed` obeys the same law as `insert`. */
  lemma {:induction false} UncompressedLookup<V>(n: Node<V>, key: Key, value: V, a: Key)
    requires Wf(n) && IsKey(key) && IsAddress(a)
    ensures Lookup(InsertedUncompressed(n, key, value), a) == if key <= a then Some(value) else Lookup(n, a)
  {
    var shared := SharedPrefixLen(n.key, key);
    if shared == |key| {
      ReplaceLookup(n, key, value, a);
    } else if shared < |n.key| {
      NewInnerLookup(shared, n, key, value, a);
    } else if n.Leaf? {
      LeafLookup(n, key, value, a);
    } else {
      UncompressedLookup(if key[|n.key|] then n.right else n.left, key, value, a);
      UncompressedWf(n, key, value);
      LookupSide(InsertedUncompressed(n, key, value), a);
      LookupSide(n, a);
    }
  }
}
