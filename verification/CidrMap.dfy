/** `CidrMap` and its iterator, as mutable objects over the trie, and what whole runs of them do. */
module CidrMap {
  import opened Common
  import opened CidrKeys
  import opened CidrTrie
  import opened CidrCanonical

  ghost predicate ValidRoot<V>(root: Option<Node<V>>) {
    root.Some? ==> Wf(root.value)
  }

  ghost predicate CanonicalRoot<V>(root: Option<Node<V>>) {
    root.Some? ==> Canonical(root.value)
  }

  ghost function RootLookup<V>(root: Option<Node<V>>, a: Key): Option<V> {
    if root.None? then None else Lookup(root.value, a)
  }

  function RootInserted<V(==)>(root: Option<Node<V>>, key: Key, value: V): Option<Node<V>> {
    Some(if root.None? then Leaf(key, value) else Inserted(root.value, key, value))
  }

  function RootInsertedUncompressed<V>(root: Option<Node<V>>, key: Key, value: V): Option<Node<V>> {
    Some(if root.None? then Leaf(key, value) else InsertedUncompressed(root.value, key, value))
  }

  function RootLeaves<V>(root: Option<Node<V>>): seq<(Key, V)> {
    if root.None? then [] else Leaves(root.value)
  }

  // ---- nodes, in the step-by-step form ------------------------------------

  /** The linear split of the path from a covering leaf down to `key`. */
  method SplitPath<V>(shared: nat, key: Key, value: V, oldValue: V) returns (node: Node<V>)
    requires shared <= |key|
    ensures node == SplitFrom(shared, key, value, oldValue)
  {
    node := Leaf(key, value);
    var l := |key|;
    while l > shared
      invariant shared <= l <= |key|
      invariant node == SplitFrom(l, key, value, oldValue)
    {
      l := l - 1;
      var otherKey := key[..l + 1];
      otherKey := otherKey[l := !otherKey[l]];
      assert otherKey == key[..l] + [!key[l]];
      node := NewInner(l, node, Leaf(otherKey, oldValue));
    }
  }

  method InsertNode<V(==)>(self: Node<V>, key: Key, value: V) returns (node: Node<V>)
    ensures node == Inserted(self, key, value)
    decreases self
  {
    node := self;
    var shared := SharedPrefixLen(node.key, key);
    if shared == |key| {
      node := Leaf(node.key[..shared], value);
    } else if shared < |node.key| {
      if shared + 1 == |node.key| && shared + 1 == |key| && node.Leaf? && node.value == value {
        node := Leaf(node.key[..shared], node.value);
        return;
      }
      node := NewInner(shared, node, Leaf(key, value));
    } else {
      match node {
        case Leaf(_, oldValue) =>
          if oldValue == value { return; }
          node := SplitPath(shared, key, value, oldValue);
        case Inner(k, l, r) =>
          if key[|k|] {
            var child := InsertNode(r, key, value);
            node := Inner(k, l, child);
          } else {
            var child := InsertNode(l, key, value);
            node := Inner(k, child, r);
          }
          node := Compress(node);
      }
    }
  }

  method InsertNodeUncompressed<V>(self: Node<V>, key: Key, value: V) returns (node: Node<V>)
    ensures node == InsertedUncompressed(self, key, value)
    decreases self
  {
    var shared := SharedPrefixLen(self.key, key);
    if shared == |key| {
      node := Leaf(self.key[..shared], value);
    } else if shared < |self.key| {
      node := NewInner(shared, self, Leaf(key, value));
    } else {
      match self {
        case Leaf(_, oldValue) => node := SplitPath(shared, key, value, oldValue);
        case Inner(k, l, r) =>
          if key[|k|] {
            node := InsertNodeUncompressed(r, key, value);
            node := Inner(k, l, node);
          } else {
            node := InsertNodeUncompressed(l, key, value);
            node := Inner(k, node, r);
          }
      }
    }
  }

  // ---- the map --------------------------------------------------------------

  class CidrMap<V(==)> {
    var root: Option<Node<V>>

    ghost predicate Valid() reads this { ValidRoot(root) }

    constructor ()
      ensures root == None
    {
      root := None;
    }

    method Insert(key: Key, value: V)
      requires Valid() && IsKey(key)
      modifies this
      ensures Valid() && root == RootInserted(old(root), key, value)
      ensures CanonicalRoot(old(root)) ==> CanonicalRoot(root)
      ensures forall a | IsAddress(a) ::
                RootLookup(root, a) == if key <= a then Some(value) else RootLookup(old(root), a)
    {
      InsertedRoot(root, key, value);
      match root {
        case None => root := Some(Leaf(key, value));
        case Some(node) =>
          var n := InsertNode(node, key, value);
          root := Some(n);
      }
    }

    method InsertUncompressed(key: Key, value: V)
      requires Valid() && IsKey(key)
      modifies this
      ensures Valid() && root == RootInsertedUncompressed(old(root), key, value)
      ensures forall a | IsAddress(a) ::
                RootLookup(root, a) == if key <= a then Some(value) else RootLookup(old(root), a)
    {
      InsertedRootUncompressed(root, key, value);
      match root {
        case None => root := Some(Leaf(key, value));
        case Some(node) =>
          var n := InsertNodeUncompressed(node, key, value);
          root := Some(n);
      }
    }

    method GetPrefixMatch(ip: Key, past: PastEnd) returns (value: Option<V>)
      requires Valid() && IsAddress(ip)
      ensures value == RootLookup(root, ip)
    {
      match root {
        case None => value := None;
        case Some(node) =>
          FindItemIsLookup(node, ip, past);
          value := FindItem(node, ip, past);
      }
    }
  }

  /** Collecting entries, as deserializing and `FromIterator` do. */
  method FromEntries<V(==)>(entries: seq<(Key, V)>) returns (cidrs: CidrMap<V>)
    requires forall e | e in entries :: IsKey(e.0)
    ensures fresh(cidrs) && cidrs.root == Built(entries)
  {
    cidrs := new CidrMap();
    for i := 0 to |entries|
      invariant cidrs.Valid() && fresh(cidrs)
      invariant cidrs.root == Built(entries[..i])
    {
      cidrs.Insert(entries[i].0, entries[i].1);
      assert entries[..i + 1][..i] == entries[..i];
    }
    assert entries[..|entries|] == entries;
  }

  /** `From<CidrMap> for Vec`: what the iterator yields. */
  method ToVec<V(==)>(cidrs: CidrMap<V>) returns (result: seq<(Key, V)>)
    ensures result == RootLeaves(cidrs.root)
  {
    result := [];
    var iter := new Iter(cidrs.root);
    ghost var all := Remaining(iter.stack);
    while true
      invariant fresh(iter) && ValidStack(iter.stack)
      invariant all == RootLeaves(cidrs.root) == result + Remaining(iter.stack)
      decreases |Remaining(iter.stack)|
    {
      var item := iter.Next();
      match item {
        case None => return;
        case Some(entry) => result := result + [entry];
      }
    }
  }

  // ---- the iterator -----------------------------------------------------------

  datatype Direction = Left | Right | Up

  datatype Frame<V> = Frame(dir: Direction, node: Node<V>)

  ghost predicate ValidFrame<V>(f: Frame<V>) {
    f.dir.Right? ==> f.node.Inner?
  }

  ghost predicate ValidStack<V>(stack: seq<Frame<V>>) {
    forall f | f in stack :: ValidFrame(f)
  }

  ghost function Pending<V>(f: Frame<V>): seq<(Key, V)> {
    match f.dir
    case Left => Leaves(f.node)
    case Right => if f.node.Inner? then Leaves(f.node.right) else []
    case Up => []
  }

  /** What a stack has yet to yield: the top frame first. */
  ghost function Remaining<V>(stack: seq<Frame<V>>): seq<(Key, V)> {
    if stack == [] then []
    else Pending(stack[|stack| - 1]) + Remaining(stack[..|stack| - 1])
  }

  lemma {:induction false} RemainingPush<V>(rest: seq<Frame<V>>, f: Frame<V>)
    ensures Remaining(rest + [f]) == Pending(f) + Remaining(rest)
  {
    assert (rest + [f])[..|rest|] == rest;
  }

  function Rest<V>(stack: seq<Frame<V>>): seq<Frame<V>>
    requires stack != []
  {
    stack[..|stack| - 1]
  }

  /** The top frame replaced by a spent one and a child keeps what is left, if together they hold it. */
  lemma {:induction false} RemainingDown<V>(stack: seq<Frame<V>>, g: Frame<V>, child: Frame<V>)
    requires stack != [] && ValidStack(stack) && ValidFrame(g) && ValidFrame(child)
    requires Pending(stack[|stack| - 1]) == Pending(child) + Pending(g)
    ensures ValidStack(Rest(stack) + [g] + [child])
    ensures Remaining(Rest(stack) + [g] + [child]) == Remaining(stack)
  {
    var rest := Rest(stack);
    RemainingPush(rest, g);
    RemainingPush(rest + [g], child);
    Assoc3(Pending(child), Pending(g), Remaining(rest));
  }

  /** A leaf on top is yielded, and its frame is spent. */
  lemma {:induction false} RemainingLeaf<V>(stack: seq<Frame<V>>)
    requires stack != [] && ValidStack(stack)
    requires stack[|stack| - 1].dir.Left? && stack[|stack| - 1].node.Leaf?
    ensures var node := stack[|stack| - 1].node;
            && ValidStack(Rest(stack) + [Frame(Up, node)])
            && Remaining(stack) == [(node.key, node.value)] + Remaining(Rest(stack) + [Frame(Up, node)])
  {
    var top := stack[|stack| - 1];
    ValidPush(stack, Frame(Up, top.node));
    RemainingSpent(Rest(stack), Frame(Up, top.node));
    RemainingTop(stack);
  }

  lemma {:induction false} RemainingSpent<V>(rest: seq<Frame<V>>, f: Frame<V>)
    requires f.dir.Up?
    ensures Remaining(rest + [f]) == Remaining(rest)
  {
    RemainingPush(rest, f);
  }

  lemma {:induction false} RemainingTop<V>(stack: seq<Frame<V>>)
    requires stack != [] && stack[|stack| - 1].dir.Left? && stack[|stack| - 1].node.Leaf?
    ensures var node := stack[|stack| - 1].node;
            Remaining(stack) == [(node.key, node.value)] + Remaining(Rest(stack))
  {
  }

  lemma {:induction false} ValidPush<V>(stack: seq<Frame<V>>, f: Frame<V>)
    requires stack != [] && ValidStack(stack) && ValidFrame(f)
    ensures ValidStack(Rest(stack) + [f])
  {
    forall g | g in Rest(stack) + [f] ensures ValidFrame(g) {
      assert g in Rest(stack) ==> g in stack;
    }
  }

  class Iter<V> {
    var stack: seq<Frame<V>>

    constructor (root: Option<Node<V>>)
      ensures ValidStack(stack) && Remaining(stack) == RootLeaves(root)
    {
      stack := if root.None? then [] else [Frame(Left, root.value)];
    }

    method Next() returns (item: Option<(Key, V)>)
      requires ValidStack(stack)
      modifies this
      ensures ValidStack(stack)
      ensures item == None ==> old(Remaining(stack)) == [] && stack == []
      ensures item.Some? ==> old(Remaining(stack)) == [item.value] + Remaining(stack)
    {
      if stack == [] { return None; }
      while stack[|stack| - 1].dir.Up?
        invariant stack != [] && ValidStack(stack)
        invariant Remaining(stack) == old(Remaining(stack))
        decreases |stack|
      {
        if |stack| == 1 {
          stack := [];
          return None;
        }
        stack := stack[..|stack| - 1];
      }
      item := DownToLeaf();
    }

    /** The second half of `next`: from a frame not yet exhausted down to its next leaf. */
    method DownToLeaf() returns (item: Option<(Key, V)>)
      requires stack != [] && ValidStack(stack) && !stack[|stack| - 1].dir.Up?
      modifies this
      ensures ValidStack(stack)
      ensures item.Some? && old(Remaining(stack)) == [item.value] + Remaining(stack)
    {
      while true
        invariant stack != [] && ValidStack(stack) && !stack[|stack| - 1].dir.Up?
        invariant Remaining(stack) == old(Remaining(stack))
        decreases stack[|stack| - 1].node
      {
        var Frame(dir, node) := stack[|stack| - 1];
        if dir.Left? {
          match node {
            case Inner(_, left, _) =>
              RemainingDown(stack, Frame(Right, node), Frame(Left, left));
              stack := Rest(stack) + [Frame(Right, node)] + [Frame(Left, left)];
            case Leaf(key, value) =>
              RemainingLeaf(stack);
              stack := Rest(stack) + [Frame(Up, node)];
              return Some((key, value));
          }
        } else {
          assert ValidFrame(stack[|stack| - 1]);
          RemainingDown(stack, Frame(Up, node), Frame(Left, node.right));
          stack := Rest(stack) + [Frame(Up, node)] + [Frame(Left, node.right)];
        }
      }
    }
  }

  // ---- whole runs -----------------------------------------------------------

  /** The root after inserting the entries in order into an empty map. */
  function Built<V(==)>(entries: seq<(Key, V)>): Option<Node<V>> {
    if entries == [] then None
    else
      var last := entries[|entries| - 1];
      RootInserted(Built(entries[..|entries| - 1]), last.0, last.1)
  }

  function BuiltUncompressed<V>(entries: seq<(Key, V)>): Option<Node<V>> {
    if entries == [] then None
    else
      var last := entries[|entries| - 1];
      RootInsertedUncompressed(BuiltUncompressed(entries[..|entries| - 1]), last.0, last.1)
  }

  lemma {:induction false} InsertedRoot<V>(root: Option<Node<V>>, key: Key, value: V)
    requires ValidRoot(root) && IsKey(key)
    ensures ValidRoot(RootInserted(root, key, value))
    ensures CanonicalRoot(root) ==> CanonicalRoot(RootInserted(root, key, value))
    ensures forall a | IsAddress(a) ::
              RootLookup(RootInserted(root, key, value), a) == if key <= a then Some(value) else RootLookup(root, a)
  {
    if root.Some? {
      InsertedWf(root.value, key, value);
      forall a | IsAddress(a)
        ensures RootLookup(RootInserted(root, key, value), a) == if key <= a then Some(value) else RootLookup(root, a)
      {
        InsertedLookup(root.value, key, value, a);
      }
    }
  }

  lemma {:induction false} InsertedRootUncompressed<V>(root: Option<Node<V>>, key: Key, value: V)
    requires ValidRoot(root) && IsKey(key)
    ensures ValidRoot(RootInsertedUncompressed(root, key, value))
    ensures forall a | IsAddress(a) ::
              RootLookup(RootInsertedUncompressed(root, key, value), a)
              == if key <= a then Some(value) else RootLookup(root, a)
  {
    if root.Some? {
      UncompressedWf(root.value, key, value);
      forall a | IsAddress(a)
        ensures RootLookup(RootInsertedUncompressed(root, key, value), a)
             == if key <= a then Some(value) else RootLookup(root, a)
      {
        UncompressedLookup(root.value, key, value, a);
      }
    }
  }

  ghost predicate AllKeys<V>(entries: seq<(Key, V)>) {
    forall i | 0 <= i < |entries| :: IsKey(entries[i].0)
  }

  /** After any run, the most recently inserted prefix that covers the address wins. */
  lemma {:induction false} BuiltLookup<V>(entries: seq<(Key, V)>)
    requires AllKeys(entries)
    ensures CanonicalRoot(Built(entries))
    ensures forall a | IsAddress(a) :: RootLookup(Built(entries), a) == LastMatch(entries, a)
  {
    if entries != [] {
      var init, last := entries[..|entries| - 1], entries[|entries| - 1];
      BuiltLookup(init);
      InsertedRoot(Built(init), last.0, last.1);
    }
  }

  lemma {:induction false} BuiltUncompressedLookup<V>(entries: seq<(Key, V)>)
    requires AllKeys(entries)
    ensures ValidRoot(BuiltUncompressed(entries))
    ensures forall a | IsAddress(a) :: RootLookup(BuiltUncompressed(entries), a) == LastMatch(entries, a)
  {
    if entries != [] {
      var init, last := entries[..|entries| - 1], entries[|entries| - 1];
      BuiltUncompressedLookup(init);
      InsertedRootUncompressed(BuiltUncompressed(init), last.0, last.1);
    }
  }

  /** Both kinds of run answer every lookup alike, through the routed search. */
  lemma {:induction false} UncompressedAgrees<V>(entries: seq<(Key, V)>, a: Key, past: PastEnd)
    requires AllKeys(entries) && IsAddress(a) && entries != []
    ensures FindItem(Built(entries).value, a, past) == LastMatch(entries, a)
    ensures FindItem(BuiltUncompressed(entries).value, a, past) == LastMatch(entries, a)
  {
    BuiltLookup(entries);
    BuiltUncompressedLookup(entries);
    FindItemIsLookup(Built(entries).value, a, past);
    FindItemIsLookup(BuiltUncompressed(entries).value, a, past);
  }

  lemma {:induction false} CanonicalRootUnique<V>(m: Option<Node<V>>, n: Option<Node<V>>)
    requires CanonicalRoot(m) && CanonicalRoot(n)
    requires forall a | IsAddress(a) :: RootLookup(m, a) == RootLookup(n, a)
    ensures m == n
  {
    if m.Some? && n.Some? {
      assert SameLookup(m.value, n.value) by {
        forall a | IsAddress(a) ensures Lookup(m.value, a) == Lookup(n.value, a) {
          assert RootLookup(m, a) == RootLookup(n, a);
        }
      }
      CanonicalUnique(m.value, n.value);
    } else if m.Some? {
      var uncovered := RootLookup(n, Witness(m.value));
    } else if n.Some? {
      var uncovered := RootLookup(m, Witness(n.value));
    }
  }

  /** Two runs build the same tree exactly when they answer every address alike. */
  lemma {:induction false} SameTreeIffSameLookups<V>(xs: seq<(Key, V)>, ys: seq<(Key, V)>)
    requires AllKeys(xs) && AllKeys(ys)
    ensures Built(xs) == Built(ys) <==> forall a | IsAddress(a) :: LastMatch(xs, a) == LastMatch(ys, a)
  {
    BuiltLookup(xs);
    BuiltLookup(ys);
    if forall a | IsAddress(a) :: LastMatch(xs, a) == LastMatch(ys, a) {
      CanonicalRootUnique(Built(xs), Built(ys));
    }
  }

  /** Re-inserting what the iterator yields rebuilds any map that `insert` built. */
  lemma {:induction false} ListingRoundTrip<V>(entries: seq<(Key, V)>)
    requires AllKeys(entries)
    ensures Built(RootLeaves(Built(entries))) == Built(entries)
  {
    var root := Built(entries);
    BuiltLookup(entries);
    if root.Some? {
      var listing := Leaves(root.value);
      forall i | 0 <= i < |listing| ensures IsKey(listing[i].0) { LeavesExtendKey(root.value, i); }
      BuiltLookup(listing);
      forall a | IsAddress(a) ensures LastMatch(listing, a) == LastMatch(entries, a) {
        LeavesLookup(root.value, a);
        assert RootLookup(root, a) == LastMatch(entries, a);
      }
      SameTreeIffSameLookups(listing, entries);
    }
  }
}
