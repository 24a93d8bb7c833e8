/** The trie of domain labels. */
module DomainMap {
  import opened Common
  import opened Strings
  import opened DomainNames

  class Node<V> {
    var value: Option<V>
    const text: string
    var children: map<string, Node<V>>

    constructor (text: string)
      ensures this.text == text && value == None && children == map[]
    {
      this.text := text;
      value := None;
      children := map[];
    }
  }

  ghost function Parent(p: seq<string>): seq<string>
    requires p != []
  {
    p[..|p| - 1]
  }

  ghost function Last(p: seq<string>): string
    requires p != []
  {
    p[|p| - 1]
  }

  ghost function Child(p: seq<string>, l: string): (q: seq<string>)
    ensures q != [] && Parent(q) == p && Last(q) == l
  {
    p + [l]
  }

  /** Every node's children are the nodes one label further on. */
  ghost predicate Linked<V>(nodes: map<seq<string>, Node<V>>)
    reads nodes.Values
  {
    && (forall p, l | p in nodes && l in nodes[p].children :: Child(p, l) in nodes)
    && forall p {:trigger Parent(p)} | p in nodes && p != [] ::
      Parent(p) in nodes && Last(p) in nodes[Parent(p)].children && nodes[Parent(p)].children[Last(p)] == nodes[p]
  }

  ghost predicate Distinct<V>(nodes: map<seq<string>, Node<V>>) {
    forall p, q | p in nodes && q in nodes && p != q :: nodes[p] != nodes[q]
  }

  /** Only the children matter. */
  twostate lemma {:induction false} LinkedStays<V>(nodes: map<seq<string>, Node<V>>)
    requires old(Linked(nodes)) && forall p | p in nodes :: nodes[p].children == old(nodes[p].children)
    ensures Linked(nodes)
  {
  }

  lemma {:induction false} NotThere<V>(nodes: map<seq<string>, Node<V>>, path: seq<string>, seg: string)
    requires Linked(nodes) && path in nodes && seg !in nodes[path].children
    ensures Child(path, seg) !in nodes
  {
    assert Parent(Child(path, seg)) == path && Last(Child(path, seg)) == seg;
  }

  lemma {:induction false} DistinctAdd<V>(nodes: map<seq<string>, Node<V>>, path: seq<string>, child: Node<V>)
    requires Distinct(nodes) && forall p | p in nodes :: nodes[p] != child
    ensures Distinct(nodes[path := child])
  {
  }

  /** Nodes hold what the flat map holds for their names. */
  ghost predicate Holds<V>(nodes: map<seq<string>, Node<V>>, flat: map<string, V>)
    reads nodes.Values
  {
    forall p | p in nodes :: nodes[p].value == if p == [] then None else Find(flat, Name(p))
  }

  /** The nodes are the root and the prefixes of the patterns. */
  ghost predicate Covers<V>(keys: set<seq<string>>, flat: map<string, V>) {
    forall p :: p in keys <==> p == [] || Continues(flat, p)
  }

  /** A node has the child `l` exactly when some pattern continues with `l`. */
  lemma {:induction false} Follow<V>(nodes: map<seq<string>, Node<V>>, flat: map<string, V>, p: seq<string>, l: string)
    requires Linked(nodes) && Holds(nodes, flat) && Covers(nodes.Keys, flat) && p in nodes
    ensures l in nodes[p].children <==> Continues(flat, Child(p, l))
    ensures l in nodes[p].children ==>
              && Child(p, l) in nodes && nodes[Child(p, l)] == nodes[p].children[l]
              && nodes[p].children[l].value == Find(flat, Name(Child(p, l)))
  {
    assert Child(p, l) in nodes <==> Continues(flat, Child(p, l));
  }

  lemma {:induction false} FollowLabel<V>(nodes: map<seq<string>, Node<V>>, flat: map<string, V>, path: seq<string>,
                                          i: nat)
    requires Linked(nodes) && Holds(nodes, flat) && Covers(nodes.Keys, flat) && i < |path| && path[..i] in nodes
    ensures path[i] in nodes[path[..i]].children <==> path[..i + 1] in nodes
    ensures path[i] in nodes[path[..i]].children ==>
              && nodes[path[..i + 1]] == nodes[path[..i]].children[path[i]]
              && nodes[path[..i]].children[path[i]].value == Find(flat, Name(path[..i + 1]))
  {
    Extend(path, i);
    Follow(nodes, flat, path[..i], path[i]);
    assert path[..i + 1] in nodes <==> Continues(flat, path[..i + 1]);
  }

  /** If every label can be followed, only the name itself counts. */
  lemma {:induction false} GetAtEnd<V>(keys: set<seq<string>>, flat: map<string, V>, name: string)
    requires Covers(keys, flat) && Labels(name) in keys
    ensures Lookup(flat, name) == Find(flat, Name(Labels(name)))
  {
    assert Continues(flat, Labels(name));
    FullLookup(flat, name);
  }

  /** Where no label can be followed any more, only the wildcard there counts. */
  lemma {:induction false} GetStops<V>(keys: set<seq<string>>, flat: map<string, V>, name: string, i: nat)
    requires Covers(keys, flat) && i < |Labels(name)| && Labels(name)[..i] in keys && Labels(name)[..i + 1] !in keys
    ensures Lookup(flat, name) == Find(flat, Name(Labels(name)[..i] + ["*"])) && Dotless(Labels(name)[..i])
  {
    LabelsDotless(name);
    WildcardIff(flat, name, i);
  }

  class DomainMap<V> {
    /** A node without label and value whose children are the source's `top`. */
    const root: Node<V>
    ghost var nodes: map<seq<string>, Node<V>>
    ghost var flat: map<string, V>

    ghost predicate Valid()
      reads this, nodes.Values
    {
      && [] in nodes && nodes[[]] == root
      && Linked(nodes) && Distinct(nodes) && Holds(nodes, flat) && Covers(nodes.Keys, flat)
    }

    constructor ()
      ensures Valid() && flat == map[] && fresh(nodes.Values)
    {
      var node := new Node("");
      root := node;
      nodes := map[[] := node];
      flat := map[];
    }

    /** The wildcard among the children of the node at `path` */
    method Fallback(node: Node<V>, ghost path: seq<string>) returns (r: Option<V>)
      requires Valid() && Dotless(path) && path in nodes && nodes[path] == node
      ensures r == Find(flat, Name(path + ["*"]))
    {
      Follow(nodes, flat, path, "*");
      if "*" in node.children {
        r := node.children["*"].value;
      } else {
        NotHeld(flat, Child(path, "*"));
        r := None;
      }
    }

    /** `get`: follows the labels as far as there are nodes, then tries the wildcard there. */
    method Get(name: string) returns (r: Option<V>)
      requires Valid()
      ensures r == Lookup(flat, name)
    {
      var path := Labels(name);
      var node := root;
      var i := 0;
      while i < |path|
        invariant i < |path| && path[..i] in nodes && nodes[path[..i]] == node
      {
        var seg := path[i];
        FollowLabel(nodes, flat, path, i);
        if seg in node.children {
          node := node.children[seg];
          if i + 1 == |path| {
            assert path[..i + 1] == path;
            GetAtEnd(nodes.Keys, flat, name);
            return node.value;
          }
          i := i + 1;
        } else {
          GetStops(nodes.Keys, flat, name, i);
          r := Fallback(node, path[..i]);
          return;
        }
      }
      r := None;
    }

    /** A new node under the node at `path` */
    method AddChild(node: Node<V>, ghost path: seq<string>, seg: string) returns (child: Node<V>)
      requires Linked(nodes) && Distinct(nodes) && path in nodes && nodes[path] == node && seg !in node.children
      modifies this`nodes, node`children
      ensures Linked(nodes) && Distinct(nodes) && fresh(child) && child.value == None
      ensures Child(path, seg) !in old(nodes) && nodes == old(nodes)[Child(path, seg) := child]
    {
      NotThere(nodes, path, seg);
      child := new Node(seg);
      DistinctAdd(nodes, Child(path, seg), child);
      node.children := node.children[seg := child];
      nodes := nodes[Child(path, seg) := child];
      forall p {:trigger Parent(p)} | p in nodes && p != []
        ensures Parent(p) in nodes && Last(p) in nodes[Parent(p)].children
        ensures nodes[Parent(p)].children[Last(p)] == nodes[p]
      {
        ChildOf(p);
      }
    }

    /** `entry(seg).or_insert_with` on the children of the node at `path` */
    method Entry(node: Node<V>, ghost path: seq<string>, seg: string) returns (child: Node<V>)
      requires Linked(nodes) && Distinct(nodes) && path in nodes && nodes[path] == node
      modifies this`nodes, node`children
      ensures Linked(nodes) && Distinct(nodes) && Child(path, seg) in nodes && nodes[Child(path, seg)] == child
      ensures nodes.Keys == old(nodes.Keys) + {Child(path, seg)}
      ensures forall p | p in old(nodes) :: nodes[p] == old(nodes[p])
      ensures Child(path, seg) !in old(nodes) ==> fresh(child) && child.value == None
    {
      if seg in node.children {
        child := node.children[seg];
      } else {
        child := AddChild(node, path, seg);
      }
    }

    /** One step of `insert`, to the node of the next label. */
    method Step(node: Node<V>, seg: string, ghost path: seq<string>, ghost i: nat, ghost keys: set<seq<string>>)
      returns (child: Node<V>)
      requires i < |path| && seg == path[i] && Dotless(path)
      requires Linked(nodes) && Distinct(nodes) && Holds(nodes, flat) && Covers(keys, flat)
      requires Reached(nodes.Keys, keys, path[..i]) && path[..i] in nodes && nodes[path[..i]] == node
      modifies this`nodes, node`children
      ensures Linked(nodes) && Distinct(nodes) && Holds(nodes, flat)
      ensures Reached(nodes.Keys, keys, path[..i + 1]) && path[..i + 1] in nodes && nodes[path[..i + 1]] == child
      ensures forall p | p in old(nodes) :: p in nodes && nodes[p] == old(nodes[p])
      ensures forall p | p in nodes && p !in old(nodes) :: fresh(nodes[p])
    {
      NextStep(nodes.Keys, keys, flat, path, i);
      child := Entry(node, path[..i], seg);
      forall p | p in nodes ensures nodes[p].value == if p == [] then None else Find(flat, Name(p)) {
        if p in old(nodes) { assert nodes[p].value == old(nodes[p].value); }
      }
    }

    /** `insert`: makes the nodes on the way that are missing, then sets the value of the last. */
    method Insert(pattern: string, value: V)
      requires Valid()
      modifies this`nodes, this`flat, nodes.Values
      ensures Valid() && flat == old(flat)[pattern := value]
      ensures forall p | p in nodes :: nodes[p] in old(nodes.Values) || fresh(nodes[p])
    {
      var path := Labels(pattern);
      var node := root;
      var i := 0;
      while i < |path|
        invariant i <= |path| && path[..i] in nodes && nodes[path[..i]] == node
        invariant Linked(nodes) && Distinct(nodes) && Holds(nodes, flat)
        invariant [] in nodes && nodes[[]] == root && flat == old(flat)
        invariant Reached(nodes.Keys, old(nodes.Keys), path[..i])
        invariant forall p | p in nodes :: nodes[p] in old(nodes.Values) || fresh(nodes[p])
      {
        LabelsDotless(pattern);
        node := Step(node, path[i], path, i, old(nodes.Keys));
        i := i + 1;
      }
      assert path[..i] == path;
      SetValue(node, pattern, value, old(nodes.Keys));
    }

    /** Sets the value of one node. */
    method Write(node: Node<V>, ghost path: seq<string>, value: V)
      requires Linked(nodes) && Distinct(nodes) && path in nodes && nodes[path] == node
      modifies node`value
      ensures Linked(nodes)
      ensures forall p | p in nodes :: nodes[p].value == if p == path then Some(value) else old(nodes[p].value)
    {
      node.value := Some(value);
      LinkedStays(nodes);
    }

    method SetValue(node: Node<V>, pattern: string, value: V, ghost keys: set<seq<string>>)
      requires Linked(nodes) && Distinct(nodes) && Holds(nodes, flat) && [] in nodes && nodes[[]] == root
      requires Covers(keys, flat) && Reached(nodes.Keys, keys, Labels(pattern))
      requires Labels(pattern) in nodes && nodes[Labels(pattern)] == node
      modifies this`flat, node`value
      ensures Valid() && flat == old(flat)[pattern := value]
    {
      CoversInsert(nodes.Keys, keys, flat, pattern, value);
      Write(node, Labels(pattern), value);
      flat := flat[pattern := value];
      forall p | p in nodes && p != [] ensures nodes[p].value == Find(flat, Name(p)) {
        HeldAfter(nodes.Keys, old(flat), pattern, value, p);
      }
    }

    /** `walk`: adds the entries below the node at `path`, in the order in which the map yields its keys. */
    method Walk(node: Node<V>, ghost path: seq<string>, stack: seq<string>, before: map<string, V>)
      returns (result: map<string, V>)
      requires Valid() && path in nodes && nodes[path] == node && Dotless(path) && stack == Reversed(path)
      requires Agrees(before, flat)
      ensures Agrees(result, flat) && Gathered(before, result, flat, path, {})
      decreases Below(nodes.Keys, path), 1
    {
      result := before;
      var todo := node.children.Keys;
      NoneGathered(nodes, flat, path, before);
      while todo != {}
        invariant todo <= node.children.Keys && Agrees(result, flat) && Gathered(before, result, flat, path, todo)
        decreases todo
      {
        var seg :| seg in todo;
        ghost var sofar := result;
        result := WalkChild(node.children[seg], path, seg, [seg] + stack, result);
        GatherBranch(before, sofar, result, flat, path, todo, seg);
        todo := todo - {seg};
      }
    }

    /** The body of the loop in `walk`, with the key already on the stack. */
    method WalkChild(node: Node<V>, ghost path: seq<string>, seg: string, stack: seq<string>, before: map<string, V>)
      returns (result: map<string, V>)
      requires Valid() && path in nodes && seg in nodes[path].children && nodes[path].children[seg] == node
      requires Dotless(path) && stack == [seg] + Reversed(path) && Agrees(before, flat)
      ensures Agrees(result, flat) && GatheredAt(before, result, flat, Child(path, seg))
      decreases Below(nodes.Keys, path), 0
    {
      ghost var at := Child(path, seg);
      OnStack(nodes, flat, path, seg);
      result := before;
      match node.value {
        case Some(v) => result := result[Join(stack, ".") := v];
        case None =>
      }
      ghost var own := result;
      result := Walk(node, at, stack, result);
      GatherOwn(before, own, result, flat, at);
    }

    /** The conversion to a flat map */
    method ToMap() returns (result: map<string, V>)
      requires Valid()
      ensures result == flat
    {
      assert Reversed<string>([]) == [];
      result := Walk(root, [], [], map[]);
      AllGathered(result, flat);
    }
  }

  /** The paths that are in `keys` or lead to `path`. */
  ghost predicate Reached(reached: set<seq<string>>, keys: set<seq<string>>, path: seq<string>) {
    forall p :: p in reached <==> p in keys || p <= path
  }

  lemma {:induction false} PrefixNext(p: seq<string>, path: seq<string>, i: nat)
    requires i < |path|
    ensures p <= path[..i + 1] <==> p <= path[..i] || p == path[..i + 1]
  {
    assert path[..i] == path[..i + 1][..i];
    if p <= path[..i + 1] {
      if |p| <= i { assert p == path[..i][..|p|]; } else { assert p == path[..i + 1]; }
    }
  }

  lemma {:induction false} ReachedNext(reached: set<seq<string>>, keys: set<seq<string>>, path: seq<string>, i: nat)
    requires i < |path| && Reached(reached, keys, path[..i])
    ensures Reached(reached + {path[..i + 1]}, keys, path[..i + 1])
    ensures path[..i + 1] in reached <==> path[..i + 1] in keys
  {
    forall p ensures p in reached + {path[..i + 1]} <==> p in keys || p <= path[..i + 1] {
      PrefixNext(p, path, i);
    }
  }

  lemma {:induction false} NextStep<V>(reached: set<seq<string>>, keys: set<seq<string>>, flat: map<string, V>,
                                       path: seq<string>, i: nat)
    requires i < |path| && Dotless(path) && Covers(keys, flat) && Reached(reached, keys, path[..i])
    ensures path[..i + 1] == Child(path[..i], path[i])
    ensures Reached(reached + {path[..i + 1]}, keys, path[..i + 1])
    ensures path[..i + 1] !in reached ==> Find(flat, Name(path[..i + 1])) == None
  {
    ReachedNext(reached, keys, path, i);
    if path[..i + 1] !in reached { NotHeld(flat, path[..i + 1]); }
  }

  lemma {:induction false} FindInsert<V>(flat: map<string, V>, pattern: string, value: V, path: seq<string>)
    requires path != [] && Continues(flat[pattern := value], path)
    ensures Find(flat[pattern := value], Name(path)) ==
            if path == Labels(pattern) then Some(value) else Find(flat, Name(path))
  {
    if path == Labels(pattern) {
      NameLabels(pattern);
    } else {
      OtherName(flat[pattern := value], path, pattern);
    }
  }

  lemma {:induction false} HeldAfter<V>(keys: set<seq<string>>, flat: map<string, V>, pattern: string, value: V,
                                        p: seq<string>)
    requires Covers(keys, flat[pattern := value]) && p in keys && p != []
    ensures Find(flat[pattern := value], Name(p)) == if p == Labels(pattern) then Some(value) else Find(flat, Name(p))
  {
    FindInsert(flat, pattern, value, p);
  }

  lemma {:induction false} CoversInsert<V>(reached: set<seq<string>>, keys: set<seq<string>>, flat: map<string, V>,
                                           pattern: string, value: V)
    requires Covers(keys, flat) && Reached(reached, keys, Labels(pattern))
    ensures Covers(reached, flat[pattern := value])
  {
    forall p ensures p in reached <==> p == [] || Continues(flat[pattern := value], p) {
      ContinuesInsert(flat, pattern, value, p);
    }
  }

  lemma {:induction false} ChildOf(p: seq<string>)
    requires p != []
    ensures p == Child(Parent(p), Last(p))
  {
  }

  lemma {:induction false} Extend(path: seq<string>, i: nat)
    requires i < |path|
    ensures path[..i + 1] == Child(path[..i], path[i])
  {
  }

  lemma {:induction false} NotHeld<V>(flat: map<string, V>, path: seq<string>)
    requires path != [] && Dotless(path) && !Continues(flat, path)
    ensures Name(path) !in flat
  {
    LabelsName(path);
  }

  lemma {:induction false} OtherName<V>(flat: map<string, V>, path: seq<string>, pattern: string)
    requires path != [] && Continues(flat, path) && path != Labels(pattern)
    ensures Name(path) != pattern
  {
    var key :| key in flat && path <= Labels(key);
    LabelsDotless(key);
    assert forall i | 0 <= i < |path| :: path[i] == Labels(key)[i];
    LabelsName(path);
  }

  // ---- collecting the entries ---------------------------------------------------------------

  /** The paths at or below `path` */
  ghost function Below(keys: set<seq<string>>, path: seq<string>): set<seq<string>> {
    set p | p in keys && path <= p
  }

  ghost predicate Agrees<V>(m: map<string, V>, flat: map<string, V>) {
    forall key | key in m :: key in flat && m[key] == flat[key]
  }

  /** The key lies below `path`, in a branch that is not in `todo`. */
  ghost predicate Under(path: seq<string>, key: string, todo: set<string>) {
    |path| < |Labels(key)| && path <= Labels(key) && Labels(key)[|path|] !in todo
  }

  ghost predicate Gathered<V>(before: map<string, V>, after: map<string, V>, flat: map<string, V>, path: seq<string>,
                              todo: set<string>)
  {
    forall key :: key in after <==> key in before || (key in flat && Under(path, key, todo))
  }

  ghost predicate GatheredAt<V>(before: map<string, V>, after: map<string, V>, flat: map<string, V>,
                                path: seq<string>)
  {
    forall key :: key in after <==> key in before || (key in flat && path <= Labels(key))
  }

  lemma {:induction false} NextLabel(path: seq<string>, seg: string, longer: seq<string>)
    ensures Child(path, seg) <= longer <==> |path| < |longer| && path <= longer && longer[|path|] == seg
  {
    var at := Child(path, seg);
    if |path| < |longer| {
      assert at == longer[..|at|] <==> path == longer[..|path|] && seg == longer[|path|] by {
        assert longer[..|at|] == longer[..|path|] + [longer[|path|]];
        assert path == at[..|path|] && at[|path|] == seg;
      }
    }
  }

  lemma {:induction false} NoneGathered<V>(nodes: map<seq<string>, Node<V>>, flat: map<string, V>, path: seq<string>,
                                           before: map<string, V>)
    requires Linked(nodes) && Holds(nodes, flat) && Covers(nodes.Keys, flat) && path in nodes
    ensures Gathered(before, before, flat, path, nodes[path].children.Keys)
  {
    var todo := nodes[path].children.Keys;
    forall key | key in flat ensures !Under(path, key, todo) {
      if Under(path, key, {}) {
        var seg := Labels(key)[|path|];
        NextLabel(path, seg, Labels(key));
        Follow(nodes, flat, path, seg);
      }
    }
  }

  lemma {:induction false} GatherBranch<V>(before: map<string, V>, sofar: map<string, V>, after: map<string, V>,
                                           flat: map<string, V>, path: seq<string>, todo: set<string>, seg: string)
    requires Gathered(before, sofar, flat, path, todo) && GatheredAt(sofar, after, flat, Child(path, seg))
    ensures Gathered(before, after, flat, path, todo - {seg})
  {
    forall key
      ensures key in after <==> key in before || (key in flat && Under(path, key, todo - {seg}))
    {
      NextLabel(path, seg, Labels(key));
    }
  }

  lemma {:induction false} GatherOwn<V>(before: map<string, V>, own: map<string, V>, after: map<string, V>,
                                        flat: map<string, V>, at: seq<string>)
    requires at != [] && Dotless(at) && Gathered(own, after, flat, at, {})
    requires forall key :: key in own <==> key in before || (key in flat && key == Name(at))
    ensures GatheredAt(before, after, flat, at)
  {
    LabelsName(at);
    forall key ensures key in after <==> key in before || (key in flat && at <= Labels(key)) {
      NameLabels(key);
      if |at| == |Labels(key)| && at <= Labels(key) { assert at == Labels(key); }
    }
  }

  /** The name of a child, as the stack spells it. */
  lemma {:induction false} OnStack<V>(nodes: map<seq<string>, Node<V>>, flat: map<string, V>, path: seq<string>,
                                      seg: string)
    requires Linked(nodes) && Holds(nodes, flat) && Covers(nodes.Keys, flat) && path in nodes && Dotless(path)
    requires seg in nodes[path].children
    ensures var at := Child(path, seg);
            && at in nodes && nodes[at] == nodes[path].children[seg] && nodes[at].value == Find(flat, Name(at))
            && Dotless(at) && Reversed(at) == [seg] + Reversed(path) && Below(nodes.Keys, at) < Below(nodes.Keys, path)
  {
    var at := Child(path, seg);
    Follow(nodes, flat, path, seg);
    var key :| key in flat && at <= Labels(key);
    LabelsDotless(key);
    NextLabel(path, seg, Labels(key));
    BelowChild(nodes.Keys, path, seg);
  }

  lemma {:induction false} BelowChild(keys: set<seq<string>>, path: seq<string>, seg: string)
    requires path in keys
    ensures Below(keys, Child(path, seg)) < Below(keys, path)
  {
    var at := Child(path, seg);
    forall p | p in Below(keys, at) ensures p in Below(keys, path) { NextLabel(path, seg, p); }
    assert path in Below(keys, path) && path !in Below(keys, at);
  }

  lemma {:induction false} AllGathered<V>(result: map<string, V>, flat: map<string, V>)
    requires Agrees(result, flat) && Gathered(map[], result, flat, [], {})
    ensures result == flat
  {
    assert forall key | key in flat :: Under([], key, {});
  }

  /** The conversion from a flat map, in whatever order it yields its entries. */
  method FromMap<V>(m: map<string, V>) returns (result: DomainMap<V>)
    ensures result.Valid() && result.flat == m && fresh(result) && fresh(result.nodes.Values)
  {
    result := new DomainMap<V>();
    var todo := m.Keys;
    while todo != {}
      invariant result.Valid() && fresh(result) && fresh(result.nodes.Values)
      invariant todo <= m.Keys && Agrees(result.flat, m) && result.flat.Keys == m.Keys - todo
      decreases |todo|
    {
      var key :| key in todo;
      result.Insert(key, m[key]);
      todo := todo - {key};
    }
  }

  /** A map that is made into a trie comes back unchanged. */
  method MapRoundTrip<V>(m: map<string, V>) returns (r: map<string, V>)
    ensures r == m
  {
    var trie := FromMap(m);
    r := trie.ToMap();
  }

  /** A trie that is written out as a map and read back answers every lookup as before. */
  method TrieRoundTrip<V>(trie: DomainMap<V>, name: string) returns (r: Option<V>)
    requires trie.Valid()
    ensures r == Lookup(trie.flat, name)
  {
    var m := trie.ToMap();
    var again := FromMap(m);
    r := again.Get(name);
  }
}
