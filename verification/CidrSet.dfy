/** `CidrSet`: a map to the unit value, used as a set of networks. */
module CidrSet {
  import opened Common
  import opened CidrKeys
  import opened CidrTrie
  import opened CidrCanonical
  import CidrMap

  ghost predicate Covers(keys: seq<Key>, a: Key) {
    exists k | k in keys :: k <= a
  }

  function Units(keys: seq<Key>): (entries: seq<(Key, Unit)>)
    ensures |entries| == |keys| && forall i | 0 <= i < |keys| :: entries[i] == (keys[i], Unit)
  {
    seq(|keys|, i requires 0 <= i < |keys| => (keys[i], Unit))
  }

  /** The tree of a set built by inserting the keys in order. */
  function SetRoot(keys: seq<Key>): Option<Node<Unit>> {
    CidrMap.Built(Units(keys))
  }

  lemma {:induction false} UnitMatch(entries: seq<(Key, Unit)>, a: Key)
    ensures LastMatch(entries, a) == None || LastMatch(entries, a) == Some(Unit)
    ensures LastMatch(entries, a).Some? <==> exists i :: 0 <= i < |entries| && entries[i].0 <= a
  {
    if entries != [] {
      var n := |entries| - 1;
      assert entries[n].1.Unit?;
      UnitMatch(entries[..n], a);
      if LastMatch(entries[..n], a).Some? {
        var i :| 0 <= i < n && entries[..n][i].0 <= a;
        assert entries[i].0 <= a;
      }
      if !(entries[n].0 <= a) {
        forall i | 0 <= i < |entries| && entries[i].0 <= a ensures LastMatch(entries, a).Some? {
          assert entries[..n][i].0 <= a;
        }
      }
    }
  }

  /** An address is in the set exactly when some inserted network covers it. */
  lemma {:induction false} ContainsIffCovered(keys: seq<Key>, a: Key)
    requires IsAddress(a) && forall k | k in keys :: IsKey(k)
    ensures CidrMap.RootLookup(SetRoot(keys), a).Some? <==> Covers(keys, a)
  {
    var entries := Units(keys);
    CidrMap.BuiltLookup(entries);
    UnitMatch(entries, a);
    forall k | k in keys && k <= a ensures exists i :: 0 <= i < |entries| && entries[i].0 <= a {
      var i :| 0 <= i < |keys| && keys[i] == k;
      assert entries[i].0 <= a;
    }
    if i :| 0 <= i < |entries| && entries[i].0 <= a { assert keys[i] in keys; }
  }

  /** The tree depends only on which addresses are covered: order and duplicates do not matter. */
  lemma {:induction false} OrderIrrelevant(xs: seq<Key>, ys: seq<Key>)
    requires forall k | k in xs + ys :: IsKey(k)
    ensures SetRoot(xs) == SetRoot(ys) <==> forall a | IsAddress(a) :: Covers(xs, a) <==> Covers(ys, a)
  {
    assert forall k | k in xs :: k in xs + ys;
    assert forall k | k in ys :: k in xs + ys;
    forall a | IsAddress(a)
      ensures LastMatch(Units(xs), a) == LastMatch(Units(ys), a) <==> (Covers(xs, a) <==> Covers(ys, a))
    {
      ContainsIffCovered(xs, a);
      ContainsIffCovered(ys, a);
      UnitMatch(Units(xs), a);
      UnitMatch(Units(ys), a);
      CidrMap.BuiltLookup(Units(xs));
      CidrMap.BuiltLookup(Units(ys));
    }
    CidrMap.SameTreeIffSameLookups(Units(xs), Units(ys));
  }

  class CidrSet {
    const cidrs: CidrMap.CidrMap<Unit>

    ghost predicate Holds(keys: seq<Key>) reads cidrs {
      && (forall k | k in keys :: IsKey(k))
      && cidrs.root == SetRoot(keys)
    }

    constructor ()
      ensures Holds([]) && fresh(cidrs)
    {
      cidrs := new CidrMap.CidrMap();
    }

    method Insert(key: Key, ghost keys: seq<Key>)
      requires Holds(keys) && IsKey(key)
      modifies cidrs
      ensures Holds(keys + [key])
    {
      CidrMap.BuiltLookup(Units(keys));
      cidrs.Insert(key, Unit);
      assert Units(keys + [key])[..|keys|] == Units(keys);
    }

    method Contains(ip: Key, past: PastEnd, ghost keys: seq<Key>) returns (b: bool)
      requires Holds(keys) && IsAddress(ip)
      ensures b <==> Covers(keys, ip)
    {
      CidrMap.BuiltLookup(Units(keys));
      ContainsIffCovered(keys, ip);
      var value := cidrs.GetPrefixMatch(ip, past);
      b := value.Some?;
    }
  }

  /** `TryFrom<Vec<&str>>`: every text that parses is inserted, and any that does not spoils the result. */
  method TryFromTexts(texts: seq<string>, parse: string -> Option<Key>) returns (r: Result<CidrSet, seq<string>>)
    requires forall t | t in texts && parse(t).Some? :: IsKey(parse(t).value)
    ensures r.Ok? <==> forall t | t in texts :: parse(t).Some?
    ensures r.Ok? ==> fresh(r.value) && r.value.Holds(seq(|texts|, i requires 0 <= i < |texts| =>
                                                          if parse(texts[i]).Some? then parse(texts[i]).value else []))
    ensures r.Err? ==> forall t :: t in r.error <==> t in texts && parse(t).None?
  {
    var result := new CidrSet();
    var problems: seq<string> := [];
    ghost var keys: seq<Key> := [];
    for i := 0 to |texts|
      invariant fresh(result) && fresh(result.cidrs) && result.Holds(keys)
      invariant forall t :: t in problems <==> t in texts[..i] && parse(t).None?
      invariant problems == [] ==> |keys| == i && forall j | 0 <= j < i :: parse(texts[j]) == Some(keys[j])
    {
      match parse(texts[i]) {
        case Some(cidr) =>
          result.Insert(cidr, keys);
          keys := keys + [cidr];
        case None => problems := problems + [texts[i]];
      }
    }
    assert texts[..|texts|] == texts;
    if problems == [] {
      assert keys == seq(|texts|, i requires 0 <= i < |texts| =>
                            if parse(texts[i]).Some? then parse(texts[i]).value else []);
      r := Ok(result);
    } else {
      assert problems[0] in problems;
      r := Err(problems);
    }
  }
}
