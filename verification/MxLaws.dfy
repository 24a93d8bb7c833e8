/** The connection plan as a whole: its order, and that nothing is lost or duplicated. */
module MxLaws {
  import opened Common
  import opened MxGroups
  import opened MxPlan

  // ---- order ------------------------------------------------------------------------------

  ghost predicate Descending(visits: seq<Visit>) {
    forall i, j | 0 <= i < j < |visits| :: visits[i].pref >= visits[j].pref
  }

  lemma {:induction false} VisitsAbove(net: Net, shuffle: Shuffle, levels: seq<Level>, low: nat)
    requires AscendingLevels(levels) && forall i | 0 <= i < |levels| :: low <= levels[i].pref
    ensures forall v | v in Visits(net, shuffle, levels) :: low <= v.pref
  {
    if levels != [] { VisitsAbove(net, shuffle, levels[1..], low); }
  }

  /** Popping from the end visits the preferences in non-decreasing order. */
  lemma {:induction false} PopOrder(net: Net, shuffle: Shuffle, levels: seq<Level>)
    requires AscendingLevels(levels)
    ensures Descending(Visits(net, shuffle, levels))
  {
    if levels != [] {
      PopOrder(net, shuffle, levels[1..]);
      VisitsAbove(net, shuffle, levels[1..], levels[0].pref);
    }
  }

  // ---- conservation -----------------------------------------------------------------------------

  /** Everything that some hosts of one preference contribute. */
  function HostTotal(net: Net, pref: nat, hosts: seq<string>): multiset<Visit> {
    if hosts == [] then multiset{}
    else
      HostTotal(net, pref, hosts[..|hosts| - 1])
      + multiset(Tag(pref, HostAddresses(net, hosts[|hosts| - 1])))
  }

  function LevelsTotal(net: Net, levels: seq<Level>): multiset<Visit> {
    if levels == [] then multiset{}
    else LevelsTotal(net, levels[1..]) + HostTotal(net, levels[0].pref, levels[0].hosts)
  }

  lemma {:induction false} TagCount(pref: nat, s: seq<Resolved>, v: Visit)
    ensures multiset(Tag(pref, s))[v] == if v.pref == pref then multiset(s)[v.address] else 0
  {
    if s != [] {
      var init, last := s[..|s| - 1], s[|s| - 1];
      assert s == init + [last] && Tag(pref, s) == Tag(pref, init) + [Visit(pref, last)];
      TagCount(pref, init, v);
    }
  }

  lemma {:induction false} TagPermuted(pref: nat, a: seq<Resolved>, b: seq<Resolved>)
    requires multiset(a) == multiset(b)
    ensures multiset(Tag(pref, a)) == multiset(Tag(pref, b))
  {
    forall v ensures multiset(Tag(pref, a))[v] == multiset(Tag(pref, b))[v] {
      TagCount(pref, a, v);
      TagCount(pref, b, v);
    }
  }

  lemma {:induction false} LevelTotal(net: Net, pref: nat, hosts: seq<string>)
    ensures multiset(Tag(pref, LevelAddresses(net, hosts))) == HostTotal(net, pref, hosts)
  {
    if hosts != [] {
      var init, last := hosts[..|hosts| - 1], hosts[|hosts| - 1];
      LevelTotal(net, pref, init);
      var a, b := LevelAddresses(net, init), HostAddresses(net, last);
      assert Tag(pref, a + b) == Tag(pref, a) + Tag(pref, b);
    }
  }

  lemma {:induction false} VisitsTotal(net: Net, shuffle: Shuffle, levels: seq<Level>)
    requires Permutes(shuffle)
    ensures multiset(Visits(net, shuffle, levels)) == LevelsTotal(net, levels)
  {
    if levels != [] {
      var pref, addresses := levels[0].pref, LevelAddresses(net, levels[0].hosts);
      VisitsTotal(net, shuffle, levels[1..]);
      TagPermuted(pref, shuffle(pref, addresses), addresses);
      LevelTotal(net, pref, levels[0].hosts);
    }
  }

  lemma {:induction false} HostTotalConcat(net: Net, pref: nat, a: seq<string>, b: seq<string>)
    ensures HostTotal(net, pref, a + b) == HostTotal(net, pref, a) + HostTotal(net, pref, b)
  {
    if b == [] {
      assert a + b == a;
    } else {
      assert (a + b)[..|a + b| - 1] == a + b[..|b| - 1];
      HostTotalConcat(net, pref, a, b[..|b| - 1]);
    }
  }

  lemma {:induction false} HostTotalOne(net: Net, pref: nat, host: string)
    ensures HostTotal(net, pref, [host]) == multiset(Tag(pref, HostAddresses(net, host)))
  {
    assert [host][..0] == [];
  }

  /** A permutation is still one when an element is taken out of both sides. */
  lemma {:induction false} TakeOut(a: seq<string>, b: seq<string>) returns (i: nat)
    requires a != [] && multiset(a) == multiset(b)
    ensures i < |b| && b[i] == a[|a| - 1] && multiset(a[..|a| - 1]) == multiset(b[..i] + b[i + 1..])
  {
    var init, last := a[..|a| - 1], a[|a| - 1];
    assert a == init + [last];
    assert last in multiset(b);
    i :| 0 <= i < |b| && b[i] == last;
    assert b == b[..i] + [last] + b[i + 1..];
    assert multiset(init) + multiset{last} == multiset(b[..i] + b[i + 1..]) + multiset{last};
    assert multiset(init) == multiset(init) + multiset{last} - multiset{last};
  }

  lemma {:induction false} HostTotalWithout(net: Net, pref: nat, hosts: seq<string>, i: nat)
    requires i < |hosts|
    ensures HostTotal(net, pref, hosts) ==
            HostTotal(net, pref, hosts[..i] + hosts[i + 1..]) + multiset(Tag(pref, HostAddresses(net, hosts[i])))
  {
    var low, x, high := hosts[..i], hosts[i], hosts[i + 1..];
    assert hosts == low + [x] + high;
    HostTotalConcat(net, pref, low, high);
    HostTotalConcat(net, pref, low + [x], high);
    HostTotalConcat(net, pref, low, [x]);
    HostTotalOne(net, pref, x);
  }

  lemma {:induction false} NoneOf(a: seq<string>)
    requires multiset(a) == multiset{}
    ensures a == []
  {
    assert |multiset(a)| == |a|;
  }

  /** The order of the hosts does not matter. */
  lemma {:induction false} HostTotalPermuted(net: Net, pref: nat, a: seq<string>, b: seq<string>)
    requires multiset(a) == multiset(b)
    ensures HostTotal(net, pref, a) == HostTotal(net, pref, b)
    decreases |a|
  {
    if a == [] {
      NoneOf(b);
    } else {
      var i := TakeOut(a, b);
      HostTotalPermuted(net, pref, a[..|a| - 1], b[..i] + b[i + 1..]);
      HostTotalWithout(net, pref, b, i);
    }
  }

  /** Everything that the MX records of an answer contribute. */
  function RecordTotal(net: Net, port: Option<nat>, records: seq<Record>): multiset<Visit> {
    if records == [] then multiset{}
    else
      var r := records[|records| - 1];
      RecordTotal(net, port, records[..|records| - 1])
      + if r.Mx? then multiset(Tag(r.pref, HostAddresses(net, WithPort(Host(r), port)))) else multiset{}
  }

  /** Everything that the hosts with one of the preferences contribute. */
  function PrefTotal(net: Net, port: Option<nat>, records: seq<Record>, groups: seq<Group>): multiset<Visit> {
    if groups == [] then multiset{}
    else
      PrefTotal(net, port, records, groups[1..])
      + HostTotal(net, groups[0].pref, Ports(HostsOf(records, groups[0].pref), port))
  }

  lemma {:induction false} OneRecord(net: Net, port: Option<nat>, records: seq<Record>, r: Record, pref: nat)
    requires r.Mx?
    ensures HostTotal(net, pref, Ports(HostsOf(records + [r], pref), port)) ==
            HostTotal(net, pref, Ports(HostsOf(records, pref), port))
            + if r.pref == pref then multiset(Tag(pref, HostAddresses(net, WithPort(Host(r), port)))) else multiset{}
  {
    assert (records + [r])[..|records|] == records;
    if r.pref == pref {
      var hosts := HostsOf(records, pref);
      assert Ports(hosts + [Host(r)], port) == Ports(hosts, port) + [WithPort(Host(r), port)];
      HostTotalConcat(net, pref, Ports(hosts, port), [WithPort(Host(r), port)]);
      HostTotalOne(net, pref, WithPort(Host(r), port));
    }
  }

  lemma {:induction false} PrefTotalMore(net: Net, port: Option<nat>, records: seq<Record>, r: Record,
                                         groups: seq<Group>)
    requires Ascending(groups) && r.Mx?
    ensures PrefTotal(net, port, records + [r], groups) ==
            PrefTotal(net, port, records, groups)
            + if HasPref(groups, r.pref) then multiset(Tag(r.pref, HostAddresses(net, WithPort(Host(r), port))))
              else multiset{}
  {
    if groups != [] {
      PrefTotalMore(net, port, records, r, groups[1..]);
      OneRecord(net, port, records, r, groups[0].pref);
      HasPrefFirst(groups, r.pref);
    }
  }

  lemma {:induction false} HasPrefFirst(groups: seq<Group>, pref: nat)
    requires groups != [] && Ascending(groups)
    ensures HasPref(groups, pref) <==> groups[0].pref == pref || HasPref(groups[1..], pref)
    ensures groups[0].pref == pref ==> !HasPref(groups[1..], pref)
  {
    if HasPref(groups, pref) && groups[0].pref != pref {
      var k :| 0 <= k < |groups| && groups[k].pref == pref;
      assert groups[1..][k - 1].pref == pref;
    }
  }

  lemma {:induction false} PrefTotalNone(net: Net, port: Option<nat>, groups: seq<Group>)
    ensures PrefTotal(net, port, [], groups) == multiset{}
  {
    if groups != [] {
      PrefTotalNone(net, port, groups[1..]);
      assert HostsOf([], groups[0].pref) == [] && Ports([], port) == [];
    }
  }

  /** As each preference has exactly one group, the groups together contribute what the records do. */
  lemma {:induction false} GroupsTotal(net: Net, port: Option<nat>, records: seq<Record>, groups: seq<Group>)
    requires Ascending(groups) && Covered(records, groups)
    ensures PrefTotal(net, port, records, groups) == RecordTotal(net, port, records)
  {
    if records == [] {
      PrefTotalNone(net, port, groups);
    } else {
      var init, r := records[..|records| - 1], records[|records| - 1];
      GroupsTotal(net, port, init, groups);
      RecordCounts(net, port, init, r, groups);
      assert records == init + [r];
    }
  }

  lemma {:induction false} RecordCounts(net: Net, port: Option<nat>, records: seq<Record>, r: Record,
                                        groups: seq<Group>)
    requires Ascending(groups) && (r.Mx? ==> HasPref(groups, r.pref))
    ensures PrefTotal(net, port, records + [r], groups) ==
            PrefTotal(net, port, records, groups)
            + if r.Mx? then multiset(Tag(r.pref, HostAddresses(net, WithPort(Host(r), port)))) else multiset{}
  {
    match r
    case Mx(_, _) => PrefTotalMore(net, port, records, r, groups);
    case Other => PrefTotalSkip(net, port, records, groups);
  }

  lemma {:induction false} PrefTotalSkip(net: Net, port: Option<nat>, records: seq<Record>, groups: seq<Group>)
    ensures PrefTotal(net, port, records + [Other], groups) == PrefTotal(net, port, records, groups)
  {
    if groups != [] {
      PrefTotalSkip(net, port, records, groups[1..]);
      assert (records + [Other])[..|records|] == records;
    }
  }

  /** The levels are the groups with the port added. */
  predicate LevelsOf(groups: seq<Group>, port: Option<nat>, levels: seq<Level>) {
    |levels| == |groups|
    && forall k | 0 <= k < |groups| :: levels[k] == Level(groups[k].pref, Ports(groups[k].hosts, port))
  }

  lemma {:induction false} PortsWithout(port: Option<nat>, hosts: seq<string>, i: nat)
    requires i < |hosts|
    ensures multiset(Ports(hosts, port)) ==
            multiset(Ports(hosts[..i] + hosts[i + 1..], port)) + multiset{WithPort(hosts[i], port)}
  {
    var low, high := hosts[..i], hosts[i + 1..];
    assert hosts == low + [hosts[i]] + high;
    PortsConcat(port, low + [hosts[i]], high);
    PortsConcat(port, low, [hosts[i]]);
    PortsConcat(port, low, high);
    assert Ports([hosts[i]], port) == [WithPort(hosts[i], port)];
  }

  lemma {:induction false} PortsConcat(port: Option<nat>, a: seq<string>, b: seq<string>)
    ensures Ports(a + b, port) == Ports(a, port) + Ports(b, port)
  {
  }

  lemma {:induction false} PortsPermuted(port: Option<nat>, a: seq<string>, b: seq<string>)
    requires multiset(a) == multiset(b)
    ensures multiset(Ports(a, port)) == multiset(Ports(b, port))
    decreases |a|
  {
    if a == [] {
      NoneOf(b);
    } else {
      var last := |a| - 1;
      var i := TakeOut(a, b);
      PortsPermuted(port, a[..last], b[..i] + b[i + 1..]);
      PortsWithout(port, b, i);
      PortsWithout(port, a, last);
      assert a[..last] + a[last + 1..] == a[..last];
    }
  }

  lemma {:induction false} ArrangedTotal(net: Net, port: Option<nat>, records: seq<Record>,
                                         groups: seq<Group>, levels: seq<Level>)
    requires LevelsOf(groups, port, levels) && forall g | g in groups :: ArrangedGroup(records, g)
    ensures LevelsTotal(net, levels) == PrefTotal(net, port, records, groups)
  {
    if groups != [] {
      var g := groups[0];
      assert g in groups;
      ArrangedTotal(net, port, records, groups[1..], levels[1..]);
      PortsPermuted(port, g.hosts, HostsOf(records, g.pref));
      HostTotalPermuted(net, g.pref, Ports(g.hosts, port), Ports(HostsOf(records, g.pref), port));
    }
  }

  /** Whatever the shuffles, the plan holds each address of each record's host exactly once. */
  lemma {:induction false} PlanConserves(net: Net, shuffle: Shuffle, port: Option<nat>, records: seq<Record>,
                                         groups: seq<Group>, levels: seq<Level>)
    requires Permutes(shuffle) && Arranged(records, groups) && LevelsOf(groups, port, levels)
    ensures multiset(Visits(net, shuffle, levels)) == RecordTotal(net, port, records)
  {
    VisitsTotal(net, shuffle, levels);
    ArrangedTotal(net, port, records, groups, levels);
    GroupsTotal(net, port, records, groups);
  }

  // ---- null MX ----------------------------------------------------------------------------------

  predicate HasNullRecord(records: seq<Record>) {
    exists i :: 0 <= i < |records| && records[i].Mx? && Host(records[i]) == "."
  }

  ghost predicate Listed(records: seq<Record>, pref: nat, host: string) {
    exists i :: 0 <= i < |records| && records[i].Mx? && records[i].pref == pref && Host(records[i]) == host
  }

  lemma {:induction false} ListedMore(records: seq<Record>, r: Record, pref: nat, host: string)
    ensures Listed(records + [r], pref, host)
            <==> Listed(records, pref, host) || (r.Mx? && r.pref == pref && Host(r) == host)
  {
    var all := records + [r];
    if Listed(records, pref, host) {
      var i :| 0 <= i < |records| && records[i].Mx? && records[i].pref == pref && Host(records[i]) == host;
      assert all[i] == records[i];
    }
    if r.Mx? && r.pref == pref && Host(r) == host { assert all[|records|] == r; }
    if Listed(all, pref, host) {
      var i :| 0 <= i < |all| && all[i].Mx? && all[i].pref == pref && Host(all[i]) == host;
      assert i < |records| ==> records[i] == all[i];
    }
  }

  lemma {:induction false} HostListed(records: seq<Record>, pref: nat, host: string)
    ensures host in HostsOf(records, pref) <==> Listed(records, pref, host)
  {
    if records != [] {
      var init, r := records[..|records| - 1], records[|records| - 1];
      HostListed(init, pref, host);
      ListedMore(init, r, pref, host);
      assert records == init + [r];
    }
  }

  /** A host with a port behind it is never the null MX, even if it was before. */
  lemma {:induction false} NullPort(host: string, port: Option<nat>)
    ensures WithPort(host, port) == "." <==> port.None? && host == "."
  {
    if port.Some? { assert WithPort(host, port)[|host|] == ':'; }
  }

  /** The plan is a null MX exactly when some record is one and no port was asked for. */
  lemma {:induction false} NullIff(port: Option<nat>, records: seq<Record>, groups: seq<Group>, levels: seq<Level>)
    requires Arranged(records, groups) && LevelsOf(groups, port, levels)
    ensures HasNull(levels) <==> port.None? && HasNullRecord(records)
  {
    if HasNull(levels) {
      var k :| 0 <= k < |levels| && "." in levels[k].hosts;
      NullLevel(port, groups[k].hosts);
      assert ArrangedGroup(records, groups[k]);
      NullGroup(records, groups[k]);
    }
    if port.None? && HasNullRecord(records) {
      var i :| 0 <= i < |records| && records[i].Mx? && Host(records[i]) == ".";
      assert HasPref(groups, records[i].pref);
      var k :| 0 <= k < |groups| && groups[k].pref == records[i].pref;
      assert ArrangedGroup(records, groups[k]) && Listed(records, groups[k].pref, ".");
      NullGroup(records, groups[k]);
      NullLevel(port, groups[k].hosts);
      assert "." in levels[k].hosts;
    }
  }

  lemma {:induction false} NullLevel(port: Option<nat>, hosts: seq<string>)
    ensures "." in Ports(hosts, port) <==> port.None? && "." in hosts
  {
    if "." in Ports(hosts, port) {
      var h :| 0 <= h < |hosts| && Ports(hosts, port)[h] == ".";
      NullPort(hosts[h], port);
    }
    if port.None? && "." in hosts {
      var h :| 0 <= h < |hosts| && hosts[h] == ".";
      assert Ports(hosts, port)[h] == ".";
    }
  }

  lemma {:induction false} NullGroup(records: seq<Record>, g: Group)
    requires ArrangedGroup(records, g)
    ensures "." in g.hosts <==> Listed(records, g.pref, ".")
  {
    HostListed(records, g.pref, ".");
    assert "." in g.hosts <==> "." in multiset(g.hosts);
  }

  /** A null MX with a port behind it reads `.:25`, and is looked up like any other host. */
  lemma {:induction false} NullHidden()
    ensures var records, groups := [Mx(0, ".")], [Group(0, ["."], false, true)];
            var levels := [Level(0, Ports(["."], Some(25)))];
            && HasNullRecord(records) && Arranged(records, groups) && LevelsOf(groups, Some(25), levels)
            && !HasNull(levels)
  {
    var records, groups := [Mx(0, ".")], [Group(0, ["."], false, true)];
    assert Host(records[0]) == "." && groups[0].pref == 0;
    assert records[..0] == [] && HostsOf(records, 0) == HostsOf(records[..0], 0) + ["."];
    assert HasPref(groups, 0);
    NullIff(Some(25), records, groups, [Level(0, Ports(["."], Some(25)))]);
  }

  // ---- end to end -------------------------------------------------------------------------------

  /** The list to pop from: sorted by preference, and holding what the records contribute. */
  ghost predicate Faithful(net: Net, port: Option<nat>, records: seq<Record>, list: seq<Resolved>) {
    exists visits :: list == Untag(visits) && Descending(visits) && multiset(visits) == RecordTotal(net, port, records)
  }

  /** From the answer of the resolver to the plan; without records the domain stands for itself. */
  method ConnectionPlan(net: Net, shuffle: Shuffle, domain: string, port: Option<nat>, records: seq<Record>,
                        nxdomain: bool, secure: bool)
    returns (result: Result<Plan, string>)
    requires Permutes(shuffle)
    ensures result.Err? <==> records == [] && nxdomain
    ensures result.Ok? ==> (result.value.NullMx? <==> port.None? && HasNullRecord(Effective(domain, records)))
    ensures result.Ok? && result.value.Addresses? ==>
              Faithful(net, port, Effective(domain, records), result.value.list)
  {
    var groups := LookupMx(domain, records, nxdomain, secure);
    if groups.Err? { return Err(groups.error); }
    var _, levels, _, _ := Flatten(groups.value, port);
    var plan := ResolveAddresses(net, shuffle, levels);
    ghost var all := Effective(domain, records);
    NullIff(port, all, groups.value, levels);
    PopOrder(net, shuffle, levels);
    PlanConserves(net, shuffle, port, all, groups.value, levels);
    result := Ok(plan);
  }
}
