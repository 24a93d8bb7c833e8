/** Grouping and sorting the MX records of a domain. */
module MxGroups {
  import opened Common
  import opened Strings

  /** A record of the answer; anything but an MX record is passed over. */
  datatype Record = Mx(pref: nat, exchange: string) | Other

  /** Names are compared and looked up in lower case. */
  function Host(r: Record): string
    requires r.Mx?
  {
    Lower(r.exchange)
  }

  datatype Group = Group(pref: nat, hosts: seq<string>, isSecure: bool, isMx: bool)

  /** The hosts of one preference, in the order of the answer. */
  function HostsOf(records: seq<Record>, pref: nat): seq<string> {
    if records == [] then []
    else
      var init, r := HostsOf(records[..|records| - 1], pref), records[|records| - 1];
      if r.Mx? && r.pref == pref then init + [Host(r)] else init
  }

  predicate HasPref(groups: seq<Group>, pref: nat) {
    exists k :: 0 <= k < |groups| && groups[k].pref == pref
  }

  predicate DistinctPrefs(groups: seq<Group>) {
    forall i, j | 0 <= i < j < |groups| :: groups[i].pref != groups[j].pref
  }

  predicate Ascending(groups: seq<Group>) {
    forall i, j | 0 <= i < j < |groups| :: groups[i].pref < groups[j].pref
  }

  /** Every record's preference has a group. */
  predicate Covered(records: seq<Record>, groups: seq<Group>) {
    forall i | 0 <= i < |records| && records[i].Mx? :: HasPref(groups, records[i].pref)
  }

  predicate Grouped(records: seq<Record>, secure: bool, groups: seq<Group>) {
    forall k | 0 <= k < |groups| ::
      groups[k] == Group(groups[k].pref, HostsOf(records, groups[k].pref), secure, true) && groups[k].hosts != []
  }

  method FindPref(groups: seq<Group>, pref: nat) returns (found: Option<nat>)
    ensures found.None? ==> !HasPref(groups, pref)
    ensures found.Some? ==> found.value < |groups| && groups[found.value].pref == pref
  {
    for k := 0 to |groups|
      invariant forall i | 0 <= i < k :: groups[i].pref != pref
    {
      if groups[k].pref == pref { return Some(k); }
    }
    found := None;
  }

  /** The loop of `lookup_mx_record`: each preference ends up in exactly one group. */
  method GroupRecords(records: seq<Record>, secure: bool) returns (groups: seq<Group>)
    ensures DistinctPrefs(groups) && Covered(records, groups) && Grouped(records, secure, groups)
  {
    groups := [];
    for i := 0 to |records|
      invariant DistinctPrefs(groups) && Covered(records[..i], groups) && Grouped(records[..i], secure, groups)
    {
      ghost var before := groups;
      assert records[..i + 1][..i] == records[..i];
      match records[i] {
        case Mx(pref, exchange) =>
          var host := Lower(exchange);
          var found := FindPref(groups, pref);
          match found {
            case Some(k) => groups := groups[k := groups[k].(hosts := groups[k].hosts + [host])];
            case None =>
              NoHosts(records[..i], before, pref);
              groups := groups + [Group(pref, [host], secure, true)];
          }
          CoveredMore(records[..i], before, groups, records[i], if found.Some? then found.value else |before|);
        case Other =>
      }
    }
    assert records[..|records|] == records;
  }

  lemma {:induction false} CoveredMore(records: seq<Record>, before: seq<Group>, after: seq<Group>, r: Record, k: nat)
    requires Covered(records, before) && |before| <= |after| && r.Mx? && k < |after| && after[k].pref == r.pref
    requires forall i | 0 <= i < |before| :: after[i].pref == before[i].pref
    ensures Covered(records + [r], after)
  {
    forall i | 0 <= i < |records| && records[i].Mx? ensures HasPref(after, records[i].pref) {
      assert HasPref(before, records[i].pref);
      var g :| 0 <= g < |before| && before[g].pref == records[i].pref;
      assert after[g].pref == records[i].pref;
    }
  }

  lemma {:induction false} NoHosts(records: seq<Record>, groups: seq<Group>, pref: nat)
    requires Covered(records, groups) && !HasPref(groups, pref)
    ensures HostsOf(records, pref) == []
  {
    if records != [] {
      var n := |records| - 1;
      assert records[n].Mx? ==> HasPref(groups, records[n].pref);
      NoHosts(records[..n], groups, pref);
    }
  }

  // ---- sorting ----------------------------------------------------------------------------

  ghost predicate SortedHosts(hosts: seq<string>) {
    forall i, j | 0 <= i < j < |hosts| :: !Less(hosts[j], hosts[i])
  }

  function InsertHost(hosts: seq<string>, host: string): (r: seq<string>)
    ensures multiset(r) == multiset(hosts) + multiset{host}
  {
    if hosts == [] then [host]
    else
      var init, last := hosts[..|hosts| - 1], hosts[|hosts| - 1];
      assert hosts == init + [last];
      if Less(host, last) then InsertHost(init, host) + [last] else hosts + [host]
  }

  /** `hosts.sort()` */
  function SortHosts(hosts: seq<string>): (r: seq<string>)
    ensures multiset(r) == multiset(hosts)
  {
    if hosts == [] then []
    else
      assert hosts == hosts[..|hosts| - 1] + [hosts[|hosts| - 1]];
      InsertHost(SortHosts(hosts[..|hosts| - 1]), hosts[|hosts| - 1])
  }

  /** Not after in the byte order, so not after anything that comes later. */
  lemma {:induction false} NotLess(a: string, b: string, c: string)
    requires !Less(b, a) && !Less(c, b)
    ensures !Less(c, a)
  {
    LessTotal(a, b);
    LessTotal(b, c);
    if Less(c, a) {
      if a == b || b == c {
      } else {
        LessTransitive(a, b, c);
        LessTransitive(a, c, a);
        LessIrreflexive(a);
      }
    }
  }

  lemma {:induction false} InsertHostSorted(hosts: seq<string>, host: string)
    requires SortedHosts(hosts)
    ensures SortedHosts(InsertHost(hosts, host))
  {
    if hosts != [] {
      var n := |hosts| - 1;
      var init, last := hosts[..n], hosts[n];
      if Less(host, last) {
        InsertHostSorted(init, host);
        InsertedBelow(init, host, last);
      } else {
        forall i | 0 <= i < n ensures !Less(host, hosts[i]) { NotLess(hosts[i], last, host); }
      }
    }
  }

  lemma {:induction false} InsertedBelow(hosts: seq<string>, host: string, last: string)
    requires Less(host, last) && forall h | h in hosts :: !Less(last, h)
    ensures forall h | h in InsertHost(hosts, host) :: !Less(last, h)
  {
    var r := InsertHost(hosts, host);
    forall h | h in r ensures !Less(last, h) {
      assert h in multiset(r);
      if h == host && Less(last, h) {
        LessTransitive(host, last, host);
        LessIrreflexive(host);
      }
    }
  }

  lemma {:induction false} SortHostsSorted(hosts: seq<string>)
    ensures SortedHosts(SortHosts(hosts))
  {
    if hosts != [] {
      SortHostsSorted(hosts[..|hosts| - 1]);
      InsertHostSorted(SortHosts(hosts[..|hosts| - 1]), hosts[|hosts| - 1]);
    }
  }

  function InsertGroup(groups: seq<Group>, g: Group): (r: seq<Group>)
    ensures multiset(r) == multiset(groups) + multiset{g}
  {
    if groups == [] then [g]
    else
      var init, last := groups[..|groups| - 1], groups[|groups| - 1];
      assert groups == init + [last];
      if g.pref < last.pref then InsertGroup(init, g) + [last] else groups + [g]
  }

  /** `sort_unstable_by` on the preference; the preferences differ, so there is only one such order. */
  function SortGroups(groups: seq<Group>): (r: seq<Group>)
    ensures multiset(r) == multiset(groups)
  {
    if groups == [] then []
    else
      assert groups == groups[..|groups| - 1] + [groups[|groups| - 1]];
      InsertGroup(SortGroups(groups[..|groups| - 1]), groups[|groups| - 1])
  }

  lemma {:induction false} GroupsBelow(groups: seq<Group>, g: Group, pref: nat)
    requires g.pref < pref && forall x | x in groups :: x.pref < pref
    ensures forall x | x in InsertGroup(groups, g) :: x.pref < pref
  {
    forall x | x in InsertGroup(groups, g) ensures x.pref < pref {
      assert x in multiset(InsertGroup(groups, g));
      assert x == g || x in multiset(groups);
    }
  }

  lemma {:induction false} InsertGroupAscending(groups: seq<Group>, g: Group)
    requires Ascending(groups) && forall x | x in groups :: x.pref != g.pref
    ensures Ascending(InsertGroup(groups, g))
  {
    if groups != [] {
      var init, last := groups[..|groups| - 1], groups[|groups| - 1];
      if g.pref < last.pref {
        InsertGroupAscending(init, g);
        GroupsBelow(init, g, last.pref);
      } else {
        assert last in groups;
      }
    }
  }

  lemma {:induction false} SortGroupsAscending(groups: seq<Group>)
    requires DistinctPrefs(groups)
    ensures Ascending(SortGroups(groups))
  {
    if groups != [] {
      var init, g := groups[..|groups| - 1], groups[|groups| - 1];
      SortGroupsAscending(init);
      forall x | x in SortGroups(init) ensures x.pref != g.pref {
        assert x in multiset(SortGroups(init));
        var i :| 0 <= i < |init| && init[i] == x;
      }
      InsertGroupAscending(SortGroups(init), g);
    }
  }

  lemma {:induction false} SortGroupsKeeps(records: seq<Record>, secure: bool, groups: seq<Group>)
    requires Covered(records, groups) && Grouped(records, secure, groups)
    ensures Covered(records, SortGroups(groups)) && Grouped(records, secure, SortGroups(groups))
  {
    var sorted := SortGroups(groups);
    forall k | 0 <= k < |sorted|
      ensures sorted[k] == Group(sorted[k].pref, HostsOf(records, sorted[k].pref), secure, true)
      ensures sorted[k].hosts != []
    {
      assert sorted[k] in multiset(sorted);
      var i :| 0 <= i < |groups| && groups[i] == sorted[k];
    }
    forall i | 0 <= i < |records| && records[i].Mx? ensures HasPref(sorted, records[i].pref) {
      assert HasPref(groups, records[i].pref);
      var k :| 0 <= k < |groups| && groups[k].pref == records[i].pref;
      assert groups[k] in multiset(sorted);
      var m :| 0 <= m < |sorted| && sorted[m] == groups[k];
    }
  }

  // ---- the whole lookup -----------------------------------------------------------------------

  /** One group for each preference, in ascending order, each with its hosts in ascending order. */
  ghost predicate Arranged(records: seq<Record>, groups: seq<Group>) {
    && Ascending(groups) && Covered(records, groups)
    && forall k | 0 <= k < |groups| :: ArrangedGroup(records, groups[k])
  }

  ghost predicate ArrangedGroup(records: seq<Record>, g: Group) {
    g.hosts != [] && SortedHosts(g.hosts) && multiset(g.hosts) == multiset(HostsOf(records, g.pref))
  }

  predicate Flagged(groups: seq<Group>, secure: bool, isMx: bool) {
    forall k | 0 <= k < |groups| :: groups[k].isSecure == secure && groups[k].isMx == isMx
  }

  function WithSortedHosts(g: Group): Group {
    g.(hosts := SortHosts(g.hosts))
  }

  method SortEachGroup(records: seq<Record>, secure: bool, groups: seq<Group>) returns (sorted: seq<Group>)
    requires Ascending(groups) && Covered(records, groups) && Grouped(records, secure, groups)
    ensures Arranged(records, sorted) && Flagged(sorted, secure, true)
  {
    sorted := [];
    for k := 0 to |groups|
      invariant |sorted| == k && forall i | 0 <= i < k :: sorted[i] == WithSortedHosts(groups[i])
    {
      sorted := sorted + [WithSortedHosts(groups[k])];
    }
    AllArranged(records, secure, groups, sorted);
  }

  lemma {:induction false} AllArranged(records: seq<Record>, secure: bool, groups: seq<Group>, sorted: seq<Group>)
    requires Ascending(groups) && Covered(records, groups) && Grouped(records, secure, groups)
    requires |sorted| == |groups| && forall i | 0 <= i < |groups| :: sorted[i] == WithSortedHosts(groups[i])
    ensures Arranged(records, sorted) && Flagged(sorted, secure, true)
  {
    forall i | 0 <= i < |groups|
      ensures sorted[i].pref == groups[i].pref && ArrangedGroup(records, sorted[i])
      ensures sorted[i].isSecure == secure && sorted[i].isMx
    {
      SortedGroup(records, secure, groups[i]);
    }
    CoveredBy(records, groups, sorted);
  }

  lemma {:induction false} SortedGroup(records: seq<Record>, secure: bool, g: Group)
    requires g == Group(g.pref, HostsOf(records, g.pref), secure, true) && g.hosts != []
    ensures ArrangedGroup(records, WithSortedHosts(g))
  {
    SortHostsSorted(g.hosts);
    assert g.hosts[0] in multiset(SortHosts(g.hosts));
  }

  lemma {:induction false} CoveredBy(records: seq<Record>, before: seq<Group>, after: seq<Group>)
    requires Covered(records, before) && |before| == |after|
    requires forall i | 0 <= i < |before| :: after[i].pref == before[i].pref
    ensures Covered(records, after)
  {
    forall i | 0 <= i < |records| && records[i].Mx? ensures HasPref(after, records[i].pref) {
      assert HasPref(before, records[i].pref);
      var k :| 0 <= k < |before| && before[k].pref == records[i].pref;
      assert after[k].pref == records[i].pref;
    }
  }

  /** Without records, the domain is its own mail exchanger. */
  function Effective(domain: string, records: seq<Record>): seq<Record> {
    if records == [] then [Mx(1, domain)] else records
  }

  lemma {:induction false} ImplicitArranged(domain: string, secure: bool)
    ensures Arranged([Mx(1, domain)], [Group(1, [Lower(domain)], secure, false)])
  {
    var groups := [Group(1, [Lower(domain)], secure, false)];
    assert [Mx(1, domain)][..0] == [] && HostsOf([], 1) == [];
    assert groups[0].pref == 1 && HasPref(groups, 1);
  }

  /** `lookup_mx_record`, from the answer of the resolver on. */
  method LookupMx(domain: string, records: seq<Record>, nxdomain: bool, secure: bool)
    returns (result: Result<seq<Group>, string>)
    ensures result.Err? <==> records == [] && nxdomain
    ensures result.Ok? ==> Arranged(Effective(domain, records), result.value)
    ensures result.Ok? ==> Flagged(result.value, secure, records != [])
  {
    if records == [] {
      if nxdomain { return Err("NXDOMAIN"); }
      ImplicitArranged(domain, secure);
      return Ok([Group(1, [Lower(domain)], secure, false)]);
    }
    var groups := GroupRecords(records, secure);
    SortGroupsAscending(groups);
    SortGroupsKeeps(records, secure, groups);
    var sorted := SortEachGroup(records, secure, SortGroups(groups));
    result := Ok(sorted);
  }
}
