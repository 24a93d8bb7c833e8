/** From grouped MX hosts to the list of addresses to connect to. */
module MxPlan {
  import opened Common
  import opened Strings
  import opened Decimal
  import opened MxGroups

  const PORT_MAX: nat := 65535

  datatype Address = Address(ip: string, port: Option<nat>)

  datatype Resolved = Resolved(name: string, addr: Address, isSecure: bool)

  datatype Answer = Answer(addrs: seq<string>, secure: bool)

  /** What reading a name as an IP address, and looking it up, give. */
  datatype Net = Net(literal: string -> Option<string>, lookup: string -> Result<Answer, string>)

  datatype Ported = Ported(name: string, port: nat)

  /** `has_colon_port`: one colon, with a port number behind it. */
  function HasColonPort(host: string): Option<Ported> {
    var parts := Split(host, ':');
    if |parts| != 2 then None
    else
      match Parse(parts[1], PORT_MAX)
      case None => None
      case Some(port) => Some(Ported(parts[0], port))
  }

  function WithPort(host: string, port: Option<nat>): string {
    match port
    case None => host
    case Some(p) => host + ":" + Show(p)
  }

  lemma {:induction false} PortRoundTrip(host: string, port: nat)
    requires ':' !in host && port <= PORT_MAX
    ensures HasColonPort(WithPort(host, Some(port))) == Some(Ported(host, port))
  {
    var digits := Show(port);
    SplitPiece(digits, ':');
    SplitAppend(host, digits, ':');
    ParseShow(port, PORT_MAX);
  }

  // ---- flattening ----------------------------------------------------------------------------

  /** An entry of the ordered map from preferences to hosts. */
  datatype Level = Level(pref: nat, hosts: seq<string>)

  predicate AscendingLevels(levels: seq<Level>) {
    forall i, j | 0 <= i < j < |levels| :: levels[i].pref < levels[j].pref
  }

  /** Inserting into the ordered map; an entry with the same preference would be replaced. */
  function InsertLevel(levels: seq<Level>, level: Level): seq<Level> {
    if levels == [] then [level]
    else
      var init, last := levels[..|levels| - 1], levels[|levels| - 1];
      if last.pref < level.pref then levels + [level]
      else if last.pref == level.pref then init + [level]
      else InsertLevel(init, level) + [last]
  }

  function Ports(hosts: seq<string>, port: Option<nat>): (r: seq<string>)
    ensures |r| == |hosts| && forall i | 0 <= i < |hosts| :: r[i] == WithPort(hosts[i], port)
  {
    seq(|hosts|, i requires 0 <= i < |hosts| => WithPort(hosts[i], port))
  }

  function AllHosts(levels: seq<Level>): seq<string> {
    if levels == [] then [] else AllHosts(levels[..|levels| - 1]) + levels[|levels| - 1].hosts
  }

  /** The part of `resolve_impl` that adds the port and collects the hosts: no group is lost. */
  method Flatten(groups: seq<Group>, port: Option<nat>)
    returns (hosts: seq<string>, levels: seq<Level>, isSecure: bool, isMx: bool)
    requires Ascending(groups)
    ensures AscendingLevels(levels) && hosts == AllHosts(levels) && |levels| == |groups|
    ensures forall k | 0 <= k < |groups| :: levels[k] == Level(groups[k].pref, Ports(groups[k].hosts, port))
    ensures isSecure <==> forall g | g in groups :: g.isSecure
    ensures isMx <==> forall g | g in groups :: g.isMx
  {
    hosts, levels, isSecure, isMx := [], [], true, true;
    for k := 0 to |groups|
      invariant |levels| == k && hosts == AllHosts(levels)
      invariant forall i | 0 <= i < k :: levels[i] == Level(groups[i].pref, Ports(groups[i].hosts, port))
      invariant isSecure <==> forall i | 0 <= i < k :: groups[i].isSecure
      invariant isMx <==> forall i | 0 <= i < k :: groups[i].isMx
    {
      var ported := [];
      for h := 0 to |groups[k].hosts|
        invariant |ported| == h && forall i | 0 <= i < h :: ported[i] == WithPort(groups[k].hosts[i], port)
        invariant hosts == AllHosts(levels) + ported
      {
        var host := WithPort(groups[k].hosts[h], port);
        ported := ported + [host];
        hosts := hosts + [host];
      }
      assert ported == Ports(groups[k].hosts, port);
      levels := InsertLevel(levels, Level(groups[k].pref, ported));
      assert levels[..k + 1][..k] == levels[..k];
      isSecure := isSecure && groups[k].isSecure;
      isMx := isMx && groups[k].isMx;
    }
  }

  // ---- resolving ------------------------------------------------------------------------------

  /** What one host contributes: a literal address, the addresses found, or nothing. */
  function HostAddresses(net: Net, host: string): seq<Resolved> {
    var colon := HasColonPort(host);
    var name := if colon.Some? then colon.value.name else host;
    var port := if colon.Some? then Some(colon.value.port) else None;
    match net.literal(name)
    case Some(ip) => [Resolved(name, Address(ip, port), false)]
    case None =>
      match net.lookup(name)
      case Err(_) => []
      case Ok(answer) => Each(answer.addrs, name, port, answer.secure)
  }

  function Each(addrs: seq<string>, name: string, port: Option<nat>, secure: bool): seq<Resolved> {
    seq(|addrs|, i requires 0 <= i < |addrs| => Resolved(name, Address(addrs[i], port), secure))
  }

  function LevelAddresses(net: Net, hosts: seq<string>): seq<Resolved> {
    if hosts == [] then [] else LevelAddresses(net, hosts[..|hosts| - 1]) + HostAddresses(net, hosts[|hosts| - 1])
  }

  /** How the addresses of a preference are shuffled. */
  type Shuffle = (nat, seq<Resolved>) -> seq<Resolved>

  ghost predicate Permutes(shuffle: Shuffle) {
    forall pref, s :: multiset(shuffle(pref, s)) == multiset(s)
  }

  datatype Plan = NullMx | Addresses(list: seq<Resolved>)

  /** An address to try, with the preference of the host that it comes from. */
  datatype Visit = Visit(pref: nat, address: Resolved)

  function Tag(pref: nat, s: seq<Resolved>): (r: seq<Visit>)
    ensures |r| == |s| && forall i | 0 <= i < |s| :: r[i] == Visit(pref, s[i])
  {
    seq(|s|, i requires 0 <= i < |s| => Visit(pref, s[i]))
  }

  function Untag(visits: seq<Visit>): (r: seq<Resolved>)
    ensures |r| == |visits| && forall i | 0 <= i < |visits| :: r[i] == visits[i].address
  {
    seq(|visits|, i requires 0 <= i < |visits| => visits[i].address)
  }

  /** The list of `resolve_addresses`, highest preference value first. */
  function Visits(net: Net, shuffle: Shuffle, levels: seq<Level>): seq<Visit> {
    if levels == [] then []
    else
      Visits(net, shuffle, levels[1..])
      + Tag(levels[0].pref, shuffle(levels[0].pref, LevelAddresses(net, levels[0].hosts)))
  }

  predicate HasNull(levels: seq<Level>) {
    exists i :: 0 <= i < |levels| && "." in levels[i].hosts
  }

  method ResolveLevel(net: Net, hosts: seq<string>) returns (r: Option<seq<Resolved>>)
    ensures r == if "." in hosts then None else Some(LevelAddresses(net, hosts))
  {
    var byPref: seq<Resolved> := [];
    for h := 0 to |hosts|
      invariant byPref == LevelAddresses(net, hosts[..h]) && "." !in hosts[..h]
    {
      var host := hosts[h];
      if host == "." { return None; }
      byPref := AddHost(net, host, byPref);
      assert hosts[..h + 1][..h] == hosts[..h];
    }
    assert hosts[..|hosts|] == hosts;
    r := Some(byPref);
  }

  method AddHost(net: Net, host: string, before: seq<Resolved>) returns (byPref: seq<Resolved>)
    ensures byPref == before + HostAddresses(net, host)
  {
    byPref := before;
    var colon := HasColonPort(host);
    var name := if colon.Some? then colon.value.name else host;
    var port := if colon.Some? then Some(colon.value.port) else None;
    match net.literal(name) {
      case Some(ip) => byPref := byPref + [Resolved(name, Address(ip, port), false)];
      case None =>
        match net.lookup(name) {
          case Err(_) =>
          case Ok(answer) =>
            for i := 0 to |answer.addrs|
              invariant byPref == before + Each(answer.addrs[..i], name, port, answer.secure)
            {
              byPref := byPref + [Resolved(name, Address(answer.addrs[i], port), answer.secure)];
            }
            assert answer.addrs[..|answer.addrs|] == answer.addrs;
        }
    }
  }

  lemma {:induction false} VisitsNext(net: Net, shuffle: Shuffle, levels: seq<Level>, i: nat)
    requires i < |levels|
    ensures Untag(Visits(net, shuffle, levels[i..]))
         == Untag(Visits(net, shuffle, levels[i + 1..]))
            + shuffle(levels[i].pref, LevelAddresses(net, levels[i].hosts))
  {
    assert levels[i..][1..] == levels[i + 1..];
  }

  /** `resolve_addresses` */
  method ResolveAddresses(net: Net, shuffle: Shuffle, levels: seq<Level>) returns (plan: Plan)
    ensures plan == if HasNull(levels) then NullMx else Addresses(Untag(Visits(net, shuffle, levels)))
  {
    var result: seq<Resolved> := [];
    for i := |levels| downto 0
      invariant result == Untag(Visits(net, shuffle, levels[i..]))
      invariant forall k | i <= k < |levels| :: "." !in levels[k].hosts
    {
      var byPref := ResolveLevel(net, levels[i].hosts);
      if byPref.None? { return NullMx; }
      VisitsNext(net, shuffle, levels, i);
      result := result + shuffle(levels[i].pref, byPref.value);
    }
    assert levels[0..] == levels;
    plan := Addresses(result);
  }
}
