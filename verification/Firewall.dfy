/**
 The container firewall: networks compiled to an ordered nftables script, an
 interpreter for the script and for the chain it leaves, and what that chain
 decides.

 Source: tinfoil/internal/firewall/containers.go.
 */
module Firewall {
  import opened Ipv4Ranges
  import opened Names
  import opened Options
  import Sequences

  datatype Address = V4(bits: nat) | V6(bits: nat)
  datatype Tracked = New | Established | Untracked   // Established: or related

  datatype Packet = Packet(
    iif: string, oif: string, destination: Address, state: Tracked, dnat: bool, tcpPort: Option<nat>)

  datatype Match =
    | IifName(name: string)
    | OifName(name: string)
    | CtEstablished
    | CtNew
    | CtDnat
    | TcpDport(port: nat)
    | Daddr4In(ranges: seq<Prefix>)
    | Daddr4InSet(name: string)
    | Daddr6In(ranges: seq<Prefix>)
    | ProtoIs4
    | ProtoIs6

  datatype Verdict = Accept | Drop
  datatype Rule = Rule(matches: seq<Match>, verdict: Verdict)

  datatype Chain = ContainerInput | ContainerForward

  datatype Command =
    | FlushChain(chain: Chain)
    | AddRule(chain: Chain, rule: Rule)
    | DestroySet(name: string)
    | CreateSet(name: string)
    | FlushSet(name: string)
    | AddElements(name: string, addresses: seq<nat>)

  // A rule in its chain.
  datatype Placed = Placed(chain: Chain, rule: Rule)

  // The rules of the table's two container chains, in the order they were
  // added, and its sets of IPv4 addresses.
  datatype Ruleset = Ruleset(rules: seq<Placed>, sets: map<string, set<nat>>)

  const SHIM_NET := "shim-net"
  const ALLOW_SET_PREFIX := "allow-"
  const DOCKER_BRIDGE := "docker0"

  const NON_PUBLIC_IPV6: seq<Prefix> := [
    Prefix(0xfc00_0000_0000_0000_0000_0000_0000_0000, 7), Prefix(0xfe80_0000_0000_0000_0000_0000_0000_0000, 10),
    Prefix(0xff00_0000_0000_0000_0000_0000_0000_0000, 8), Prefix(0x0000_0000_0000_0000_0000_ffff_0000_0000, 96),
    Prefix(0x0064_ff9b_0000_0000_0000_0000_0000_0000, 96), Prefix(0x0100_0000_0000_0000_0000_0000_0000_0000, 64),
    Prefix(0x2001_0db8_0000_0000_0000_0000_0000_0000, 32), Prefix(1, 128)
  ]

  // ---------- nftables ----------

  predicate Mentions(rule: Rule, name: string) {
    Daddr4InSet(name) in rule.matches
  }

  predicate InUse(rules: seq<Placed>, name: string) {
    exists i :: 0 <= i < |rules| && Mentions(rules[i].rule, name)
  }

  predicate SetsExist(rule: Rule, sets: map<string, set<nat>>) {
    forall m :: m in rule.matches && m.Daddr4InSet? ==> m.name in sets
  }

  function ChainOf(rules: seq<Placed>, chain: Chain): seq<Rule> {
    if rules == [] then []
    else (if rules[0].chain == chain then [rules[0].rule] else []) + ChainOf(rules[1..], chain)
  }

  function WithoutChain(rules: seq<Placed>, chain: Chain): seq<Placed> {
    if rules == [] then []
    else (if rules[0].chain == chain then [] else [rules[0]]) + WithoutChain(rules[1..], chain)
  }

  function AsSet(addresses: seq<nat>): set<nat> { set a | a in addresses }

  /** One command; None when nft refuses it. */
  function Apply(state: Ruleset, command: Command): Option<Ruleset> {
    match command
    case FlushChain(chain) => Some(state.(rules := WithoutChain(state.rules, chain)))
    case AddRule(chain, rule) =>
      if SetsExist(rule, state.sets) then Some(state.(rules := state.rules + [Placed(chain, rule)])) else None
    case DestroySet(name) =>
      if InUse(state.rules, name) then None else Some(state.(sets := state.sets - {name}))
    case CreateSet(name) =>
      if name in state.sets then None else Some(state.(sets := state.sets[name := {}]))
    case FlushSet(name) =>
      if name !in state.sets then None else Some(state.(sets := state.sets[name := {}]))
    case AddElements(name, addresses) =>
      if name !in state.sets then None
      else Some(state.(sets := state.sets[name := state.sets[name] + AsSet(addresses)]))
  }

  function RunScript(state: Ruleset, script: seq<Command>): Option<Ruleset>
    decreases |script|
  {
    if script == [] then Some(state)
    else
      var next := Apply(state, script[0]);
      if next.None? then None else RunScript(next.value, script[1..])
  }

  /** nft -f: all of the script or nothing. */
  function Transaction(state: Ruleset, script: seq<Command>): Ruleset {
    var next := RunScript(state, script);
    if next.None? then state else next.value
  }

  predicate Matches(m: Match, sets: map<string, set<nat>>, packet: Packet) {
    match m
    case IifName(name) => packet.iif == name
    case OifName(name) => packet.oif == name
    case CtEstablished => packet.state == Established
    case CtNew => packet.state == New
    case CtDnat => packet.dnat
    case TcpDport(port) => packet.tcpPort == Some(port)
    case Daddr4In(ranges) => packet.destination.V4? && InAny(ranges, 32, packet.destination.bits)
    case Daddr4InSet(name) => packet.destination.V4? && name in sets && packet.destination.bits in sets[name]
    case Daddr6In(ranges) => packet.destination.V6? && InAny(ranges, 128, packet.destination.bits)
    case ProtoIs4 => packet.destination.V4?
    case ProtoIs6 => packet.destination.V6?
  }

  predicate RuleMatches(rule: Rule, sets: map<string, set<nat>>, packet: Packet) {
    forall m :: m in rule.matches ==> Matches(m, sets, packet)
  }

  /** The first matching rule decides; None leaves the packet to the base chain. */
  function Decide(rules: seq<Rule>, sets: map<string, set<nat>>, packet: Packet): Option<Verdict> {
    if rules == [] then None
    else if RuleMatches(rules[0], sets, packet) then Some(rules[0].verdict)
    else Decide(rules[1..], sets, packet)
  }

  // ---------- The compiler ----------

  // debugPort: the reserved debug host port, when debug rules are wanted.
  datatype Config = Config(networks: map<string, string>, debugPort: Option<nat>, shimUpstream: bool)

  function AllowSet(bridge: string): string { ALLOW_SET_PREFIX + bridge }

  function Forward(matches: seq<Match>, verdict: Verdict): Command {
    AddRule(ContainerForward, Rule(matches, verdict))
  }

  function DebugCommands(port: nat): seq<Command> {
    [ Forward([OifName(DOCKER_BRIDGE), CtDnat, TcpDport(port)], Accept),
      Forward([IifName(DOCKER_BRIDGE), CtEstablished], Accept) ]
  }

  function EgressCommands(bridge: string, egress: string): seq<Command> {
    if egress == "open" then
      [ Forward([IifName(bridge), Daddr4In(NFT_RANGES)], Drop),
        Forward([IifName(bridge), ProtoIs4], Accept),
        Forward([IifName(bridge), Daddr6In(NON_PUBLIC_IPV6)], Drop),
        Forward([IifName(bridge), ProtoIs6], Accept) ]
    else if egress == "allowlist" then
      [ DestroySet(AllowSet(bridge)),
        CreateSet(AllowSet(bridge)),
        Forward([IifName(bridge), Daddr4InSet(AllowSet(bridge))], Accept),
        Forward([IifName(bridge), Daddr4In(NFT_RANGES)], Drop),
        Forward([IifName(bridge), Daddr6In(NON_PUBLIC_IPV6)], Drop) ]
    else []
  }

  function BridgeCommands(bridge: string, egress: string): seq<Command> {
    [ Forward([IifName(bridge), OifName(bridge)], Accept),
      Forward([OifName(bridge), CtEstablished], Accept),
      AddRule(ContainerInput, Rule([IifName(bridge), CtNew], Drop)) ]
    + EgressCommands(bridge, egress)
  }

  function NetworkCommands(names: seq<string>, networks: map<string, string>): seq<Command>
    requires forall name :: name in names ==> name in networks
  {
    if names == [] then []
    else
      var last := names[|names| - 1];
      NetworkCommands(names[..|names| - 1], networks) + BridgeCommands(last, networks[last])
  }

  function Prologue(config: Config): seq<Command> {
    [FlushChain(ContainerInput), FlushChain(ContainerForward)]
    + (if config.debugPort.Some? then DebugCommands(config.debugPort.value) else [])
    + [Forward([CtDnat], Drop)]
  }

  function Epilogue(config: Config): seq<Command> {
    if config.shimUpstream then BridgeCommands(SHIM_NET, "closed") else []
  }

  /** The script for one order of the networks. */
  function Script(config: Config, names: seq<string>): seq<Command>
    requires forall name :: name in names ==> name in config.networks
  {
    Prologue(config) + NetworkCommands(names, config.networks) + Epilogue(config)
  }

  ghost predicate Lists(names: seq<string>, networks: map<string, string>) {
    && (forall name :: name in names <==> name in networks)
    && Distinct(names)
  }

  /** There is one rendering: the ascending listing, and so the script, is unique. */
  lemma OneRendering(config: Config, names: seq<string>, other: seq<string>)
    requires Lists(names, config.networks) && Ascending(names)
    requires Lists(other, config.networks) && Ascending(other)
    ensures Script(config, names) == Script(config, other)
  {
    SortedIsUnique(names, other);
  }

  method WriteBridgeRules(before: seq<Command>, bridge: string, egress: string) returns (script: seq<Command>)
    ensures script == before + BridgeCommands(bridge, egress)
  {
    script := before + [Forward([IifName(bridge), OifName(bridge)], Accept)];
    script := script + [Forward([OifName(bridge), CtEstablished], Accept)];
    script := script + [AddRule(ContainerInput, Rule([IifName(bridge), CtNew], Drop))];
    if egress == "open" {
      script := script + [Forward([IifName(bridge), Daddr4In(NFT_RANGES)], Drop)];
      script := script + [Forward([IifName(bridge), ProtoIs4], Accept)];
      script := script + [Forward([IifName(bridge), Daddr6In(NON_PUBLIC_IPV6)], Drop)];
      script := script + [Forward([IifName(bridge), ProtoIs6], Accept)];
    } else if egress == "allowlist" {
      var name := ALLOW_SET_PREFIX + bridge;
      script := script + [DestroySet(name)];
      script := script + [CreateSet(name)];
      script := script + [Forward([IifName(bridge), Daddr4InSet(name)], Accept)];
      script := script + [Forward([IifName(bridge), Daddr4In(NFT_RANGES)], Drop)];
      script := script + [Forward([IifName(bridge), Daddr6In(NON_PUBLIC_IPV6)], Drop)];
    }
  }

  // The keys of the map, each once, in whatever order iteration gives.
  method NetworkNames(networks: map<string, string>) returns (names: seq<string>)
    ensures Lists(names, networks)
  {
    names := [];
    var unvisited := networks.Keys;
    while unvisited != {}
      invariant forall name :: name in networks <==> (name in names || name in unvisited)
      invariant forall name :: !(name in names && name in unvisited)
      invariant forall i, j :: 0 <= i < j < |names| ==> names[i] != names[j]
      decreases unvisited
    {
      var name :| name in unvisited;
      unvisited := unvisited - {name};
      names := names + [name];
    }
  }

  method WritePrologue(config: Config) returns (script: seq<Command>)
    ensures script == Prologue(config)
  {
    script := [FlushChain(ContainerInput)];
    script := script + [FlushChain(ContainerForward)];
    if config.debugPort.Some? {
      script := script + [Forward([OifName(DOCKER_BRIDGE), CtDnat, TcpDport(config.debugPort.value)], Accept)];
      script := script + [Forward([IifName(DOCKER_BRIDGE), CtEstablished], Accept)];
    }
    script := script + [Forward([CtDnat], Drop)];
  }

  method WriteNetworks(before: seq<Command>, names: seq<string>, networks: map<string, string>) returns (script: seq<Command>)
    requires forall name :: name in names ==> name in networks
    ensures script == before + NetworkCommands(names, networks)
  {
    script := before;
    for i := 0 to |names|
      invariant script == before + NetworkCommands(names[..i], networks)
    {
      script := WriteBridgeRules(script, names[i], networks[names[i]]);
      NetworkCommandsGrow(names, i, networks);
      Sequences.ConcatIsAssociative(before, NetworkCommands(names[..i], networks), BridgeCommands(names[i], networks[names[i]]));
    }
    assert names[..|names|] == names;
  }

  // sort.Strings.
  method SortNames(names: seq<string>, ghost networks: map<string, string>) returns (sorted: seq<string>)
    requires Lists(names, networks)
    ensures Lists(sorted, networks) && Ascending(sorted)
  {
    SortedSorts(names);
    sorted := Sorted(names);
  }

  /** renderContainerNetworkScript. The map gives its keys in any order; `names` is
      the one ascending listing of them. */
  method RenderContainerNetworkScript(config: Config) returns (script: seq<Command>, names: seq<string>)
    ensures Lists(names, config.networks) && Ascending(names)
    ensures script == Script(config, names)
  {
    names := NetworkNames(config.networks);
    names := SortNames(names, config.networks);
    script := WritePrologue(config);
    script := WriteNetworks(script, names, config.networks);
    if config.shimUpstream {
      script := WriteBridgeRules(script, SHIM_NET, "closed");
    }
  }

  lemma NetworkCommandsGrow(names: seq<string>, i: nat, networks: map<string, string>)
    requires i < |names| && forall name :: name in names ==> name in networks
    ensures NetworkCommands(names[..i + 1], networks)
         == NetworkCommands(names[..i], networks) + BridgeCommands(names[i], networks[names[i]])
  {
    assert names[..i + 1][..i] == names[..i];
  }

  // ---------- What a script leaves ----------

  // The rules a script adds, in order.
  function Added(script: seq<Command>): seq<Placed> {
    if script == [] then []
    else (if script[0].AddRule? then [Placed(script[0].chain, script[0].rule)] else []) + Added(script[1..])
  }

  lemma {:induction false} AddedConcat(a: seq<Command>, b: seq<Command>)
    ensures Added(a + b) == Added(a) + Added(b)
  {
    if a == [] {
      assert a + b == b;
    } else {
      assert (a + b)[1..] == a[1..] + b;
      AddedConcat(a[1..], b);
    }
  }

  ghost predicate RunsTo(before: Ruleset, script: seq<Command>, after: Ruleset) {
    RunScript(before, script) == Some(after)
  }

  lemma {:induction false} RunsInTurn(before: Ruleset, a: seq<Command>, between: Ruleset, b: seq<Command>, after: Ruleset)
    requires RunsTo(before, a, between) && RunsTo(between, b, after)
    ensures RunsTo(before, a + b, after)
    decreases |a|
  {
    if a == [] {
      assert a + b == b;
    } else {
      assert (a + b)[1..] == a[1..] + b;
      RunsInTurn(Apply(before, a[0]).value, a[1..], between, b, after);
    }
  }

  lemma RunsOne(before: Ruleset, command: Command)
    requires Apply(before, command).Some?
    ensures RunsTo(before, [command], Apply(before, command).value)
  {
    assert [command][1..] == [];
  }

  ghost predicate OnlyAdds(script: seq<Command>, sets: map<string, set<nat>>) {
    forall c :: c in script ==> c.AddRule? && SetsExist(c.rule, sets)
  }

  lemma {:induction false} AddsEffect(before: Ruleset, script: seq<Command>)
    requires OnlyAdds(script, before.sets)
    ensures RunsTo(before, script, before.(rules := before.rules + Added(script)))
    decreases |script|
  {
    if script == [] {
      assert before.rules + [] == before.rules;
    } else {
      var rule := Placed(script[0].chain, script[0].rule);
      var next := before.(rules := before.rules + [rule]);
      assert script[0] in script && Apply(before, script[0]) == Some(next);
      assert Added(script) == [rule] + Added(script[1..]);
      AddsEffect(next, script[1..]);
      Sequences.ConcatIsAssociative(before.rules, [rule], Added(script[1..]));
    }
  }

  // No rule of the list looks at a set.
  ghost predicate SetFree(rules: seq<Placed>) {
    forall name :: !InUse(rules, name)
  }

  // Every set the list looks at is the allow set of one of the bridges.
  ghost predicate SetsOf(rules: seq<Placed>, bridges: seq<string>) {
    forall name :: InUse(rules, name) ==> exists i :: 0 <= i < |bridges| && name == AllowSet(bridges[i])
  }

  lemma AllowSetInjective(a: string, b: string)
    requires AllowSet(a) == AllowSet(b)
    ensures a == b
  {
    assert a == AllowSet(a)[|ALLOW_SET_PREFIX|..];
    assert b == AllowSet(b)[|ALLOW_SET_PREFIX|..];
  }

  lemma InUseConcat(a: seq<Placed>, b: seq<Placed>, name: string)
    ensures InUse(a + b, name) <==> InUse(a, name) || InUse(b, name)
  {
    var c := a + b;
    if InUse(a, name) {
      var i :| 0 <= i < |a| && Mentions(a[i].rule, name);
      assert Mentions(c[i].rule, name);
    }
    if InUse(b, name) {
      var i :| 0 <= i < |b| && Mentions(b[i].rule, name);
      assert Mentions(c[|a| + i].rule, name);
    }
  }

  // The commands every bridge gets, whatever its egress mode.
  function BridgeHead(bridge: string): seq<Command> {
    [ Forward([IifName(bridge), OifName(bridge)], Accept),
      Forward([OifName(bridge), CtEstablished], Accept),
      AddRule(ContainerInput, Rule([IifName(bridge), CtNew], Drop)) ]
  }

  function Recreate(name: string): seq<Command> { [DestroySet(name)] + [CreateSet(name)] }

  function AllowRules(bridge: string): seq<Command> {
    [ Forward([IifName(bridge), Daddr4InSet(AllowSet(bridge))], Accept),
      Forward([IifName(bridge), Daddr4In(NFT_RANGES)], Drop),
      Forward([IifName(bridge), Daddr6In(NON_PUBLIC_IPV6)], Drop) ]
  }

  lemma {:induction false} AddedUses(script: seq<Command>, name: string)
    requires InUse(Added(script), name)
    ensures exists c :: c in script && c.AddRule? && Mentions(c.rule, name)
  {
    var rest := Added(script[1..]);
    if !(script[0].AddRule? && Mentions(script[0].rule, name)) {
      var first := if script[0].AddRule? then [Placed(script[0].chain, script[0].rule)] else [];
      InUseConcat(first, rest, name);
      AddedUses(script[1..], name);
    }
  }

  lemma HeadUsesNoSet(bridge: string)
    ensures SetFree(Added(BridgeHead(bridge)))
  {
    forall name | InUse(Added(BridgeHead(bridge)), name)
      ensures false
    {
      AddedUses(BridgeHead(bridge), name);
    }
  }

  lemma BridgeUsesOwnSet(bridge: string, egress: string, name: string)
    requires InUse(Added(BridgeCommands(bridge, egress)), name)
    ensures name == AllowSet(bridge)
  {
    AddedUses(BridgeCommands(bridge, egress), name);
  }

  function SetsAfter(bridge: string, egress: string, sets: map<string, set<nat>>): map<string, set<nat>> {
    if egress == "allowlist" then sets[AllowSet(bridge) := {}] else sets
  }

  // A set that no rule looks at is replaced by an empty one.
  lemma RecreateEffect(before: Ruleset, name: string)
    requires !InUse(before.rules, name)
    ensures RunsTo(before, Recreate(name), before.(sets := before.sets[name := {}]))
  {
    var destroyed := before.(sets := before.sets - {name});
    RunsOne(before, DestroySet(name));
    RunsOne(destroyed, CreateSet(name));
    assert destroyed.sets[name := {}] == before.sets[name := {}];
    RunsInTurn(before, [DestroySet(name)], destroyed, [CreateSet(name)], destroyed.(sets := destroyed.sets[name := {}]));
  }

  lemma AllowlistAdds(bridge: string)
    ensures BridgeCommands(bridge, "allowlist") == BridgeHead(bridge) + Recreate(AllowSet(bridge)) + AllowRules(bridge)
    ensures Added(BridgeCommands(bridge, "allowlist")) == Added(BridgeHead(bridge)) + Added(AllowRules(bridge))
  {
    var head, recreate, allow := BridgeHead(bridge), Recreate(AllowSet(bridge)), AllowRules(bridge);
    AddedConcat(head + recreate, allow);
    AddedConcat(head, recreate);
    AddedConcat([DestroySet(AllowSet(bridge))], [CreateSet(AllowSet(bridge))]);
    assert Added(recreate) == [];
  }

  lemma AllowlistEffect(before: Ruleset, bridge: string)
    requires !InUse(before.rules, AllowSet(bridge))
    ensures RunsTo(before, BridgeCommands(bridge, "allowlist"),
                   Ruleset(before.rules + Added(BridgeCommands(bridge, "allowlist")), before.sets[AllowSet(bridge) := {}]))
  {
    var name := AllowSet(bridge);
    var head, recreate, allow := BridgeHead(bridge), Recreate(name), AllowRules(bridge);
    var headRules, allowRules := Added(head), Added(allow);
    var afterHead := before.(rules := before.rules + headRules);
    var created := afterHead.(sets := before.sets[name := {}]);
    var after := created.(rules := created.rules + allowRules);
    AddsEffect(before, head);
    HeadUsesNoSet(bridge);
    InUseConcat(before.rules, headRules, name);
    RecreateEffect(afterHead, name);
    AddsEffect(created, allow);
    RunsInTurn(before, head, afterHead, recreate, created);
    RunsInTurn(before, head + recreate, created, allow, after);
    AllowlistAdds(bridge);
    assert (before.rules + headRules) + allowRules == before.rules + (headRules + allowRules);
  }

  lemma BridgeEffect(before: Ruleset, bridge: string, egress: string)
    requires !InUse(before.rules, AllowSet(bridge))
    ensures RunsTo(before, BridgeCommands(bridge, egress),
                   Ruleset(before.rules + Added(BridgeCommands(bridge, egress)), SetsAfter(bridge, egress, before.sets)))
  {
    if egress == "allowlist" {
      AllowlistEffect(before, bridge);
    } else {
      AddsEffect(before, BridgeCommands(bridge, egress));
    }
  }

  function NetworkSets(names: seq<string>, networks: map<string, string>, sets: map<string, set<nat>>): map<string, set<nat>>
    requires forall name :: name in names ==> name in networks
  {
    if names == [] then sets
    else
      var last := names[|names| - 1];
      SetsAfter(last, networks[last], NetworkSets(names[..|names| - 1], networks, sets))
  }

  lemma {:induction false} NetworksEffect(before: Ruleset, names: seq<string>, networks: map<string, string>)
    requires SetFree(before.rules)
    requires forall name :: name in names ==> name in networks
    requires forall i, j :: 0 <= i < j < |names| ==> names[i] != names[j]
    ensures RunsTo(before, NetworkCommands(names, networks),
                   Ruleset(before.rules + Added(NetworkCommands(names, networks)), NetworkSets(names, networks, before.sets)))
    ensures SetsOf(before.rules + Added(NetworkCommands(names, networks)), names)
  {
    if names == [] {
      assert before.rules + [] == before.rules;
    } else {
      var front, last := names[..|names| - 1], names[|names| - 1];
      var a, b := NetworkCommands(front, networks), BridgeCommands(last, networks[last]);
      NetworksEffect(before, front, networks);
      var between := Ruleset(before.rules + Added(a), NetworkSets(front, networks, before.sets));
      if InUse(between.rules, AllowSet(last)) {
        var i :| 0 <= i < |front| && AllowSet(last) == AllowSet(front[i]);
        AllowSetInjective(last, front[i]);
      }
      BridgeEffect(between, last, networks[last]);
      var after := Ruleset(between.rules + Added(b), NetworkSets(names, networks, before.sets));
      RunsInTurn(before, a, between, b, after);
      AddedConcat(a, b);
      assert after.rules == before.rules + Added(a + b);
      forall name | InUse(after.rules, name)
        ensures exists i :: 0 <= i < |names| && name == AllowSet(names[i])
      {
        InUseConcat(between.rules, Added(b), name);
        if InUse(between.rules, name) {
          var i :| 0 <= i < |front| && name == AllowSet(front[i]);
          assert name == AllowSet(names[i]);
        } else {
          BridgeUsesOwnSet(last, networks[last], name);
          assert name == AllowSet(names[|names| - 1]);
        }
      }
    }
  }
}
