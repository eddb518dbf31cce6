/**
 What the installed forward chain decides.

 Source: tinfoil/internal/firewall/containers.go.
 */
module ForwardVerdict {
  import opened Ipv4Ranges
  import opened Firewall
  import opened Names
  import opened Options

  // ---------- Installing ----------

  lemma {:induction false} WithoutBothChains(rules: seq<Placed>)
    ensures WithoutChain(WithoutChain(rules, ContainerInput), ContainerForward) == []
  {
    if rules != [] {
      WithoutBothChains(rules[1..]);
      if rules[0].chain == ContainerForward {
        var rest := WithoutChain(rules[1..], ContainerInput);
        assert WithoutChain(rules, ContainerInput) == [rules[0]] + rest;
        assert ([rules[0]] + rest)[1..] == rest;
      } else {
        assert WithoutChain(rules, ContainerInput) == WithoutChain(rules[1..], ContainerInput);
      }
    }
  }

  const FLUSHES: seq<Command> := [FlushChain(ContainerInput)] + [FlushChain(ContainerForward)]

  lemma FlushEffect(before: Ruleset)
    ensures RunsTo(before, FLUSHES, Ruleset([], before.sets))
    ensures Added(FLUSHES) == []
  {
    var inputFlushed := before.(rules := WithoutChain(before.rules, ContainerInput));
    WithoutBothChains(before.rules);
    RunsOne(before, FlushChain(ContainerInput));
    RunsOne(inputFlushed, FlushChain(ContainerForward));
    RunsInTurn(before, [FlushChain(ContainerInput)], inputFlushed, [FlushChain(ContainerForward)], Ruleset([], before.sets));
    AddedConcat([FlushChain(ContainerInput)], [FlushChain(ContainerForward)]);
  }

  function PrologueRules(config: Config): seq<Command> {
    (if config.debugPort.Some? then DebugCommands(config.debugPort.value) else []) + [Forward([CtDnat], Drop)]
  }

  lemma PrologueUsesNoSet(config: Config)
    ensures SetFree(Added(PrologueRules(config)))
  {
    forall name | InUse(Added(PrologueRules(config)), name)
      ensures false
    {
      AddedUses(PrologueRules(config), name);
    }
  }

  lemma PrologueEffect(before: Ruleset, config: Config)
    ensures RunsTo(before, Prologue(config), Ruleset(Added(Prologue(config)), before.sets))
    ensures SetFree(Added(Prologue(config)))
  {
    var flushed := Ruleset([], before.sets);
    var adds := PrologueRules(config);
    FlushEffect(before);
    AddsEffect(flushed, adds);
    assert [] + Added(adds) == Added(adds);
    RunsInTurn(before, FLUSHES, flushed, adds, Ruleset(Added(adds), before.sets));
    assert Prologue(config) == FLUSHES + adds;
    AddedConcat(FLUSHES, adds);
    PrologueUsesNoSet(config);
  }

  /** Whatever was there before, the whole script is accepted: it leaves exactly
      its own rules, an empty allow set for each allowlist network, and every
      other set as it was. */
  lemma InstallEffect(before: Ruleset, config: Config, names: seq<string>)
    requires Lists(names, config.networks)
    ensures RunsTo(before, Script(config, names),
                   Ruleset(Added(Script(config, names)), NetworkSets(names, config.networks, before.sets)))
  {
    var prologue, networks, epilogue := Prologue(config), NetworkCommands(names, config.networks), Epilogue(config);
    var flushed := Ruleset(Added(prologue), before.sets);
    var sets := NetworkSets(names, config.networks, before.sets);
    var middle := Ruleset(flushed.rules + Added(networks), sets);
    var after := Ruleset(middle.rules + Added(epilogue), sets);
    PrologueEffect(before, config);
    NetworksEffect(flushed, names, config.networks);
    AddsEffect(middle, epilogue);
    RunsInTurn(before, prologue, flushed, networks, middle);
    RunsInTurn(before, prologue + networks, middle, epilogue, after);
    AddedConcat(prologue + networks, epilogue);
    AddedConcat(prologue, networks);
  }

  lemma {:induction false} NetworkSetsAt(names: seq<string>, networks: map<string, string>, sets: map<string, set<nat>>, name: string)
    requires forall n :: n in names ==> n in networks
    ensures (exists i :: 0 <= i < |names| && networks[names[i]] == "allowlist" && name == AllowSet(names[i])) ==>
              name in NetworkSets(names, networks, sets) && NetworkSets(names, networks, sets)[name] == {}
    ensures !(exists i :: 0 <= i < |names| && networks[names[i]] == "allowlist" && name == AllowSet(names[i])) ==>
              (name in NetworkSets(names, networks, sets) <==> name in sets) &&
              (name in sets ==> NetworkSets(names, networks, sets)[name] == sets[name])
  {
    if names != [] {
      var front, last := names[..|names| - 1], names[|names| - 1];
      NetworkSetsAt(front, networks, sets, name);
      assert names == front + [last];
      if exists i :: 0 <= i < |front| && networks[front[i]] == "allowlist" && name == AllowSet(front[i]) {
        var i :| 0 <= i < |front| && networks[front[i]] == "allowlist" && name == AllowSet(front[i]);
        assert names[i] == front[i];
      }
    }
  }

  // ---------- Deciding ----------

  /** What the forward rules a script adds decide about a packet. */
  function Decides(script: seq<Command>, sets: map<string, set<nat>>, packet: Packet): Option<Verdict> {
    if script == [] then None
    else if DecidesNow(script[0], sets, packet) then Some(script[0].rule.verdict)
    else Decides(script[1..], sets, packet)
  }

  predicate DecidesNow(command: Command, sets: map<string, set<nat>>, packet: Packet) {
    command.AddRule? && command.chain == ContainerForward && RuleMatches(command.rule, sets, packet)
  }

  lemma {:induction false} DecidesIsTheChain(script: seq<Command>, sets: map<string, set<nat>>, packet: Packet)
    ensures Decide(ChainOf(Added(script), ContainerForward), sets, packet) == Decides(script, sets, packet)
  {
    if script != [] {
      DecidesIsTheChain(script[1..], sets, packet);
      var rest := Added(script[1..]);
      if script[0].AddRule? {
        var first := Placed(script[0].chain, script[0].rule);
        assert ([first] + rest)[1..] == rest;
        var chain := ChainOf(rest, ContainerForward);
        if first.chain == ContainerForward {
          assert ChainOf(Added(script), ContainerForward) == [first.rule] + chain;
          assert ([first.rule] + chain)[1..] == chain;
        } else {
          assert ChainOf(Added(script), ContainerForward) == chain;
        }
      } else {
        assert Added(script) == rest;
      }
    }
  }

  lemma {:induction false} DecidesConcat(a: seq<Command>, b: seq<Command>, sets: map<string, set<nat>>, packet: Packet)
    ensures Decides(a + b, sets, packet)
         == if Decides(a, sets, packet).Some? then Decides(a, sets, packet) else Decides(b, sets, packet)
  {
    if a == [] {
      assert a + b == b;
    } else {
      assert (a + b)[1..] == a[1..] + b;
      DecidesConcat(a[1..], b, sets, packet);
    }
  }

  lemma {:induction false} NothingDecides(script: seq<Command>, sets: map<string, set<nat>>, packet: Packet)
    requires forall c :: c in script ==> !DecidesNow(c, sets, packet)
    ensures Decides(script, sets, packet) == None
  {
    if script != [] {
      NothingDecides(script[1..], sets, packet);
    }
  }

  lemma DecidesCons(first: Command, rest: seq<Command>, sets: map<string, set<nat>>, packet: Packet)
    ensures Decides([first] + rest, sets, packet)
         == if DecidesNow(first, sets, packet) then Some(first.rule.verdict) else Decides(rest, sets, packet)
  {
    assert ([first] + rest)[1..] == rest;
  }

  lemma OneMatch(m: Match, verdict: Verdict, sets: map<string, set<nat>>, packet: Packet)
    ensures DecidesNow(Forward([m], verdict), sets, packet) <==> Matches(m, sets, packet)
  {
    assert m in [m];
  }

  lemma TwoMatches(m: Match, n: Match, verdict: Verdict, sets: map<string, set<nat>>, packet: Packet)
    ensures DecidesNow(Forward([m, n], verdict), sets, packet) <==> Matches(m, sets, packet) && Matches(n, sets, packet)
  {
    assert m in [m, n] && n in [m, n];
  }

  // ---------- The specification ----------

  predicate NonPublic6(address: nat) { InAny(NON_PUBLIC_IPV6, 128, address) }

  /** What a bridge's own mode says about a packet leaving it. */
  function ModeVerdict(bridge: string, egress: string, sets: map<string, set<nat>>, packet: Packet): Option<Verdict> {
    if packet.oif == bridge then Some(Accept)
    else
      match packet.destination
      case V4(address) =>
        if egress == "open" then Some(if NonPublic(address) then Drop else Accept)
        else if egress == "allowlist" then
          if AllowSet(bridge) in sets && address in sets[AllowSet(bridge)] then Some(Accept)
          else if NonPublic(address) then Some(Drop) else None
        else None
      case V6(address) =>
        if egress == "open" then Some(if NonPublic6(address) then Drop else Accept)
        else if egress == "allowlist" && NonPublic6(address) then Some(Drop)
        else None
  }

  /** A new packet that did not come in through a published port. */
  predicate NewFlow(packet: Packet) { packet.state == New && !packet.dnat }

  lemma PairDecides(first: Command, second: Command, sets: map<string, set<nat>>, packet: Packet)
    requires first.AddRule? && second.AddRule?
    ensures Decides([first, second], sets, packet)
         == if DecidesNow(first, sets, packet) then Some(first.rule.verdict)
            else if DecidesNow(second, sets, packet) then Some(second.rule.verdict)
            else None
  {
    assert [first, second] == [first] + ([second] + []);
    DecidesCons(first, [second] + [], sets, packet);
    DecidesCons(second, [], sets, packet);
  }

  lemma OpenDecides(bridge: string, sets: map<string, set<nat>>, packet: Packet)
    requires packet.iif == bridge && packet.oif != bridge
    ensures Decides(EgressCommands(bridge, "open"), sets, packet) == ModeVerdict(bridge, "open", sets, packet)
  {
    var from := IifName(bridge);
    var drop4, accept4 := Forward([from, Daddr4In(NFT_RANGES)], Drop), Forward([from, ProtoIs4], Accept);
    var drop6, accept6 := Forward([from, Daddr6In(NON_PUBLIC_IPV6)], Drop), Forward([from, ProtoIs6], Accept);
    assert EgressCommands(bridge, "open") == [drop4, accept4] + [drop6, accept6];
    DecidesConcat([drop4, accept4], [drop6, accept6], sets, packet);
    PairDecides(drop4, accept4, sets, packet);
    PairDecides(drop6, accept6, sets, packet);
    TwoMatches(from, Daddr4In(NFT_RANGES), Drop, sets, packet);
    TwoMatches(from, ProtoIs4, Accept, sets, packet);
    TwoMatches(from, Daddr6In(NON_PUBLIC_IPV6), Drop, sets, packet);
    TwoMatches(from, ProtoIs6, Accept, sets, packet);
  }

  lemma AllowRulesDecide(bridge: string, sets: map<string, set<nat>>, packet: Packet)
    requires packet.iif == bridge && packet.oif != bridge
    ensures Decides(AllowRules(bridge), sets, packet) == ModeVerdict(bridge, "allowlist", sets, packet)
  {
    var from, name := IifName(bridge), AllowSet(bridge);
    var r0, r1 := Forward([from, Daddr4InSet(name)], Accept), Forward([from, Daddr4In(NFT_RANGES)], Drop);
    var r2 := Forward([from, Daddr6In(NON_PUBLIC_IPV6)], Drop);
    TwoMatches(from, Daddr4InSet(name), Accept, sets, packet);
    TwoMatches(from, Daddr4In(NFT_RANGES), Drop, sets, packet);
    TwoMatches(from, Daddr6In(NON_PUBLIC_IPV6), Drop, sets, packet);
    assert AllowRules(bridge) == [r0] + ([r1] + ([r2] + []));
    DecidesCons(r0, [r1] + ([r2] + []), sets, packet);
    DecidesCons(r1, [r2] + [], sets, packet);
    DecidesCons(r2, [], sets, packet);
  }

  lemma AllowlistDecides(bridge: string, sets: map<string, set<nat>>, packet: Packet)
    requires packet.iif == bridge && packet.oif != bridge
    ensures Decides(EgressCommands(bridge, "allowlist"), sets, packet) == ModeVerdict(bridge, "allowlist", sets, packet)
  {
    var recreate, allow := Recreate(AllowSet(bridge)), AllowRules(bridge);
    assert EgressCommands(bridge, "allowlist") == recreate + allow;
    NothingDecides(recreate, sets, packet);
    DecidesConcat(recreate, allow, sets, packet);
    AllowRulesDecide(bridge, sets, packet);
  }

  lemma HeadDecides(bridge: string, sets: map<string, set<nat>>, packet: Packet)
    ensures Decides(BridgeHead(bridge), sets, packet)
         == if packet.oif == bridge && (packet.iif == bridge || packet.state == Established) then Some(Accept) else None
  {
    var r0, r1 := Forward([IifName(bridge), OifName(bridge)], Accept), Forward([OifName(bridge), CtEstablished], Accept);
    var r2 := AddRule(ContainerInput, Rule([IifName(bridge), CtNew], Drop));
    TwoMatches(IifName(bridge), OifName(bridge), Accept, sets, packet);
    TwoMatches(OifName(bridge), CtEstablished, Accept, sets, packet);
    assert BridgeHead(bridge) == [r0] + ([r1] + ([r2] + []));
    DecidesCons(r0, [r1] + ([r2] + []), sets, packet);
    DecidesCons(r1, [r2] + [], sets, packet);
    DecidesCons(r2, [], sets, packet);
  }

  // A bridge's egress rules concern only packets from that bridge.
  lemma EgressRulesAreLocal(bridge: string, egress: string, sets: map<string, set<nat>>, packet: Packet)
    requires packet.iif != bridge
    ensures Decides(EgressCommands(bridge, egress), sets, packet) == None
  {
    forall c | c in EgressCommands(bridge, egress)
      ensures !DecidesNow(c, sets, packet)
    {
      if c.AddRule? {
        assert IifName(bridge) in c.rule.matches;
      }
    }
    NothingDecides(EgressCommands(bridge, egress), sets, packet);
  }

  lemma BridgeDecides(bridge: string, egress: string, sets: map<string, set<nat>>, packet: Packet)
    requires NewFlow(packet)
    ensures Decides(BridgeCommands(bridge, egress), sets, packet)
         == if packet.iif == bridge then ModeVerdict(bridge, egress, sets, packet) else None
  {
    assert BridgeCommands(bridge, egress) == BridgeHead(bridge) + EgressCommands(bridge, egress);
    DecidesConcat(BridgeHead(bridge), EgressCommands(bridge, egress), sets, packet);
    HeadDecides(bridge, sets, packet);
    if packet.iif != bridge {
      EgressRulesAreLocal(bridge, egress, sets, packet);
    } else if packet.oif != bridge {
      if egress == "open" {
        OpenDecides(bridge, sets, packet);
      } else if egress == "allowlist" {
        AllowlistDecides(bridge, sets, packet);
      }
    }
  }

  lemma {:induction false} NetworksDecide(names: seq<string>, networks: map<string, string>, sets: map<string, set<nat>>, packet: Packet)
    requires NewFlow(packet)
    requires forall name :: name in names ==> name in networks
    ensures Decides(NetworkCommands(names, networks), sets, packet)
         == if packet.iif in names then ModeVerdict(packet.iif, networks[packet.iif], sets, packet) else None
  {
    if names != [] {
      var front, last := names[..|names| - 1], names[|names| - 1];
      NetworksDecide(front, networks, sets, packet);
      BridgeDecides(last, networks[last], sets, packet);
      DecidesConcat(NetworkCommands(front, networks), BridgeCommands(last, networks[last]), sets, packet);
      assert names == front + [last];
    }
  }

  lemma PrologueDecides(config: Config, sets: map<string, set<nat>>, packet: Packet)
    ensures Decides(Prologue(config), sets, packet)
         == if config.debugPort.Some? && packet.oif == DOCKER_BRIDGE && packet.dnat && packet.tcpPort == config.debugPort then Some(Accept)
            else if config.debugPort.Some? && packet.iif == DOCKER_BRIDGE && packet.state == Established then Some(Accept)
            else if packet.dnat then Some(Drop)
            else None
  {
    var flushes := [FlushChain(ContainerInput), FlushChain(ContainerForward)];
    var debug := if config.debugPort.Some? then DebugCommands(config.debugPort.value) else [];
    var drop := Forward([CtDnat], Drop);
    NothingDecides(flushes, sets, packet);
    DecidesConcat(flushes + debug, [drop], sets, packet);
    DecidesConcat(flushes, debug, sets, packet);
    OneMatch(CtDnat, Drop, sets, packet);
    DecidesCons(drop, [], sets, packet);
    assert [drop] + [] == [drop];
    if config.debugPort.Some? {
      var published := [OifName(DOCKER_BRIDGE), CtDnat, TcpDport(config.debugPort.value)];
      var r0, r1 := Forward(published, Accept), Forward([IifName(DOCKER_BRIDGE), CtEstablished], Accept);
      assert published[0] in published && published[1] in published && published[2] in published;
      TwoMatches(IifName(DOCKER_BRIDGE), CtEstablished, Accept, sets, packet);
      assert debug == [r0] + ([r1] + []);
      DecidesCons(r0, [r1] + [], sets, packet);
      DecidesCons(r1, [], sets, packet);
    }
  }

  function InstalledChain(config: Config, names: seq<string>): seq<Rule>
    requires Lists(names, config.networks)
  {
    ChainOf(Added(Script(config, names)), ContainerForward)
  }

  /** The mode of the bridge a packet comes from, if it is one of ours. */
  function ModeOf(config: Config, bridge: string): Option<string> {
    if bridge in config.networks then Some(config.networks[bridge])
    else if config.shimUpstream && bridge == SHIM_NET then Some("closed")
    else None
  }

  /** For any number of networks in any order: on a new flow the installed chain
      decides exactly what the mode of the packet's own bridge says, and nothing
      about packets from anywhere else. */
  lemma ChainDecidesByOwnMode(config: Config, names: seq<string>, sets: map<string, set<nat>>, packet: Packet)
    requires Lists(names, config.networks) && NewFlow(packet)
    ensures Decide(InstalledChain(config, names), sets, packet)
         == if ModeOf(config, packet.iif).Some?
            then ModeVerdict(packet.iif, ModeOf(config, packet.iif).value, sets, packet) else None
  {
    var prologue, networks, epilogue := Prologue(config), NetworkCommands(names, config.networks), Epilogue(config);
    DecidesIsTheChain(Script(config, names), sets, packet);
    DecidesConcat(prologue + networks, epilogue, sets, packet);
    DecidesConcat(prologue, networks, sets, packet);
    PrologueDecides(config, sets, packet);
    NetworksDecide(names, config.networks, sets, packet);
    if config.shimUpstream {
      BridgeDecides(SHIM_NET, "closed", sets, packet);
    }
  }

  /** A published port is reachable from another interface only through the
      reserved debug rule; everything else that was DNATed is dropped. */
  lemma PublishedPortsAreClosed(config: Config, names: seq<string>, sets: map<string, set<nat>>, packet: Packet)
    requires Lists(names, config.networks) && packet.dnat
    ensures Decide(InstalledChain(config, names), sets, packet)
         == Some(if config.debugPort.Some? &&
                    ((packet.oif == DOCKER_BRIDGE && packet.tcpPort == config.debugPort) ||
                     (packet.iif == DOCKER_BRIDGE && packet.state == Established))
                 then Accept else Drop)
  {
    var prologue, networks, epilogue := Prologue(config), NetworkCommands(names, config.networks), Epilogue(config);
    DecidesIsTheChain(Script(config, names), sets, packet);
    DecidesConcat(prologue + networks, epilogue, sets, packet);
    DecidesConcat(prologue, networks, sets, packet);
    PrologueDecides(config, sets, packet);
  }

  lemma {:induction false} RepliesReach(names: seq<string>, networks: map<string, string>, sets: map<string, set<nat>>, packet: Packet)
    requires forall name :: name in names ==> name in networks
    requires packet.state == Established && packet.iif !in names
    ensures Decides(NetworkCommands(names, networks), sets, packet)
         == if packet.oif in names then Some(Accept) else None
  {
    if names != [] {
      var front, last := names[..|names| - 1], names[|names| - 1];
      assert names == front + [last];
      RepliesReach(front, networks, sets, packet);
      DecidesConcat(NetworkCommands(front, networks), BridgeCommands(last, networks[last]), sets, packet);
      assert BridgeCommands(last, networks[last]) == BridgeHead(last) + EgressCommands(last, networks[last]);
      DecidesConcat(BridgeHead(last), EgressCommands(last, networks[last]), sets, packet);
      HeadDecides(last, sets, packet);
      EgressRulesAreLocal(last, networks[last], sets, packet);
    }
  }

  /** Replies from outside reach the bridge that asked, whatever its mode. */
  lemma RepliesAreAccepted(config: Config, names: seq<string>, sets: map<string, set<nat>>, packet: Packet)
    requires Lists(names, config.networks)
    requires packet.state == Established && !packet.dnat
    requires packet.iif !in config.networks && packet.oif in config.networks
    ensures Decide(InstalledChain(config, names), sets, packet) == Some(Accept)
  {
    var prologue, networks, epilogue := Prologue(config), NetworkCommands(names, config.networks), Epilogue(config);
    DecidesIsTheChain(Script(config, names), sets, packet);
    DecidesConcat(prologue + networks, epilogue, sets, packet);
    DecidesConcat(prologue, networks, sets, packet);
    PrologueDecides(config, sets, packet);
    RepliesReach(names, config.networks, sets, packet);
  }

  // ---------- Established packets between two declared bridges ----------

  predicate BetweenBridges(config: Config, packet: Packet) {
    && packet.state == Established && !packet.dnat
    && packet.iif in config.networks && packet.oif in config.networks && packet.iif != packet.oif
    // Not one of the packets the reserved debug rule lets through.
    && !(config.debugPort.Some? && packet.iif == DOCKER_BRIDGE)
  }

  ghost predicate ListedBefore(names: seq<string>, a: string, b: string) {
    exists i, j :: 0 <= i < j < |names| && names[i] == a && names[j] == b
  }

  lemma BridgeDecidesEstablished(bridge: string, egress: string, sets: map<string, set<nat>>, packet: Packet)
    requires packet.state == Established && packet.iif != packet.oif
    ensures Decides(BridgeCommands(bridge, egress), sets, packet)
         == if packet.oif == bridge then Some(Accept)
            else if packet.iif == bridge then ModeVerdict(bridge, egress, sets, packet)
            else None
  {
    assert BridgeCommands(bridge, egress) == BridgeHead(bridge) + EgressCommands(bridge, egress);
    DecidesConcat(BridgeHead(bridge), EgressCommands(bridge, egress), sets, packet);
    HeadDecides(bridge, sets, packet);
    if packet.iif != bridge {
      EgressRulesAreLocal(bridge, egress, sets, packet);
    } else if egress == "open" {
      OpenDecides(bridge, sets, packet);
    } else if egress == "allowlist" {
      AllowlistDecides(bridge, sets, packet);
    }
  }

  // As long as the destination's bridge has not been listed, the source's mode decides.
  lemma {:induction false} SourceDecides(names: seq<string>, networks: map<string, string>, sets: map<string, set<nat>>, packet: Packet)
    requires forall name :: name in names ==> name in networks
    requires packet.state == Established && packet.iif != packet.oif && packet.oif !in names
    ensures Decides(NetworkCommands(names, networks), sets, packet)
         == if packet.iif in names then ModeVerdict(packet.iif, networks[packet.iif], sets, packet) else None
  {
    if names != [] {
      var front, last := names[..|names| - 1], names[|names| - 1];
      assert names == front + [last];
      SourceDecides(front, networks, sets, packet);
      BridgeDecidesEstablished(last, networks[last], sets, packet);
      DecidesConcat(NetworkCommands(front, networks), BridgeCommands(last, networks[last]), sets, packet);
    }
  }

  // What an established packet between two listed bridges meets first.
  function EstablishedVerdict(first: bool, egress: string, sets: map<string, set<nat>>, packet: Packet): Option<Verdict> {
    var mode := ModeVerdict(packet.iif, egress, sets, packet);
    if first || mode.None? then Some(Accept) else mode
  }

  lemma {:induction false} NetworksDecideEstablished(names: seq<string>, networks: map<string, string>, sets: map<string, set<nat>>, packet: Packet)
    requires forall name :: name in names ==> name in networks
    requires forall i, j :: 0 <= i < j < |names| ==> names[i] != names[j]
    requires packet.state == Established && packet.iif != packet.oif && packet.iif in names && packet.oif in names
    ensures Decides(NetworkCommands(names, networks), sets, packet)
         == EstablishedVerdict(ListedBefore(names, packet.oif, packet.iif), networks[packet.iif], sets, packet)
  {
    var front, last := names[..|names| - 1], names[|names| - 1];
    assert names == front + [last];
    BridgeDecidesEstablished(last, networks[last], sets, packet);
    DecidesConcat(NetworkCommands(front, networks), BridgeCommands(last, networks[last]), sets, packet);
    ListedBeforeLast(front, last, packet.oif, packet.iif);
    if last == packet.oif {
      SourceDecides(front, networks, sets, packet);
    } else if last == packet.iif {
      RepliesReach(front, networks, sets, packet);
    } else {
      NetworksDecideEstablished(front, networks, sets, packet);
    }
  }

  lemma ListedBeforeLast(front: seq<string>, last: string, a: string, b: string)
    requires forall i, j :: 0 <= i < j < |front + [last]| ==> (front + [last])[i] != (front + [last])[j]
    requires a != b
    ensures ListedBefore(front + [last], a, b) <==> ListedBefore(front, a, b) || (last == b && a in front)
    ensures last !in front
  {
    var names := front + [last];
    assert names[|front|] == last;
    if ListedBefore(front, a, b) {
      var i, j :| 0 <= i < j < |front| && front[i] == a && front[j] == b;
      assert names[i] == a && names[j] == b;
    }
    if last == b && a in front {
      var i :| 0 <= i < |front| && front[i] == a;
      assert names[i] == a && names[|front|] == b;
    }
    if ListedBefore(names, a, b) {
      var i, j :| 0 <= i < j < |names| && names[i] == a && names[j] == b;
      assert front[i] == a && (j < |front| ==> front[j] == b);
    }
    assert forall k :: 0 <= k < |front| ==> names[k] == front[k] && names[k] != names[|front|];
  }

  /** The verdict on an established packet between two declared bridges, for any
      listing of the networks: accepted if the destination's bridge is listed
      first or the source's mode is silent, and otherwise as that mode says. */
  lemma EstablishedIsDecidedByOrder(config: Config, names: seq<string>, sets: map<string, set<nat>>, packet: Packet)
    requires Lists(names, config.networks) && BetweenBridges(config, packet)
    ensures Decide(InstalledChain(config, names), sets, packet)
         == EstablishedVerdict(ListedBefore(names, packet.oif, packet.iif), config.networks[packet.iif], sets, packet)
  {
    var prologue, networks, epilogue := Prologue(config), NetworkCommands(names, config.networks), Epilogue(config);
    DecidesIsTheChain(Script(config, names), sets, packet);
    DecidesConcat(prologue + networks, epilogue, sets, packet);
    DecidesConcat(prologue, networks, sets, packet);
    PrologueDecides(config, sets, packet);
    NetworksDecideEstablished(names, config.networks, sets, packet);
  }

  /** As rendered, with the names ascending: the reply direction is open from the
      bridge that sorts after its peer. */
  lemma EstablishedIsDecidedByName(config: Config, names: seq<string>, sets: map<string, set<nat>>, packet: Packet)
    requires Lists(names, config.networks) && Ascending(names) && BetweenBridges(config, packet)
    ensures Decide(InstalledChain(config, names), sets, packet)
         == EstablishedVerdict(AtMost(packet.oif, packet.iif), config.networks[packet.iif], sets, packet)
  {
    EstablishedIsDecidedByOrder(config, names, sets, packet);
    var i :| 0 <= i < |names| && names[i] == packet.oif;
    var j :| 0 <= j < |names| && names[j] == packet.iif;
    ListedByIndex(names, i, j);
    if i < j {
      assert AtMost(names[i], names[j]);
    } else {
      assert AtMost(names[j], names[i]);
      if AtMost(packet.oif, packet.iif) {
        AtMostIsAntisymmetric(packet.oif, packet.iif);
      }
    }
  }

  // The two names exchanged.
  function Exchanged(names: seq<string>, i: nat, j: nat): seq<string>
    requires i < |names| && j < |names|
  {
    names[i := names[j]][j := names[i]]
  }

  lemma ExchangedLists(names: seq<string>, networks: map<string, string>, i: nat, j: nat)
    requires Lists(names, networks) && i < |names| && j < |names| && i != j
    ensures Lists(Exchanged(names, i, j), networks)
    ensures ListedBefore(names, names[i], names[j]) <==> !ListedBefore(Exchanged(names, i, j), names[i], names[j])
  {
    var other := Exchanged(names, i, j);
    assert other[i] == names[j] && other[j] == names[i];
    forall name | name in networks
      ensures name in other
    {
      var k :| 0 <= k < |names| && names[k] == name;
      assert other[if k == i then j else if k == j then i else k] == name;
    }
    forall name | name in other
      ensures name in networks
    {
      var k :| 0 <= k < |other| && other[k] == name;
      assert name == names[if k == i then j else if k == j then i else k];
    }
    ListedByIndex(names, i, j);
    ListedByIndex(other, j, i);
  }

  lemma ListedByIndex(names: seq<string>, i: nat, j: nat)
    requires i < |names| && j < |names|
    requires forall k, l :: 0 <= k < l < |names| ==> names[k] != names[l]
    ensures ListedBefore(names, names[i], names[j]) <==> i < j
  {
  }

  // Another listing of the networks decides otherwise.
  ghost predicate DecidesOtherwise(config: Config, names: seq<string>, other: seq<string>, sets: map<string, set<nat>>, packet: Packet)
    requires Lists(names, config.networks)
  {
    && Lists(other, config.networks)
    && Decide(InstalledChain(config, other), sets, packet) != Decide(InstalledChain(config, names), sets, packet)
  }

  lemma OrderIsIdle(config: Config, names: seq<string>, other: seq<string>, sets: map<string, set<nat>>, packet: Packet)
    requires Lists(names, config.networks) && Lists(other, config.networks) && BetweenBridges(config, packet)
    requires ModeVerdict(packet.iif, config.networks[packet.iif], sets, packet) != Some(Drop)
    ensures !DecidesOtherwise(config, names, other, sets, packet)
  {
    EstablishedIsDecidedByOrder(config, names, sets, packet);
    EstablishedIsDecidedByOrder(config, other, sets, packet);
  }

  lemma OrderTurnsDrop(config: Config, names: seq<string>, sets: map<string, set<nat>>, packet: Packet)
    requires Lists(names, config.networks) && BetweenBridges(config, packet)
    requires ModeVerdict(packet.iif, config.networks[packet.iif], sets, packet) == Some(Drop)
    ensures exists other :: DecidesOtherwise(config, names, other, sets, packet)
  {
    var i :| 0 <= i < |names| && names[i] == packet.oif;
    var j :| 0 <= j < |names| && names[j] == packet.iif;
    var swapped := Exchanged(names, i, j);
    ExchangedLists(names, config.networks, i, j);
    EstablishedIsDecidedByOrder(config, names, sets, packet);
    EstablishedIsDecidedByOrder(config, swapped, sets, packet);
    assert DecidesOtherwise(config, names, swapped, sets, packet);
  }

  /** The order of the names matters to such a packet if and only if the mode of
      its source would drop it. */
  lemma OrderMattersExactly(config: Config, names: seq<string>, sets: map<string, set<nat>>, packet: Packet)
    requires Lists(names, config.networks) && BetweenBridges(config, packet)
    ensures (exists other :: DecidesOtherwise(config, names, other, sets, packet))
            <==> ModeVerdict(packet.iif, config.networks[packet.iif], sets, packet) == Some(Drop)
  {
    if ModeVerdict(packet.iif, config.networks[packet.iif], sets, packet) == Some(Drop) {
      OrderTurnsDrop(config, names, sets, packet);
    } else {
      forall other | Lists(other, config.networks)
        ensures !DecidesOtherwise(config, names, other, sets, packet)
      {
        OrderIsIdle(config, names, other, sets, packet);
      }
    }
  }

  // A bridge's egress rules for a non-public IPv4 destination beyond it.
  lemma OpenDropsNonPublic(bridge: string, sets: map<string, set<nat>>, packet: Packet)
    requires packet.iif == bridge && packet.oif != bridge
    requires packet.destination.V4? && NonPublic(packet.destination.bits)
    ensures Decides(BridgeCommands(bridge, "open"), sets, packet) == Some(Drop)
  {
    assert BridgeCommands(bridge, "open") == BridgeHead(bridge) + EgressCommands(bridge, "open");
    DecidesConcat(BridgeHead(bridge), EgressCommands(bridge, "open"), sets, packet);
    HeadDecides(bridge, sets, packet);
    OpenDecides(bridge, sets, packet);
  }

  /** Why the main result speaks of new flows only: an established packet between
      two declared bridges is dropped or accepted according to which of the two
      was written first. */
  lemma EstablishedDependsOnOrder(a: string, b: string, sets: map<string, set<nat>>, address: nat)
    requires a != b && NonPublic(address)
    ensures var config := Config(map[a := "open", b := "closed"], None, false);
            var packet := Packet(a, b, V4(address), Established, false, None);
            && Lists([a, b], config.networks) && Lists([b, a], config.networks)
            && Decide(InstalledChain(config, [a, b]), sets, packet) == Some(Drop)
            && Decide(InstalledChain(config, [b, a]), sets, packet) == Some(Accept)
  {
    var config := Config(map[a := "open", b := "closed"], None, false);
    var packet := Packet(a, b, V4(address), Established, false, None);
    OpenDropsNonPublic(a, sets, packet);
    HeadDecides(b, sets, packet);
    DecidesConcat(BridgeHead(b), EgressCommands(b, "closed"), sets, packet);
    assert BridgeCommands(b, "closed") == BridgeHead(b) + EgressCommands(b, "closed");
    ChainOfTwo(config, a, b, sets, packet);
    ChainOfTwo(config, b, a, sets, packet);
  }

  lemma ChainOfTwo(config: Config, a: string, b: string, sets: map<string, set<nat>>, packet: Packet)
    requires a != b && config.networks.Keys == {a, b} && config.debugPort.None? && !config.shimUpstream
    requires !packet.dnat && Decides(BridgeCommands(a, config.networks[a]), sets, packet).Some?
    ensures Lists([a, b], config.networks)
    ensures Decide(InstalledChain(config, [a, b]), sets, packet) == Decides(BridgeCommands(a, config.networks[a]), sets, packet)
  {
    assert [a, b][0] == a && [a, b][1] == b;
    var networks := NetworkCommands([a, b], config.networks);
    assert [a, b][..1] == [a];
    assert [a][..0] == [];
    assert NetworkCommands([a], config.networks) == BridgeCommands(a, config.networks[a]);
    DecidesConcat(NetworkCommands([a], config.networks), BridgeCommands(b, config.networks[b]), sets, packet);
    DecidesIsTheChain(Script(config, [a, b]), sets, packet);
    DecidesConcat(Prologue(config) + networks, Epilogue(config), sets, packet);
    DecidesConcat(Prologue(config), networks, sets, packet);
    PrologueDecides(config, sets, packet);
  }
}
