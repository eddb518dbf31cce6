/**
 What the installed input chain decides: whether a container may open a connection
 to the host.

 Source: tinfoil/internal/firewall/containers.go.
 */
module InputVerdict {
  import opened Firewall
  import opened ForwardVerdict
  import opened Options
  import Sequences

  function InputRules(script: seq<Command>): seq<Rule> { ChainOf(Added(script), ContainerInput) }

  lemma {:induction false} ChainOfBoth(a: seq<Placed>, b: seq<Placed>, chain: Chain)
    ensures ChainOf(a + b, chain) == ChainOf(a, chain) + ChainOf(b, chain)
  {
    if a == [] {
      assert a + b == b;
    } else {
      assert (a + b)[1..] == a[1..] + b;
      ChainOfBoth(a[1..], b, chain);
    }
  }

  lemma InputRulesOfBoth(a: seq<Command>, b: seq<Command>)
    ensures InputRules(a + b) == InputRules(a) + InputRules(b)
  {
    AddedConcat(a, b);
    ChainOfBoth(Added(a), Added(b), ContainerInput);
  }

  lemma {:induction false} DecideBoth(a: seq<Rule>, b: seq<Rule>, sets: map<string, set<nat>>, packet: Packet)
    ensures Decide(a + b, sets, packet) == if Decide(a, sets, packet).Some? then Decide(a, sets, packet) else Decide(b, sets, packet)
  {
    if a == [] {
      assert a + b == b;
    } else {
      assert (a + b)[1..] == a[1..] + b;
      DecideBoth(a[1..], b, sets, packet);
    }
  }

  lemma OneCommand(command: Command)
    ensures InputRules([command]) ==
              if command.AddRule? && command.chain == ContainerInput then [command.rule] else []
  {
    assert [command][1..] == [] && Added([]) == [];
    if command.AddRule? {
      var placed := Placed(command.chain, command.rule);
      assert Added([command]) == [placed] && [placed][1..] == [];
      assert ChainOf([], ContainerInput) == [];
    }
  }

  lemma {:induction false} NoInputRules(script: seq<Command>)
    requires forall c :: c in script ==> !(c.AddRule? && c.chain == ContainerInput)
    ensures InputRules(script) == []
  {
    if script != [] {
      NoInputRules(script[1..]);
      assert script == [script[0]] + script[1..];
      InputRulesOfBoth([script[0]], script[1..]);
      OneCommand(script[0]);
    }
  }

  // The rule of one bridge.
  function HostRule(bridge: string): Rule { Rule([IifName(bridge), CtNew], Drop) }

  lemma BridgeRules(bridge: string, egress: string)
    ensures InputRules(BridgeCommands(bridge, egress)) == [HostRule(bridge)]
  {
    var head, rest := BridgeHead(bridge), EgressCommands(bridge, egress);
    assert BridgeCommands(bridge, egress) == head + rest;
    InputRulesOfBoth(head, rest);
    NoInputRules(rest);
    var forwards, input := head[..2], [head[2]];
    assert head == forwards + input;
    InputRulesOfBoth(forwards, input);
    NoInputRules(forwards);
    OneCommand(head[2]);
  }

  lemma BridgeInput(bridge: string, egress: string, sets: map<string, set<nat>>, packet: Packet)
    ensures Decide(InputRules(BridgeCommands(bridge, egress)), sets, packet)
         == if packet.state == New && packet.iif == bridge then Some(Drop) else None
  {
    BridgeRules(bridge, egress);
    var rule := HostRule(bridge);
    assert [rule][1..] == [];
    assert rule.matches[0] in rule.matches && rule.matches[1] in rule.matches;
  }

  lemma {:induction false} NetworksInput(names: seq<string>, networks: map<string, string>, sets: map<string, set<nat>>, packet: Packet)
    requires forall name :: name in names ==> name in networks
    ensures Decide(InputRules(NetworkCommands(names, networks)), sets, packet)
         == if packet.state == New && packet.iif in names then Some(Drop) else None
  {
    if names != [] {
      var front, last := names[..|names| - 1], names[|names| - 1];
      assert names == front + [last];
      NetworksInput(front, networks, sets, packet);
      BridgeInput(last, networks[last], sets, packet);
      InputRulesOfBoth(NetworkCommands(front, networks), BridgeCommands(last, networks[last]));
      DecideBoth(InputRules(NetworkCommands(front, networks)), InputRules(BridgeCommands(last, networks[last])), sets, packet);
    }
  }

  lemma PrologueHasNoInputRules(config: Config)
    ensures InputRules(Prologue(config)) == []
  {
    NoInputRules(Prologue(config));
  }

  lemma EpilogueInput(config: Config, sets: map<string, set<nat>>, packet: Packet)
    ensures Decide(InputRules(Epilogue(config)), sets, packet)
         == if config.shimUpstream && packet.state == New && packet.iif == "shim-net" then Some(Drop) else None
  {
    if config.shimUpstream {
      BridgeInput(SHIM_NET, "closed", sets, packet);
    }
  }

  /** For any configuration and order: the input chain drops exactly the new packets
      that come from a declared network, or from the shim's when it is rendered, and
      decides nothing about the others. */
  lemma NewPacketsToTheHostAreDropped(config: Config, names: seq<string>, sets: map<string, set<nat>>, packet: Packet)
    requires Lists(names, config.networks)
    ensures Decide(ChainOf(Added(Script(config, names)), ContainerInput), sets, packet)
         == if packet.state == New && (packet.iif in config.networks || (config.shimUpstream && packet.iif == "shim-net"))
            then Some(Drop) else None
  {
    var prologue, networks, epilogue := Prologue(config), NetworkCommands(names, config.networks), Epilogue(config);
    InputRulesOfBoth(prologue + networks, epilogue);
    InputRulesOfBoth(prologue, networks);
    PrologueHasNoInputRules(config);
    DecideBoth(InputRules(networks), InputRules(epilogue), sets, packet);
    NetworksInput(names, config.networks, sets, packet);
    EpilogueInput(config, sets, packet);
    assert InputRules(prologue + networks) == InputRules(networks);
  }
}
