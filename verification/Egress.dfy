/**
 The egress engine: names resolved to public IPv4 addresses, allow sets replaced
 in one transaction, and what every sequence of installs and refreshes keeps.

 Source: tinfoil/internal/egress/egress.go.
 */
module Egress {
  import opened Ipv4Ranges
  import opened Firewall
  import opened ForwardVerdict
  import opened InputVerdict
  import opened Options

  // One address of a DNS answer, as netip.ParseAddr sees it.
  datatype Answer = Unparsable | IPv4(bits: nat) | IPv6(bits: nat)
  datatype Lookup = Failed | Answered(answers: seq<Answer>)

  // ---------- Resolving ----------

  predicate PublicAnswer(answer: Answer) {
    answer.IPv4? && !InAny(RESOLVER_RANGES, 32, answer.bits)
  }

  method PublicIPv4(answer: Answer) returns (public: bool)
    ensures public <==> PublicAnswer(answer)
  {
    if !answer.IPv4? {
      return false;
    }
    for i := 0 to |RESOLVER_RANGES|
      invariant forall j :: 0 <= j < i ==> !Contains(RESOLVER_RANGES[j], 32, answer.bits)
    {
      if Contains(RESOLVER_RANGES[i], 32, answer.bits) {
        return false;
      }
    }
    return true;
  }

  // The public addresses among the answers of successful lookups.
  ghost predicate Offered(lookups: seq<Lookup>, address: nat) {
    exists i, j :: 0 <= i < |lookups| && lookups[i].Answered? && 0 <= j < |lookups[i].answers| &&
      lookups[i].answers[j] == IPv4(address) && PublicAnswer(lookups[i].answers[j])
  }

  ghost predicate AnyFailed(lookups: seq<Lookup>) {
    exists i :: 0 <= i < |lookups| && lookups[i].Failed?
  }

  ghost predicate NoDuplicates(ips: seq<nat>) {
    forall i, j :: 0 <= i < j < |ips| ==> ips[i] != ips[j]
  }

  /** What a successful resolve returns: every public address offered, once, and
      nothing else. */
  ghost predicate Resolution(lookups: seq<Lookup>, ips: seq<nat>) {
    && NoDuplicates(ips)
    && forall a :: a in ips <==> Offered(lookups, a)
  }

  /** resolve; `lookups` are the resolver's answers for the domains, in order. */
  method Resolve(lookups: seq<Lookup>) returns (result: Option<seq<nat>>)
    ensures result.Some? ==> Resolution(lookups, result.value)
    ensures result.None? <==> AnyFailed(lookups) || (lookups != [] && forall a :: !Offered(lookups, a))
  {
    var seen: set<nat> := {};
    var ips: seq<nat> := [];
    for i := 0 to |lookups|
      invariant forall k :: 0 <= k < i ==> lookups[k].Answered?
      invariant Collected(lookups[..i], seen, ips)
    {
      if lookups[i].Failed? {
        return None;
      }
      seen, ips := Collect(lookups[..i], lookups[i].answers, seen, ips);
      assert lookups[..i] + [lookups[i]] == lookups[..i + 1];
    }
    assert lookups[..|lookups|] == lookups;
    if ips == [] && lookups != [] {
      return None;
    }
    if lookups != [] {
      assert ips[0] in ips;
    }
    return Some(ips);
  }

  ghost predicate Collected(lookups: seq<Lookup>, seen: set<nat>, ips: seq<nat>) {
    && Resolution(lookups, ips)
    && forall a :: a in ips <==> a in seen
  }

  lemma OfferedByLast(before: seq<Lookup>, answers: seq<Answer>, address: nat)
    ensures Offered(before + [Answered(answers)], address) <==>
            Offered(before, address) || (IPv4(address) in answers && PublicAnswer(IPv4(address)))
  {
    var lookups := before + [Answered(answers)];
    if Offered(before, address) {
      var i, j :| 0 <= i < |before| && before[i].Answered? && 0 <= j < |before[i].answers| &&
        before[i].answers[j] == IPv4(address) && PublicAnswer(before[i].answers[j]);
      assert lookups[i].answers[j] == IPv4(address);
    }
    if IPv4(address) in answers && PublicAnswer(IPv4(address)) {
      var j :| 0 <= j < |answers| && answers[j] == IPv4(address);
      assert lookups[|before|].answers[j] == IPv4(address);
    }
    if Offered(lookups, address) {
      var i, j :| 0 <= i < |lookups| && lookups[i].Answered? && 0 <= j < |lookups[i].answers| &&
        lookups[i].answers[j] == IPv4(address) && PublicAnswer(lookups[i].answers[j]);
      if i < |before| {
        assert before[i].answers[j] == IPv4(address);
      }
    }
  }

  // The inner loop of resolve: one domain's answers.
  method Collect(ghost before: seq<Lookup>, answers: seq<Answer>, seen0: set<nat>, ips0: seq<nat>)
    returns (seen: set<nat>, ips: seq<nat>)
    requires Collected(before, seen0, ips0)
    ensures Collected(before + [Answered(answers)], seen, ips)
  {
    seen, ips := seen0, ips0;
    for j := 0 to |answers|
      invariant NoDuplicates(ips)
      invariant forall a :: a in ips <==> a in seen
      invariant forall a :: a in ips <==> Offered(before, a) || (IPv4(a) in answers[..j] && PublicAnswer(IPv4(a)))
    {
      assert answers[..j + 1] == answers[..j] + [answers[j]];
      var public := PublicIPv4(answers[j]);
      if !public {
        continue;
      }
      if answers[j].bits !in seen {
        seen := seen + {answers[j].bits};
        ips := ips + [answers[j].bits];
      }
    }
    assert answers[..|answers|] == answers;
    forall a
      ensures a in ips <==> Offered(before + [Answered(answers)], a)
    {
      OfferedByLast(before, answers, a);
    }
  }

  // ---------- Refreshing ----------

  function SetCommands(name: string, ips: seq<nat>): seq<Command> {
    [FlushSet(AllowSet(name))] + (if ips == [] then [] else [AddElements(AllowSet(name), ips)])
  }

  function RefreshScript(names: seq<string>, resolved: map<string, seq<nat>>): seq<Command>
    requires forall name :: name in names ==> name in resolved
  {
    if names == [] then []
    else
      var last := names[|names| - 1];
      RefreshScript(names[..|names| - 1], resolved) + SetCommands(last, resolved[last])
  }

  /** Refresh: resolve every allowlist first, then replace all sets at once. It
      returns no script when a resolution fails, and none when there is nothing
      to maintain. */
  method Refresh(names: seq<string>, lookups: map<string, seq<Lookup>>)
    returns (script: Option<seq<Command>>, resolved: map<string, seq<nat>>)
    requires forall name :: name in names ==> name in lookups
    ensures forall name :: name in resolved ==> name in lookups && Resolution(lookups[name], resolved[name])
    ensures script.Some? ==>
              && (forall name :: name in names ==> name in resolved)
              && script.value == RefreshScript(names, resolved)
    ensures script.None? <==> names == [] || exists i :: 0 <= i < |names| && Unresolvable(lookups[names[i]])
  {
    resolved := map[];
    for i := 0 to |names|
      invariant forall name :: name in resolved ==> name in lookups && Resolution(lookups[name], resolved[name])
      invariant forall k :: 0 <= k < i ==> names[k] in resolved && !Unresolvable(lookups[names[k]])
    {
      var current := Resolve(lookups[names[i]]);
      if current.None? {
        return None, resolved;
      }
      resolved := resolved[names[i] := current.value];
    }
    if |names| == 0 {
      return None, resolved;
    }
    var text: seq<Command> := [];
    for i := 0 to |names|
      invariant text == RefreshScript(names[..i], resolved)
    {
      text := text + [FlushSet(ALLOW_SET_PREFIX + names[i])];
      if |resolved[names[i]]| > 0 {
        text := text + [AddElements(ALLOW_SET_PREFIX + names[i], resolved[names[i]])];
      }
      assert names[..i + 1][..i] == names[..i];
    }
    assert names[..|names|] == names;
    return Some(text), resolved;
  }

  ghost predicate Unresolvable(lookups: seq<Lookup>) {
    AnyFailed(lookups) || (lookups != [] && forall a :: !Offered(lookups, a))
  }

  /** The sets once every allow set holds what its name resolved to. */
  function Replaced(sets: map<string, set<nat>>, names: seq<string>, resolved: map<string, seq<nat>>): map<string, set<nat>>
    requires forall name :: name in names ==> name in resolved
  {
    if names == [] then sets
    else
      var last := names[|names| - 1];
      Replaced(sets, names[..|names| - 1], resolved)[AllowSet(last) := AsSet(resolved[last])]
  }

  lemma {:induction false} ReplacedAt(sets: map<string, set<nat>>, names: seq<string>, resolved: map<string, seq<nat>>, i: nat)
    requires forall name :: name in names ==> name in resolved
    requires forall j, k :: 0 <= j < k < |names| ==> names[j] != names[k]
    requires i < |names|
    ensures AllowSet(names[i]) in Replaced(sets, names, resolved)
    ensures Replaced(sets, names, resolved)[AllowSet(names[i])] == AsSet(resolved[names[i]])
  {
    var last := names[|names| - 1];
    if i < |names| - 1 {
      ReplacedAt(sets, names[..|names| - 1], resolved, i);
      if AllowSet(names[i]) == AllowSet(last) {
        AllowSetInjective(names[i], last);
      }
    }
  }

  lemma SetCommandsEffect(state: Ruleset, name: string, ips: seq<nat>)
    requires AllowSet(name) in state.sets
    ensures RunsTo(state, SetCommands(name, ips), state.(sets := state.sets[AllowSet(name) := AsSet(ips)]))
  {
    var key := AllowSet(name);
    var flushed := state.(sets := state.sets[key := {}]);
    RunsOne(state, FlushSet(key));
    if ips == [] {
      assert SetCommands(name, ips) == [FlushSet(key)];
      assert AsSet(ips) == {};
    } else {
      var filled := flushed.(sets := flushed.sets[key := {} + AsSet(ips)]);
      RunsOne(flushed, AddElements(key, ips));
      RunsInTurn(state, [FlushSet(key)], flushed, [AddElements(key, ips)], filled);
      assert {} + AsSet(ips) == AsSet(ips);
      assert filled.sets == state.sets[key := AsSet(ips)];
    }
  }

  /** When every set exists, a refresh leaves in each exactly what its name
      resolved to, and touches neither the rules nor any other set. */
  lemma {:induction false} RefreshReplaces(state: Ruleset, names: seq<string>, resolved: map<string, seq<nat>>)
    requires forall name :: name in names ==> name in resolved
    ensures (forall name :: name in names ==> AllowSet(name) in state.sets) ==>
              RunsTo(state, RefreshScript(names, resolved), state.(sets := Replaced(state.sets, names, resolved)))
    ensures (forall name :: name in names ==> AllowSet(name) in state.sets) ==>
              Replaced(state.sets, names, resolved).Keys == state.sets.Keys
  {
    if names != [] && forall name :: name in names ==> AllowSet(name) in state.sets {
      var front, last := names[..|names| - 1], names[|names| - 1];
      RefreshReplaces(state, front, resolved);
      var between := state.(sets := Replaced(state.sets, front, resolved));
      assert AllowSet(last) in state.sets;
      SetCommandsEffect(between, last, resolved[last]);
      RunsInTurn(state, RefreshScript(front, resolved), between, SetCommands(last, resolved[last]),
                 state.(sets := Replaced(state.sets, names, resolved)));
    }
  }

  // Flushing a set that does not exist makes nft refuse the whole script.
  lemma {:induction false} MissingSetFails(state: Ruleset, script: seq<Command>, name: string)
    requires name !in state.sets && FlushSet(name) in script
    requires forall c :: c in script ==> c.FlushSet? || c.AddElements?
    ensures RunScript(state, script) == None
    decreases |script|
  {
    assert script[0] in script;
    if Apply(state, script[0]).Some? {
      assert script == [script[0]] + script[1..];
      MissingSetFails(Apply(state, script[0]).value, script[1..], name);
    }
  }

  // ---------- Runs of installs and refreshes ----------

  datatype Event =
    | Install(config: Config, names: seq<string>)
    | Refreshed(allowlists: seq<string>, lookups: map<string, seq<Lookup>>, resolved: map<string, seq<nat>>)
    | RefreshFailed

  ghost predicate PossibleEvent(event: Event) {
    match event
    case Install(config, names) => Lists(names, config.networks)
    case Refreshed(allowlists, lookups, resolved) =>
      forall name :: name in allowlists ==>
        name in resolved && name in lookups && Resolution(lookups[name], resolved[name])
    case RefreshFailed => true
  }

  function After(state: Ruleset, event: Event): Ruleset
    requires event.Install? ==> Lists(event.names, event.config.networks)
    requires event.Refreshed? ==> forall name :: name in event.allowlists ==> name in event.resolved
  {
    match event
    case Install(config, names) => Transaction(state, Script(config, names))
    case Refreshed(allowlists, _, resolved) => Transaction(state, RefreshScript(allowlists, resolved))
    case RefreshFailed => state
  }

  ghost predicate IsRun(states: seq<Ruleset>, events: seq<Event>) {
    && |states| == |events| + 1
    && states[0] == Ruleset([], map[])
    && (forall i :: 0 <= i < |events| ==> PossibleEvent(events[i]))
    && forall i :: 0 <= i < |events| ==> states[i + 1] == After(states[i], events[i])
  }

  // The configuration in force after the first `i` events.
  function InForce(events: seq<Event>, i: nat): Option<Event>
    requires i <= |events|
    ensures InForce(events, i).Some? ==> InForce(events, i).value.Install? && InForce(events, i).value in events
  {
    if i == 0 then None
    else if events[i - 1].Install? then Some(events[i - 1])
    else InForce(events, i - 1)
  }

  ghost predicate AllPublic(sets: map<string, set<nat>>) {
    forall name, a :: name in sets && a in sets[name] ==> !NonPublic(a)
  }

  ghost predicate KeepsRules(before: Ruleset, after: Ruleset) {
    after.rules == before.rules && (AllPublic(before.sets) ==> AllPublic(after.sets))
  }

  lemma ResolvedArePublic(lookups: seq<Lookup>, ips: seq<nat>)
    requires Resolution(lookups, ips)
    ensures forall a :: a in ips ==> !NonPublic(a)
  {
    forall a | a in ips ensures !NonPublic(a) {
      assert Offered(lookups, a);
      SameAddresses(a);
    }
  }

  lemma {:induction false} ScriptKeeps(state: Ruleset, script: seq<Command>)
    requires forall c :: c in script ==> c.FlushSet? || (c.AddElements? && forall a :: a in c.addresses ==> !NonPublic(a))
    ensures RunScript(state, script).Some? ==> KeepsRules(state, RunScript(state, script).value)
    decreases |script|
  {
    if script != [] && Apply(state, script[0]).Some? {
      assert script[0] in script;
      ScriptKeeps(Apply(state, script[0]).value, script[1..]);
    }
  }

  lemma {:induction false} RefreshScriptIsPublic(names: seq<string>, resolved: map<string, seq<nat>>)
    requires forall name :: name in names ==> name in resolved && forall a :: a in resolved[name] ==> !NonPublic(a)
    ensures forall c :: c in RefreshScript(names, resolved) ==>
              c.FlushSet? || (c.AddElements? && forall a :: a in c.addresses ==> !NonPublic(a))
  {
    if names != [] {
      RefreshScriptIsPublic(names[..|names| - 1], resolved);
    }
  }

  lemma InstallKeepsPublic(state: Ruleset, config: Config, names: seq<string>)
    requires Lists(names, config.networks) && AllPublic(state.sets)
    ensures var after := Transaction(state, Script(config, names));
            && AllPublic(after.sets)
            && after.rules == Added(Script(config, names))
  {
    InstallEffect(state, config, names);
    forall name, a | name in NetworkSets(names, config.networks, state.sets) && a in NetworkSets(names, config.networks, state.sets)[name]
      ensures !NonPublic(a)
    {
      NetworkSetsAt(names, config.networks, state.sets, name);
    }
  }

  lemma RefreshKeepsPublic(state: Ruleset, event: Event)
    requires event.Refreshed? && PossibleEvent(event) && AllPublic(state.sets)
    ensures After(state, event).rules == state.rules && AllPublic(After(state, event).sets)
  {
    forall name | name in event.allowlists
      ensures forall a :: a in event.resolved[name] ==> !NonPublic(a)
    {
      ResolvedArePublic(event.lookups[name], event.resolved[name]);
    }
    RefreshScriptIsPublic(event.allowlists, event.resolved);
    ScriptKeeps(state, RefreshScript(event.allowlists, event.resolved));
  }

  /** After any sequence of installs and refreshes, successful or not: all allow
      sets hold only public addresses, and the rules are those of the last
      install. */
  lemma {:induction false} EveryRunStaysPublic(states: seq<Ruleset>, events: seq<Event>, i: nat)
    requires IsRun(states, events) && i < |states|
    ensures AllPublic(states[i].sets)
    ensures states[i].rules
         == if InForce(events, i).None? then []
            else Added(Script(InForce(events, i).value.config, InForce(events, i).value.names))
  {
    if i > 0 {
      EveryRunStaysPublic(states, events, i - 1);
      var before, event := states[i - 1], events[i - 1];
      match event
      case Install(config, names) => InstallKeepsPublic(before, config, names);
      case Refreshed(_, _, _) => RefreshKeepsPublic(before, event);
      case RefreshFailed =>
    }
  }

  // A new flow from one of the bridges of an install to another interface, for an
  // IPv4 address that is not public.
  predicate Escapes(install: Event, packet: Packet)
    requires install.Install?
  {
    && ModeOf(install.config, packet.iif).Some?
    && NewFlow(packet) && packet.oif != packet.iif
    && packet.destination.V4? && NonPublic(packet.destination.bits)
  }

  function Forwards(state: Ruleset, packet: Packet): Option<Verdict> {
    Decide(ChainOf(state.rules, ContainerForward), state.sets, packet)
  }

  lemma InstalledNeverForwards(state: Ruleset, install: Event, packet: Packet)
    requires install.Install? && PossibleEvent(install) && Escapes(install, packet)
    requires AllPublic(state.sets) && state.rules == Added(Script(install.config, install.names))
    ensures Forwards(state, packet) != Some(Accept)
  {
    ChainDecidesByOwnMode(install.config, install.names, state.sets, packet);
  }

  /** So at no point of any run does the chain accept a new flow from one of the
      bridges in force to another interface with a non-public IPv4 destination. */
  lemma NeverToNonPublic(states: seq<Ruleset>, events: seq<Event>, i: nat, packet: Packet)
    requires IsRun(states, events) && i < |states| && InForce(events, i).Some?
    requires Escapes(InForce(events, i).value, packet)
    ensures Forwards(states[i], packet) != Some(Accept)
  {
    EveryRunStaysPublic(states, events, i);
    InstalledNeverForwards(states[i], InForce(events, i).value, packet);
  }

  predicate FromBridge(config: Config, packet: Packet) {
    packet.iif in config.networks || (config.shimUpstream && packet.iif == "shim-net")
  }

  /** And at every point of any run the input chain drops the new packets of the
      bridges in force, and decides about no others. */
  lemma HostStaysClosed(states: seq<Ruleset>, events: seq<Event>, i: nat, packet: Packet)
    requires IsRun(states, events) && i < |states| && InForce(events, i).Some?
    ensures Decide(ChainOf(states[i].rules, ContainerInput), states[i].sets, packet)
         == if packet.state == New && FromBridge(InForce(events, i).value.config, packet) then Some(Drop) else None
  {
    EveryRunStaysPublic(states, events, i);
    var install := InForce(events, i).value;
    NewPacketsToTheHostAreDropped(install.config, install.names, states[i].sets, packet);
  }
}
