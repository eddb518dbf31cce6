/**
 The sole owner of wait4: starting children and collecting the status of every
 child of PID 1, its own and adopted ones.

 Source: tinfoil/internal/pid1/supervisor/supervisor.go, Manager.

 The kernel moves between any two steps of the manager: children exit, orphans
 are adopted, and SIGCHLD is delivered into a channel that holds one token. A pid
 is free again as soon as its zombie has been collected.
 */
module Reaper {
  import opened Options

  type Pid = nat

  // A child, as opposed to its pid, which may be used again.
  type Instance = nat

  // ---------- The kernel ----------

  // The children not collected yet, every child's pid, the status of those that
  // have exited, and the signal on its way to the channel and in it.
  datatype Kernel = Kernel(
    unreaped: map<Pid, Instance>, pids: map<Instance, Pid>, statuses: map<Instance, int>, next: Instance,
    signal: bool, token: bool)

  datatype Event = Fork(pid: Pid) | Exits(pid: Pid, status: int) | Deliver

  ghost predicate KernelValid(k: Kernel) {
    && (forall p :: p in k.unreaped ==> k.unreaped[p] in k.pids && k.pids[k.unreaped[p]] == p)
    && (forall i :: i in k.pids ==> i < k.next)
    && (forall i :: i in k.statuses ==> i in k.pids)
  }

  predicate IsZombie(k: Kernel, pid: Pid) {
    pid in k.unreaped && k.unreaped[pid] in k.statuses
  }

  predicate NoZombie(k: Kernel) {
    forall p :: p in k.unreaped ==> !IsZombie(k, p)
  }

  // Something will make the manager look.
  predicate Ringing(k: Kernel) { k.signal || k.token }

  // A zombie that nothing will make the manager look for.
  predicate Forgotten(k: Kernel) { !NoZombie(k) && !Ringing(k) }

  function Happens(k: Kernel, event: Event): Kernel {
    match event
    case Fork(pid) =>
      if pid in k.unreaped then k
      else k.(unreaped := k.unreaped[pid := k.next], pids := k.pids[k.next := pid], next := k.next + 1)
    case Exits(pid, status) =>
      if pid !in k.unreaped || IsZombie(k, pid) then k
      else k.(statuses := k.statuses[k.unreaped[pid] := status], signal := true)
    case Deliver =>
      k.(signal := false, token := Ringing(k))
  }

  // What the kernel may have done between two states, as far as the manager cares.
  ghost predicate Later(k: Kernel, l: Kernel) {
    && k.next <= l.next
    && (forall p :: p in k.unreaped ==> p in l.unreaped && l.unreaped[p] == k.unreaped[p])
    && (forall p :: p in l.unreaped && p !in k.unreaped ==> l.unreaped[p] !in k.pids)
    && (forall i :: i in k.pids ==> i in l.pids && l.pids[i] == k.pids[i])
    && (forall i :: i in k.statuses ==> i in l.statuses && l.statuses[i] == k.statuses[i])
    && (Ringing(k) || NoZombie(l) || !NoZombie(k) || Ringing(l))
    && (Ringing(k) ==> Ringing(l))
  }

  lemma ForkLater(k: Kernel, pid: Pid)
    requires KernelValid(k)
    ensures KernelValid(Happens(k, Fork(pid))) && Later(k, Happens(k, Fork(pid)))
  {
  }

  lemma ExitLater(k: Kernel, pid: Pid, status: int)
    requires KernelValid(k)
    ensures KernelValid(Happens(k, Exits(pid, status))) && Later(k, Happens(k, Exits(pid, status)))
  {
  }

  lemma HappensLater(k: Kernel, event: Event)
    requires KernelValid(k)
    ensures KernelValid(Happens(k, event)) && Later(k, Happens(k, event))
  {
    match event
    case Fork(pid) => ForkLater(k, pid);
    case Exits(pid, status) => ExitLater(k, pid, status);
    case Deliver =>
  }

  function HappenAll(k: Kernel, events: seq<Event>): Kernel
    decreases |events|
  {
    if events == [] then k else HappenAll(Happens(k, events[0]), events[1..])
  }

  lemma {:induction false} HappenAllLater(k: Kernel, events: seq<Event>)
    requires KernelValid(k)
    ensures KernelValid(HappenAll(k, events)) && Later(k, HappenAll(k, events))
    decreases |events|
  {
    if events != [] {
      HappensLater(k, events[0]);
      HappenAllLater(Happens(k, events[0]), events[1..]);
      LaterStill(k, Happens(k, events[0]), HappenAll(k, events));
    }
  }

  lemma LaterStill(k: Kernel, l: Kernel, m: Kernel)
    requires KernelValid(k) && KernelValid(l) && Later(k, l) && Later(l, m)
    ensures Later(k, m)
  {
  }

  // ---------- The manager's books ----------

  datatype Process = Process(instance: Instance, name: string)
  datatype Exit = Exit(name: string, pid: Pid, status: int)

  // Every registered child is an unreaped child started under that name.
  ghost predicate Registered(k: Kernel, children: map<Pid, Process>, names: map<Instance, string>) {
    forall p :: p in children ==>
      && p in k.unreaped && k.unreaped[p] == children[p].instance
      && children[p].instance in names && names[children[p].instance] == children[p].name
  }

  // A process is done only when it has been collected, and with its own exit.
  ghost predicate Completed(k: Kernel, done: map<Instance, Exit>, names: map<Instance, string>) {
    && (forall i :: i in done ==>
          && i in names && i in k.pids && i in k.statuses
          && done[i] == Exit(names[i], k.pids[i], k.statuses[i]))
    && (forall p :: p in k.unreaped ==> k.unreaped[p] !in done)
  }

  // Every process that is not done is registered, but for the one being started.
  ghost predicate NoneLost(k: Kernel, children: map<Pid, Process>, done: map<Instance, Exit>, names: map<Instance, string>,
                           starting: Option<Instance>)
  {
    forall i :: i in names ==>
      && i in k.pids
      && (i in done || starting == Some(i) || (k.pids[i] in children && children[k.pids[i]].instance == i))
  }

  ghost predicate IsStarting(k: Kernel, children: map<Pid, Process>, names: map<Instance, string>, i: Instance) {
    i in names && i in k.pids && k.pids[i] in k.unreaped && k.unreaped[k.pids[i]] == i && k.pids[i] !in children
  }

  ghost predicate Books(k: Kernel, children: map<Pid, Process>, done: map<Instance, Exit>, names: map<Instance, string>,
                        starting: Option<Instance>)
  {
    && Registered(k, children, names) && Completed(k, done, names) && NoneLost(k, children, done, names, starting)
    && (starting.Some? ==> IsStarting(k, children, names, starting.value))
  }

  // Nothing the kernel does makes the books wrong.
  lemma BooksLater(k: Kernel, l: Kernel, children: map<Pid, Process>, done: map<Instance, Exit>,
                   names: map<Instance, string>, starting: Option<Instance>)
    requires KernelValid(k) && Later(k, l) && Books(k, children, done, names, starting)
    ensures Books(l, children, done, names, starting)
  {
  }

  class Manager {
    var kernel: Kernel

    // The children map, and the processes whose done channel is closed, with the
    // exit they were given.
    var children: map<Pid, Process>
    var done: map<Instance, Exit>

    // The names the manager's own processes were started with.
    ghost var names: map<Instance, string>

    // The last collection ended in a wait that broke.
    ghost var gaveUp: bool

    constructor ()
      ensures Valid(None) && Awake() && names == map[] && done == map[] && kernel == Kernel(map[], map[], map[], 0, false, false)
    {
      kernel := Kernel(map[], map[], map[], 0, false, false);
      children, done, names, gaveUp := map[], map[], map[], false;
    }

    // The invariant, while `starting` is being started.
    ghost predicate Valid(starting: Option<Instance>)
      reads this
    {
      KernelValid(kernel) && Books(kernel, children, done, names, starting)
    }

    /** No lost wakeup: a zombie the manager is not collecting has a token or a
        signal on its way, unless the last collection gave up. */
    ghost predicate Awake()
      reads this
    {
      NoZombie(kernel) || Ringing(kernel) || gaveUp
    }

    /** Whatever the kernel does between two steps of the manager. */
    method KernelMoves(events: seq<Event>, ghost starting: Option<Instance>)
      requires Valid(starting)
      modifies `kernel
      ensures Valid(starting) && kernel == HappenAll(old(kernel), events) && Later(old(kernel), kernel)
      ensures old(Awake()) ==> Awake()
    {
      HappenAllLater(kernel, events);
      BooksLater(kernel, HappenAll(kernel, events), children, done, names, starting);
      kernel := HappenAll(kernel, events);
    }

    // ---------- Collecting ----------

    // complete: closes the done channel, which can be closed only once.
    method Complete(process: Process, exit: Exit)
      requires process.instance !in done
      modifies `done
      ensures done == old(done)[process.instance := exit]
    {
      done := done[process.instance := exit];
    }

    // A child just collected: completed if it is owned, dropped if it was adopted.
    method Settle(pid: Pid, status: int, ghost before: Kernel)
      requires KernelValid(before) && Books(before, children, done, names, None)
      requires IsZombie(before, pid) && before.statuses[before.unreaped[pid]] == status
      requires kernel == before.(unreaped := before.unreaped - {pid})
      modifies `children, `done
      ensures Valid(None)
      ensures done == if before.unreaped[pid] in names
                      then old(done)[before.unreaped[pid] := Exit(names[before.unreaped[pid]], pid, status)]
                      else old(done)
    {
      ghost var instance := before.unreaped[pid];
      if pid !in children {
        NotOwned(before, children, done, names, pid);
        return;
      }
      var process := children[pid];
      SettleBooks(before, children, done, names, pid);
      children := children - {pid};
      Complete(process, Exit(process.name, pid, status));
    }

    static lemma NotOwned(k: Kernel, children: map<Pid, Process>, done: map<Instance, Exit>, names: map<Instance, string>, pid: Pid)
      requires KernelValid(k) && Books(k, children, done, names, None) && IsZombie(k, pid) && pid !in children
      ensures k.unreaped[pid] !in names
      ensures var l := k.(unreaped := k.unreaped - {pid}); KernelValid(l) && Books(l, children, done, names, None)
    {
    }

    static lemma SettleBooks(k: Kernel, children: map<Pid, Process>, done: map<Instance, Exit>, names: map<Instance, string>, pid: Pid)
      requires KernelValid(k) && Books(k, children, done, names, None) && IsZombie(k, pid) && pid in children
      ensures var i := k.unreaped[pid];
              var l := k.(unreaped := k.unreaped - {pid});
              && i in names && names[i] == children[pid].name && i == children[pid].instance && i !in done
              && KernelValid(l)
              && Books(l, children - {pid}, done[i := Exit(names[i], pid, k.statuses[i])], names, None)
    {
    }

    /** One turn of the collecting loop, from waitNoHang on: whether it is the last.
        When it is, a zombie is forgotten exactly if the wait broke while there was
        one and nothing was ringing. */
    method CollectOne(outcome: WaitOutcome) returns (last: bool)
      requires Valid(None)
      modifies `kernel, `children, `done, `gaveUp
      ensures Valid(None)
      ensures forall i :: i in old(done) ==> i in done && done[i] == old(done)[i]
      ensures last <==> outcome == Broken || (outcome == Answered && NoZombie(old(kernel)))
      ensures last ==> kernel == old(kernel) && done == old(done) && (gaveUp <==> outcome == Broken)
      ensures last ==> (Forgotten(kernel) <==> outcome == Broken && Forgotten(old(kernel)))
      ensures outcome == Interrupted ==> kernel == old(kernel) && done == old(done)
      ensures !last && outcome == Answered ==> |kernel.unreaped| < |old(kernel).unreaped|
    {
      if outcome == Interrupted {
        return false;
      }
      if outcome == Broken {
        gaveUp := true;
        return true;
      }
      gaveUp := false;
      if !NoZombie(kernel) {
        var pid :| pid in kernel.unreaped && IsZombie(kernel, pid);
        ghost var before := kernel;
        var status := kernel.statuses[kernel.unreaped[pid]];
        Fewer(kernel.unreaped, pid);
        kernel := kernel.(unreaped := kernel.unreaped - {pid});
        Settle(pid, status, before);
        return false;
      }
      // No child is ready, or there is none.
      return true;
    }

    static lemma Fewer(unreaped: map<Pid, Instance>, pid: Pid)
      requires pid in unreaped
      ensures |unreaped - {pid}| < |unreaped|
    {
      assert (unreaped - {pid}).Keys == unreaped.Keys - {pid};
      assert |(unreaped - {pid}).Keys| == |unreaped - {pid}| && |unreaped.Keys| == |unreaped|;
    }

    // The kernel's moves before a wait, and the wait.
    method TakeTurn(turn: CollectTurn) returns (last: bool)
      requires Valid(None)
      modifies `kernel, `children, `done, `gaveUp
      ensures Valid(None)
      ensures forall i :: i in old(done) ==> i in done && done[i] == old(done)[i]
      ensures last ==> kernel == HappenAll(old(kernel), turn.events) && done == old(done)
      ensures last ==> (gaveUp <==> turn.outcome == Broken) && (gaveUp || NoZombie(kernel))
      ensures turn.outcome == Broken ==> last
      ensures !last && turn == IDLE_TURN ==> |kernel.unreaped| < |old(kernel).unreaped|
    {
      KernelMoves(turn.events, None);
      last := CollectOne(turn.outcome);
    }

    /** reapChildren: collects until the kernel has nothing more to give, or a wait
        breaks. The kernel goes on meanwhile. Once the turns given are used up, the
        kernel answers and rests. */
    method ReapChildren(turns: seq<CollectTurn>) returns (ghost used: nat)
      requires Valid(None)
      modifies `kernel, `children, `done, `gaveUp
      ensures Valid(None)
      ensures forall i :: i in old(done) ==> i in done && done[i] == old(done)[i]
      ensures gaveUp || NoZombie(kernel)
      ensures 0 < used && (gaveUp <==> TurnAt(turns, used - 1).outcome == Broken)
      ensures forall k :: 0 <= k < used - 1 ==> TurnAt(turns, k).outcome != Broken
      ensures used == 1 ==> kernel == HappenAll(old(kernel), TurnAt(turns, 0).events) && done == old(done)
      ensures NeverBreaks(turns) ==> !gaveUp && NoZombie(kernel)
    {
      var k := 0;
      var last := false;
      while !last
        invariant 0 <= k && Valid(None)
        invariant forall i :: i in old(done) ==> i in done && done[i] == old(done)[i]
        invariant last ==> 0 < k && (gaveUp || NoZombie(kernel)) && (gaveUp <==> TurnAt(turns, k - 1).outcome == Broken)
        invariant forall i :: 0 <= i < (if last then k - 1 else k) ==> TurnAt(turns, i).outcome != Broken
        invariant k == 0 ==> !last && kernel == old(kernel) && done == old(done)
        invariant last && k == 1 ==> kernel == HappenAll(old(kernel), TurnAt(turns, 0).events) && done == old(done)
        decreases if k < |turns| then |turns| - k else 0, |kernel.unreaped|, !last
      {
        last := TakeTurn(TurnAt(turns, k));
        k := k + 1;
      }
      used := k;
    }

    // Waiting fails only with EINTR or ECHILD.
    static predicate NeverBreaks(turns: seq<CollectTurn>) {
      forall turn :: turn in turns ==> turn.outcome != Broken
    }

    static function TurnAt(turns: seq<CollectTurn>, k: nat): CollectTurn {
      if k < |turns| then turns[k] else IDLE_TURN
    }

    // ---------- Starting a child, and the loop ----------

    method ForkChild(pid: Pid, name: string) returns (instance: Instance)
      requires Valid(None) && pid !in kernel.unreaped
      modifies `kernel, `names
      ensures Valid(Some(instance)) && kernel.pids[instance] == pid
      ensures kernel == Happens(old(kernel), Fork(pid)) && instance == old(kernel).next
      ensures instance !in old(names) && names == old(names)[instance := name]
      ensures old(Awake()) ==> Awake()
    {
      instance := kernel.next;
      ghost var before := kernel;
      ForkLater(kernel, pid);
      BooksLater(kernel, Happens(kernel, Fork(pid)), children, done, names, None);
      kernel := Happens(kernel, Fork(pid));
      assert instance !in names && pid !in children;
      names := names[instance := name];
    }

    // The entry is free, whoever had this pid before.
    method Register(pid: Pid, instance: Instance, name: string)
      requires Valid(Some(instance)) && kernel.pids[instance] == pid && names[instance] == name
      modifies `children
      ensures Valid(None) && pid !in old(children)
    {
      children := children[pid := Process(instance, name)];
    }

    /** start: refused without a name or an absolute path; otherwise the child, if
        the kernel has a free pid for it, is registered before any collection,
        however soon it exits. */
    method Start(name: string, path: string, pid: Option<Pid>, events: seq<Event>) returns (process: Option<Instance>)
      requires Valid(None)
      modifies `kernel, `children, `names
      ensures Valid(None) && done == old(done) && (old(Awake()) ==> Awake())
      ensures process.Some? <==> name != "" && path != "" && path[0] == '/' && pid.Some? && pid.value !in old(kernel).unreaped
      ensures process.Some? ==> process.value == old(kernel).next && process.value !in old(names)
      ensures kernel == if process.Some? then HappenAll(Happens(old(kernel), Fork(pid.value)), events) else old(kernel)
      ensures names == if process.Some? then old(names)[process.value := name] else old(names)
    {
      if name == "" || path == "" || path[0] != '/' {
        return None;
      }
      if pid == None || pid.value in kernel.unreaped {
        return None;
      }
      var instance := ForkChild(pid.value, name);
      KernelMoves(events, Some(instance));
      Register(pid.value, instance, name);
      process := Some(instance);
    }

    // No process is forgotten, and none completes a second time.
    twostate predicate Lasting()
      reads this
    {
      && (forall i :: i in old(done) ==> i in done && done[i] == old(done)[i])
      && (forall i :: i in old(names) ==> i in names && names[i] == old(names)[i])
    }

    /** One turn of the loop, or of the kernel while the loop is idle. A forgotten
        zombie is not collected before something rings. */
    method Turn(action: Action)
      requires Valid(None) && Awake()
      modifies this
      ensures Valid(None) && Awake() && Lasting()
      ensures action.Receive? && !old(kernel).token ==> kernel == old(kernel) && done == old(done) && gaveUp == old(gaveUp)
      ensures action.Receive? && old(kernel).token && action.turns != [] && action.turns[0] == CollectTurn([], Broken) ==>
                kernel == old(kernel).(token := false) && done == old(done) && gaveUp
      ensures !old(gaveUp) && (action.Receive? ==> NeverBreaks(action.turns)) ==> !gaveUp
    {
      match action
      case StartOne(name, path, pid, events) => var process := Start(name, path, pid, events);
      case Idle(events) => KernelMoves(events, None);
      case Receive(turns) =>
        if kernel.token {
          kernel := kernel.(token := false);
          ghost var used := ReapChildren(turns);
          assert used > 1 ==> TurnAt(turns, 0).outcome != Broken;
        }
    }

    /** Every run of the manager's loop, whatever the kernel does meanwhile. */
    method EveryRun(first: seq<CollectTurn>, actions: seq<Action>)
      requires Valid(None)
      modifies this
      ensures Valid(None) && Awake() && Lasting()
      ensures NeverBreaks(first) && (forall action :: action in actions && action.Receive? ==> NeverBreaks(action.turns)) ==>
                NoZombie(kernel) || Ringing(kernel)
    {
      ghost var used := ReapChildren(first);
      for k := 0 to |actions|
        invariant Valid(None) && Awake() && Lasting()
        invariant NeverBreaks(first) && (forall i :: 0 <= i < k && actions[i].Receive? ==> NeverBreaks(actions[i].turns)) ==> !gaveUp
      {
        Turn(actions[k]);
      }
    }
  }

  // What a wait comes to: an answer, EINTR, or an error that is neither EINTR nor
  // ECHILD.
  datatype WaitOutcome = Answered | Interrupted | Broken

  // What the kernel does before a wait, and what the wait comes to.
  datatype CollectTurn = CollectTurn(events: seq<Event>, outcome: WaitOutcome)

  const IDLE_TURN := CollectTurn([], Answered)

  datatype Action =
    | StartOne(name: string, path: string, pid: Option<Pid>, events: seq<Event>)
    | Receive(turns: seq<CollectTurn>)
    | Idle(events: seq<Event>)

  /** A run that forgets a zombie: the child exits, the token is taken, and the wait
      breaks. */
  method ForgottenZombie() returns (manager: Manager)
    ensures fresh(manager) && manager.Valid(None) && manager.gaveUp && Forgotten(manager.kernel)
    ensures 0 in manager.names && 0 !in manager.done
  {
    manager := new Manager();
    var process := manager.Start("child", "/child", Some(1), [Exits(1, 0), Deliver]);
    OneZombie(Kernel(map[], map[], map[], 0, false, false));
    manager.Turn(Receive([CollectTurn([], Broken)]));
  }

  lemma OneZombie(k: Kernel)
    requires k == Kernel(map[], map[], map[], 0, false, false)
    ensures var l := HappenAll(Happens(k, Fork(1)), [Exits(1, 0), Deliver]);
            IsZombie(l, 1) && l.token && !l.signal
  {
    var forked := Happens(k, Fork(1));
    var exited := Happens(forked, Exits(1, 0));
    assert [Exits(1, 0), Deliver][1..] == [Deliver];
    assert [Deliver][1..] == [];
    assert HappenAll(exited, [Deliver]) == HappenAll(Happens(exited, Deliver), []);
  }
}
