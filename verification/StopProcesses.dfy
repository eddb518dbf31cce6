/**
 Stopping processes: SIGTERM to the groups whose cgroups are not empty, a grace
 period, cgroup.kill to those that remain, another grace period.

 Source: tinfoil/internal/pid1/supervisor/supervisor.go, stopProcesses and
 waitCgroups.

 What a cgroup holds is the kernel's affair and may change at any time, so every
 look at it and every request may come out either way; the trace records how, and
 when a grace period was over.
 */
module StopProcesses {
  import Sequences

  // A process, by identity.
  type Process = nat

  datatype Seen = Populated | Empty | Unreadable

  datatype Event =
    | Probe(process: Process, seen: Seen)
    | Remove(process: Process, ok: bool)
    | Term(process: Process, ok: bool)
    | Kill(process: Process, ok: bool)
    | TimeUp(grace: int)

  datatype Error = Failed(event: Event) | Remained(process: Process)

  predicate IsFailure(event: Event) {
    match event
    case Probe(_, seen) => seen == Unreadable
    case Remove(_, ok) => !ok
    case Term(_, ok) => !ok
    case Kill(_, ok) => !ok
    case TimeUp(_) => false
  }

  function FailureOf(event: Event): (errs: seq<Error>) {
    if IsFailure(event) then [Failed(event)] else []
  }

  // The errors a trace gives rise to, in its order.
  function Failures(trace: seq<Event>): (errs: seq<Error>) {
    if trace == [] then []
    else Failures(trace[..|trace| - 1]) + FailureOf(trace[|trace| - 1])
  }

  lemma {:induction false} NoFailures(trace: seq<Event>)
    ensures Failures(trace) == [] <==> forall e :: e in trace ==> !IsFailure(e)
  {
    if trace != [] {
      var front, last := trace[..|trace| - 1], trace[|trace| - 1];
      NoFailures(front);
      assert trace == front + [last];
    }
  }

  lemma {:induction false} FailuresOfBoth(first: seq<Event>, second: seq<Event>)
    ensures Failures(first + second) == Failures(first) + Failures(second)
  {
    var all := first + second;
    if second == [] {
      assert all == first;
    } else {
      var front, last := second[..|second| - 1], second[|second| - 1];
      FailuresOfBoth(first, front);
      assert all[..|all| - 1] == first + front && all[|all| - 1] == last;
      Sequences.ConcatIsAssociative(Failures(first), Failures(front), FailureOf(last));
    }
  }

  // A trace of no signals.
  predicate OnlyLooks(trace: seq<Event>) {
    forall e :: e in trace ==> e.Probe? || e.Remove? || e.TimeUp?
  }

  predicate OnlyTerms(trace: seq<Event>) {
    forall e :: e in trace ==> e.Term?
  }

  predicate OnlyKills(trace: seq<Event>) {
    forall e :: e in trace ==> e.Kill?
  }

  lemma Grow(start: seq<Event>, added: seq<Event>, more: seq<Event>)
    ensures (start + added) + more == start + (added + more)
    ensures Failures(added + more) == Failures(added) + Failures(more)
    ensures OnlyLooks(added) && OnlyLooks(more) ==> OnlyLooks(added + more)
    ensures OnlyTerms(added) && OnlyTerms(more) ==> OnlyTerms(added + more)
    ensures OnlyKills(added) && OnlyKills(more) ==> OnlyKills(added + more)
  {
    Sequences.ConcatIsAssociative(start, added, more);
    FailuresOfBoth(added, more);
  }

  lemma FailuresOfOneMore(trace: seq<Event>, event: Event)
    ensures Failures(trace + [event]) == Failures(trace) + FailureOf(event)
  {
    assert (trace + [event])[..|trace|] == trace;
  }

  // Nobody is signalled once seen empty, and nobody is killed who was not asked
  // to terminate first and seen again since.
  ghost predicate Proper(trace: seq<Event>) {
    forall k :: 0 <= k < |trace| ==> ProperAt(trace, k)
  }

  ghost predicate ProperAt(trace: seq<Event>, k: nat)
    requires k < |trace|
  {
    match trace[k]
    case Probe(_, _) => true
    case Remove(p, _) => k > 0 && trace[k - 1] == Probe(p, Empty)
    case Term(p, _) => Probe(p, Empty) !in trace[..k] && (forall e :: e in trace[..k] ==> !e.Kill?)
    case Kill(p, _) => Probe(p, Empty) !in trace[..k] && AskedThenSeen(trace[..k], p)
    case TimeUp(_) => true
  }

  predicate Asked(trace: seq<Event>, p: Process) {
    Term(p, true) in trace || Term(p, false) in trace
  }

  predicate Killed(trace: seq<Event>, p: Process) {
    Kill(p, true) in trace || Kill(p, false) in trace
  }

  // Seen, and not empty.
  predicate Looked(trace: seq<Event>, p: Process) {
    Probe(p, Populated) in trace || Probe(p, Unreadable) in trace
  }

  ghost predicate AskedThenSeen(trace: seq<Event>, p: Process) {
    exists n :: 0 <= n <= |trace| && Asked(trace[..n], p) && Looked(trace[n..], p)
  }

  ghost predicate KilledThenSeen(trace: seq<Event>, p: Process) {
    exists n :: 0 <= n <= |trace| && Killed(trace[..n], p) && Looked(trace[n..], p)
  }

  lemma NowSeen(trace: seq<Event>, added: seq<Event>, p: Process)
    requires Looked(added, p)
    ensures Asked(trace, p) ==> AskedThenSeen(trace + added, p)
    ensures Killed(trace, p) ==> KilledThenSeen(trace + added, p)
  {
    var n := |trace|;
    assert (trace + added)[..n] == trace && (trace + added)[n..] == added;
  }

  lemma StillSeen(trace: seq<Event>, added: seq<Event>, p: Process)
    requires AskedThenSeen(trace, p)
    ensures AskedThenSeen(trace + added, p)
  {
    var n :| 0 <= n <= |trace| && Asked(trace[..n], p) && Looked(trace[n..], p);
    assert (trace + added)[..n] == trace[..n] && (trace + added)[n..] == trace[n..] + added;
  }

  predicate Removed(trace: seq<Event>, p: Process) {
    Remove(p, true) in trace || Remove(p, false) in trace
  }

  lemma Extend(trace: seq<Event>, event: Event)
    requires Proper(trace)
    requires ProperAt(trace + [event], |trace|)
    ensures Proper(trace + [event])
  {
    var longer := trace + [event];
    forall k | 0 <= k < |longer|
      ensures ProperAt(longer, k)
    {
      if k < |trace| {
        assert ProperAt(trace, k) && longer[..k] == trace[..k];
      }
    }
  }

  // What is known of the processes of a stop: whoever has been seen empty had its
  // cgroup removed, or at least tried, and the others are pending.
  ghost predicate Tracks(trace: seq<Event>, processes: set<Process>, pending: set<Process>) {
    && Proper(trace)
    && (forall e :: e in trace ==> e.TimeUp? || e.process in processes)
    && (forall p :: p in pending <==> p in processes && Probe(p, Empty) !in trace)
    && (forall p :: p in processes && p !in pending ==> Removed(trace, p))
  }

  lemma TracksMore(trace: seq<Event>, processes: set<Process>, pending: set<Process>, event: Event)
    requires Tracks(trace, processes, pending) && (event.TimeUp? || event.process in pending)
    requires !(event.Probe? && event.seen == Empty) && ProperAt(trace + [event], |trace|)
    ensures Tracks(trace + [event], processes, pending)
  {
    Extend(trace, event);
    var longer := trace + [event];
    forall p | p in processes && p !in pending
      ensures Removed(longer, p)
    {
      assert Removed(trace, p);
    }
  }

  lemma TracksRemoval(trace: seq<Event>, processes: set<Process>, pending: set<Process>, p: Process, ok: bool)
    requires Tracks(trace, processes, pending) && p in pending
    ensures Tracks(trace + [Probe(p, Empty)] + [Remove(p, ok)], processes, pending - {p})
  {
    Extend(trace, Probe(p, Empty));
    Extend(trace + [Probe(p, Empty)], Remove(p, ok));
    var longer := trace + [Probe(p, Empty)] + [Remove(p, ok)];
    assert longer[|trace|] == Probe(p, Empty) && longer[|trace| + 1] == Remove(p, ok);
    forall q | q in processes && q !in pending - {p}
      ensures Removed(longer, q)
    {
      assert q != p ==> Removed(trace, q);
    }
  }

  // The five parts of a stop, one after another: a look, the requests to terminate,
  // the first wait, the kills and the second wait.
  datatype Phases = Phases(first: seq<Event>, asks: seq<Event>, wait: seq<Event>, kills: seq<Event>, last: seq<Event>)

  predicate EndsWith(trace: seq<Event>, event: Event) {
    trace != [] && trace[|trace| - 1] == event
  }

  // Nobody is killed before the first grace period is over, and nobody is given up
  // before the second one is.
  ghost predicate InPhases(trace: seq<Event>, phases: Phases, termGrace: int, killGrace: int, remain: bool) {
    && trace == phases.first + phases.asks + phases.wait + phases.kills + phases.last
    && OnlyLooks(phases.first) && OnlyLooks(phases.wait) && OnlyLooks(phases.last)
    && OnlyTerms(phases.asks) && OnlyKills(phases.kills)
    && (forall grace :: TimeUp(grace) !in phases.first)
    && (phases.kills != [] && termGrace > 0 ==> EndsWith(phases.wait, TimeUp(termGrace)))
    && (remain && killGrace > 0 ==> EndsWith(phases.last, TimeUp(killGrace)))
  }

  predicate AllSeenEmpty(trace: seq<Event>, given: seq<Process>) {
    forall p :: p in given ==> Probe(p, Empty) in trace
  }

  predicate NoRepeats(errs: seq<Error>) {
    forall i, j :: 0 <= i < j < |errs| ==> errs[i] != errs[j]
  }

  class Stopper {
    // What has been seen and requested since the stop began.
    var trace: seq<Event>

    constructor ()
      ensures trace == []
    {
      trace := [];
    }

    // One look, and the removal if it was empty.
    method Visit(ghost processes: set<Process>, left: set<Process>, p: Process)
      returns (remaining: set<Process>, errs: seq<Error>, ghost added: seq<Event>)
      requires Tracks(trace, processes, left) && p in left
      modifies this
      ensures trace == old(trace) + added && errs == Failures(added)
      ensures OnlyLooks(added) && forall grace :: TimeUp(grace) !in added
      ensures left - {p} <= remaining <= left && Tracks(trace, processes, remaining)
      ensures p in remaining ==> Looked(added, p)
    {
      // cgroupPopulated.
      var seen: Seen := *;
      added, errs, remaining := [Probe(p, seen)], [], left;
      FailuresOfOneMore([], Probe(p, seen));
      assert [] + [Probe(p, seen)] == added;
      ghost var before := trace;
      trace := trace + [Probe(p, seen)];
      if seen != Empty {
        if seen == Unreadable {
          errs := [Failed(Probe(p, seen))];
        }
        TracksMore(before, processes, left, Probe(p, seen));
        return;
      }
      // removeCgroup.
      var ok: bool := *;
      trace := trace + [Remove(p, ok)];
      TracksRemoval(before, processes, left, p, ok);
      FailuresOfOneMore(added, Remove(p, ok));
      added := added + [Remove(p, ok)];
      if !ok {
        errs := [Failed(Remove(p, ok))];
      }
      remaining := left - {p};
    }

    /** One pass over the pending processes. */
    method Check(ghost processes: set<Process>, pending: set<Process>)
      returns (left: set<Process>, errs: seq<Error>, ghost added: seq<Event>)
      requires Tracks(trace, processes, pending)
      modifies this
      ensures left <= pending && Tracks(trace, processes, left)
      ensures forall p :: p in left ==> Looked(added, p)
      ensures trace == old(trace) + added && errs == Failures(added)
      ensures OnlyLooks(added) && forall grace :: TimeUp(grace) !in added
    {
      left, errs, added := pending, [], [];
      var todo := pending;
      while todo != {}
        invariant todo <= left <= pending && Tracks(trace, processes, left)
        invariant forall p :: p in left && p !in todo ==> Looked(added, p)
        invariant trace == old(trace) + added && errs == Failures(added)
        invariant OnlyLooks(added) && forall grace :: TimeUp(grace) !in added
        decreases |todo|
      {
        var p :| p in todo;
        todo := todo - {p};
        var more;
        ghost var visited;
        left, more, visited := Visit(processes, left, p);
        Grow(old(trace), added, visited);
        added := added + visited;
        errs := errs + more;
      }
    }

    /** waitCgroups: returns with those still pending when the grace period is over,
        after any number of ticks, or with none as soon as there are none. */
    method WaitCgroups(ghost processes: set<Process>, given: set<Process>, grace: int)
      returns (pending: set<Process>, errs: seq<Error>, ghost added: seq<Event>)
      requires Tracks(trace, processes, given)
      modifies this
      ensures pending <= given && Tracks(trace, processes, pending)
      ensures forall p :: p in pending ==> Looked(added, p)
      ensures trace == old(trace) + added && errs == Failures(added)
      ensures OnlyLooks(added)
      ensures grace <= 0 ==> forall g :: TimeUp(g) !in added
      ensures pending != {} && grace > 0 ==> EndsWith(added, TimeUp(grace))
    {
      pending, errs, added := Check(processes, given);
      if pending == {} || grace <= 0 {
        return;
      }
      var ticks: nat := *;
      while pending != {}
        invariant pending <= given && Tracks(trace, processes, pending)
        invariant forall p :: p in pending ==> Looked(added, p)
        invariant trace == old(trace) + added && errs == Failures(added)
        invariant OnlyLooks(added)
        decreases ticks
      {
        if ticks == 0 {
          TimePasses(processes, pending, grace);
          Grow(old(trace), added, [TimeUp(grace)]);
          FailuresOfOneMore([], TimeUp(grace));
          added := added + [TimeUp(grace)];
          return;
        }
        ticks := ticks - 1;
        var more;
        ghost var checked;
        pending, more, checked := Check(processes, pending);
        Grow(old(trace), added, checked);
        added := added + checked;
        errs := errs + more;
      }
    }

    // The timeout of a wait.
    method TimePasses(ghost processes: set<Process>, ghost pending: set<Process>, grace: int)
      requires Tracks(trace, processes, pending)
      modifies this
      ensures trace == old(trace) + [TimeUp(grace)] && Tracks(trace, processes, pending)
    {
      TracksMore(trace, processes, pending, TimeUp(grace));
      trace := trace + [TimeUp(grace)];
    }

    // SIGTERM to one process group.
    method Ask(ghost processes: set<Process>, ghost pending: set<Process>, p: Process) returns (ok: bool)
      requires Tracks(trace, processes, pending) && p in pending
      requires forall e :: e in trace ==> !e.Kill?
      modifies this
      ensures trace == old(trace) + [Term(p, ok)] && Tracks(trace, processes, pending)
    {
      ok := *;
      assert (trace + [Term(p, ok)])[..|trace|] == trace;
      TracksMore(trace, processes, pending, Term(p, ok));
      trace := trace + [Term(p, ok)];
    }

    // cgroup.kill for one.
    method KillOne(ghost processes: set<Process>, ghost pending: set<Process>, p: Process) returns (ok: bool)
      requires Tracks(trace, processes, pending) && p in pending
      requires forall q :: q in pending ==> AskedThenSeen(trace, q)
      modifies this
      ensures trace == old(trace) + [Kill(p, ok)] && Tracks(trace, processes, pending)
      ensures forall q :: q in pending ==> AskedThenSeen(trace, q)
      ensures Killed(trace, p) && forall q :: Killed(old(trace), q) ==> Killed(trace, q)
    {
      ok := *;
      var event := Kill(p, ok);
      assert (trace + [event])[..|trace|] == trace;
      TracksMore(trace, processes, pending, event);
      forall q | q in pending
        ensures AskedThenSeen(trace + [event], q)
      {
        StillSeen(trace, [event], q);
      }
      trace := trace + [event];
      assert event in trace;
    }

    method TermAll(ghost processes: set<Process>, pending: set<Process>)
      returns (errs: seq<Error>, ghost added: seq<Event>)
      requires Tracks(trace, processes, pending)
      requires forall e :: e in trace ==> !e.Kill?
      modifies this
      ensures Tracks(trace, processes, pending)
      ensures trace == old(trace) + added && errs == Failures(added) && OnlyTerms(added)
      ensures forall e :: e in trace ==> !e.Kill?
      ensures forall p :: p in pending ==> Asked(trace, p)
    {
      errs, added := [], [];
      var todo := pending;
      while todo != {}
        invariant todo <= pending && Tracks(trace, processes, pending)
        invariant trace == old(trace) + added && errs == Failures(added) && OnlyTerms(added)
        invariant forall e :: e in trace ==> !e.Kill?
        invariant forall p :: p in pending && p !in todo ==> Asked(trace, p)
        decreases |todo|
      {
        var p :| p in todo;
        todo := todo - {p};
        var ok := Ask(processes, pending, p);
        assert Term(p, ok) in trace;
        FailuresOfOneMore(added, Term(p, ok));
        Grow(old(trace), added, [Term(p, ok)]);
        added := added + [Term(p, ok)];
        if !ok {
          errs := errs + [Failed(Term(p, ok))];
        }
      }
    }

    method KillAll(ghost processes: set<Process>, pending: set<Process>)
      returns (errs: seq<Error>, ghost added: seq<Event>)
      requires Tracks(trace, processes, pending)
      requires forall p :: p in pending ==> AskedThenSeen(trace, p)
      modifies this
      ensures Tracks(trace, processes, pending)
      ensures trace == old(trace) + added && errs == Failures(added) && OnlyKills(added)
      ensures pending == {} ==> added == []
      ensures forall p :: p in pending ==> Killed(trace, p)
    {
      errs, added := [], [];
      var todo := pending;
      while todo != {}
        invariant todo <= pending && Tracks(trace, processes, pending)
        invariant trace == old(trace) + added && errs == Failures(added) && OnlyKills(added)
        invariant pending == {} ==> added == []
        invariant forall p :: p in pending ==> AskedThenSeen(trace, p)
        invariant forall p :: p in pending && p !in todo ==> Killed(trace, p)
        decreases |todo|
      {
        var p :| p in todo;
        todo := todo - {p};
        var ok := KillOne(processes, pending, p);
        FailuresOfOneMore(added, Kill(p, ok));
        Grow(old(trace), added, [Kill(p, ok)]);
        added := added + [Kill(p, ok)];
        if !ok {
          errs := errs + [Failed(Kill(p, ok))];
        }
      }
    }

    method Leftovers(pending: set<Process>) returns (errs: seq<Error>)
      ensures forall e :: e in errs <==> e.Remained? && e.process in pending
      ensures NoRepeats(errs)
    {
      errs := [];
      var todo := pending;
      while todo != {}
        invariant todo <= pending
        invariant forall e :: e in errs <==> e.Remained? && e.process in pending - todo
        invariant NoRepeats(errs)
        decreases |todo|
      {
        var p :| p in todo;
        todo := todo - {p};
        assert Remained(p) !in errs;
        errs := errs + [Remained(p)];
      }
    }

    // The escalation: what is still pending after both graces was asked and killed.
    method Escalate(processes: set<Process>, termGrace: int, killGrace: int)
      returns (pending: set<Process>, errs: seq<Error>, ghost phases: Phases)
      requires trace == []
      modifies this
      ensures Tracks(trace, processes, pending) && errs == Failures(trace)
      ensures forall p :: p in pending ==> KilledThenSeen(trace, p)
      ensures InPhases(trace, phases, termGrace, killGrace, pending != {})
    {
      ghost var first, asks, wait, kills, last;
      pending, errs, first := WaitCgroups(processes, processes, 0);
      assert trace == first;
      var more;
      more, asks := TermAll(processes, pending);
      FailuresOfBoth(first, asks);
      errs := errs + more;
      ghost var at := trace;
      pending, more, wait := WaitCgroups(processes, pending, termGrace);
      FailuresOfBoth(at, wait);
      forall p | p in pending
        ensures AskedThenSeen(trace, p)
      {
        NowSeen(at, wait, p);
      }
      pending, errs, kills, last := Finish(processes, pending, killGrace, errs + more);
      phases := Phases(first, asks, wait, kills, last);
    }

    method Finish(ghost processes: set<Process>, given: set<Process>, killGrace: int, before: seq<Error>)
      returns (pending: set<Process>, errs: seq<Error>, ghost kills: seq<Event>, ghost last: seq<Event>)
      requires Tracks(trace, processes, given) && before == Failures(trace)
      requires forall p :: p in given ==> AskedThenSeen(trace, p)
      modifies this
      ensures Tracks(trace, processes, pending) && errs == Failures(trace) && pending <= given
      ensures forall p :: p in pending ==> KilledThenSeen(trace, p)
      ensures trace == old(trace) + kills + last && OnlyLooks(last)
      ensures OnlyKills(kills) && (given == {} ==> kills == [])
      ensures pending != {} && killGrace > 0 ==> EndsWith(last, TimeUp(killGrace))
    {
      ghost var at := trace;
      var more;
      more, kills := KillAll(processes, given);
      FailuresOfBoth(at, kills);
      errs := before + more;
      at := trace;
      pending, more, last := WaitCgroups(processes, given, killGrace);
      FailuresOfBoth(at, last);
      errs := errs + more;
      forall p | p in pending
        ensures KilledThenSeen(trace, p)
      {
        NowSeen(at, last, p);
      }
    }

    /** stopProcesses. */
    method Stop(given: seq<Process>, termGrace: int, killGrace: int) returns (errs: seq<Error>, ghost phases: Phases)
      requires trace == []
      modifies this
      ensures Proper(trace) && forall e :: e in trace ==> e.TimeUp? || e.process in given
      ensures InPhases(trace, phases, termGrace, killGrace, !AllSeenEmpty(trace, given))
      // An error for every failure, in order, and one for each never seen empty.
      ensures Failures(trace) <= errs
      ensures forall e :: e in errs[|Failures(trace)|..] <==>
                e.Remained? && e.process in given && Probe(e.process, Empty) !in trace
      ensures NoRepeats(errs[|Failures(trace)|..])
      // Success is every cgroup seen empty and removed, and nothing else failed.
      ensures errs == [] <==>
              (forall e :: e in trace ==> !IsFailure(e)) && (forall p :: p in given ==> Remove(p, true) in trace)
      // Whoever is never seen empty was killed and looked at again, and Proper says
      // that it was asked and looked at before.
      ensures forall p :: p in given && Probe(p, Empty) !in trace ==> KilledThenSeen(trace, p)
    {
      var processes := set p | p in given;
      assert forall p :: p in given <==> p in processes;
      if processes == {} {
        return [], Phases([], [], [], [], []);
      }
      var pending, failures;
      pending, failures, phases := Escalate(processes, termGrace, killGrace);
      var remained := Leftovers(pending);
      errs := failures + remained;
      assert errs[|failures|..] == remained;
      SuccessExactly(processes, pending, errs, remained);
    }

    lemma SuccessExactly(processes: set<Process>, pending: set<Process>, errs: seq<Error>, remained: seq<Error>)
      requires Tracks(trace, processes, pending) && errs == Failures(trace) + remained
      requires forall e :: e in remained <==> e.Remained? && e.process in pending
      ensures errs == [] <==>
              (forall e :: e in trace ==> !IsFailure(e)) && (forall p :: p in processes ==> Remove(p, true) in trace)
    {
      NoFailures(trace);
      if pending != {} {
        var p :| p in pending;
        assert Remained(p) in remained;
        NotRemoved(p);
      } else {
        Sequences.FirstIsMember(remained);
        forall p | p in processes && (forall e :: e in trace ==> !IsFailure(e))
          ensures Remove(p, true) in trace
        {
          assert Removed(trace, p);
        }
      }
    }

    // A removal follows a look that found it empty.
    lemma NotRemoved(p: Process)
      requires Proper(trace) && Probe(p, Empty) !in trace
      ensures !Removed(trace, p)
    {
      forall k | 0 <= k < |trace|
        ensures trace[k] != Remove(p, true) && trace[k] != Remove(p, false)
      {
        assert ProperAt(trace, k);
        assert k > 0 ==> trace[k - 1] in trace;
      }
    }
  }
}
