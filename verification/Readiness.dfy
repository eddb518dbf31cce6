/**
 The readiness gate: the conjunction of what the supervisor last reported of each
 required service, published once and closed for good on the way down.

 Source: tinfoil/pid1/main.go, readinessState and the deferred calls of
 runLifecycle, over the supervisor of
 tinfoil/internal/pid1/supervisor/supervisor.go.
 */
module Readiness {
  import opened Supervisor

  // ---------- What the reports say ----------

  predicate Concerns(report: Report, name: string) {
    report.required && report.name == name
  }

  // Whether the last report of a required service is that it is ready.
  predicate LastReady(log: seq<Report>, name: string) {
    log != [] &&
    var last := log[|log| - 1];
    if Concerns(last, name) then last.ready else LastReady(log[..|log| - 1], name)
  }

  predicate AllReady(log: seq<Report>, names: set<string>) {
    forall n :: n in names ==> LastReady(log, n)
  }

  ghost predicate IsLast(log: seq<Report>, name: string, k: int) {
    0 <= k < |log| && Concerns(log[k], name) && forall j :: k < j < |log| ==> !Concerns(log[j], name)
  }

  /** A service is ready in its last report exactly if there is such a report. */
  lemma {:induction false} LastReadyExactly(log: seq<Report>, name: string)
    ensures LastReady(log, name) <==> exists k :: IsLast(log, name, k) && log[k].ready
  {
    if log != [] {
      var last := |log| - 1;
      var front := log[..last];
      if Concerns(log[last], name) {
        assert IsLast(log, name, last);
      } else {
        LastReadyExactly(front, name);
        forall k
          ensures IsLast(log, name, k) <==> IsLast(front, name, k)
        {
          SameLast(log, name, k);
        }
        if LastReady(front, name) {
          var k :| IsLast(front, name, k) && front[k].ready;
          assert IsLast(log, name, k) && log[k].ready;
        }
      }
    }
  }

  lemma SameLast(log: seq<Report>, name: string, k: int)
    requires log != [] && !Concerns(log[|log| - 1], name)
    ensures IsLast(log, name, k) <==> IsLast(log[..|log| - 1], name, k)
  {
    var front := log[..|log| - 1];
    assert forall j :: 0 <= j < |front| ==> front[j] == log[j];
  }

  // The service has an instance that passed its readiness check, with its service's
  // own check answering that it is usable, and whose exit has not been reported.
  ghost predicate Up(s: Supervisor, name: string)
    reads s
  {
    exists k ::
      && 0 <= k < |s.log| && Concerns(s.log[k], name) && s.log[k].ready && s.log[k].instance.Some?
      && s.log[k].instance.value in s.checked && s.log[k].instance.value in s.answered && s.answered[s.log[k].instance.value]
      && forall j :: 0 <= j < |s.log| && !s.log[j].ready ==> s.log[j].instance != s.log[k].instance
  }

  /** A ready last report is of an instance that passed its check and whose exit has
      not been reported, whatever the interleaving was. */
  lemma ReadyMeansUp(s: Supervisor, name: string)
    requires s.Valid() && LastReady(s.log, name)
    ensures Up(s, name)
  {
    LastReadyExactly(s.log, name);
    var k :| IsLast(s.log, name, k) && s.log[k].ready;
    assert ReportTrue(s.log[k], s.records, s.owner, s.exited, s.checked);
    assert AllOlder(s.log[..k], name, s.log[k].instance.value);
    forall j | 0 <= j < |s.log| && !s.log[j].ready
      ensures s.log[j].instance != s.log[k].instance
    {
      assert ReportTrue(s.log[j], s.records, s.owner, s.exited, s.checked);
      assert j < k ==> s.log[..k][j] == s.log[j] && s.log[j] in s.log[..k];
      assert j > k ==> !Concerns(s.log[j], name);
    }
  }

  /** An exit report closes the gate for its service until a newer instance has
      passed its check. */
  lemma ExitClosesUntilReplaced(s: Supervisor, j: nat)
    requires s.Valid() && j < |s.log| && s.log[j].required && !s.log[j].ready && s.log[j].instance.Some?
    requires LastReady(s.log, s.log[j].name)
    ensures exists k :: j < k < |s.log| && Concerns(s.log[k], s.log[j].name) && s.log[k].ready && s.log[k].instance.Some?
              && s.log[k].instance.value > s.log[j].instance.value && s.log[k].instance.value in s.checked
  {
    var name := s.log[j].name;
    LastReadyExactly(s.log, name);
    var k :| IsLast(s.log, name, k) && s.log[k].ready;
    assert Concerns(s.log[j], name);
    assert ReportTrue(s.log[k], s.records, s.owner, s.exited, s.checked);
    assert AllOlder(s.log[..k], name, s.log[k].instance.value);
    assert j < k && s.log[..k][j] == s.log[j] && s.log[j] in s.log[..k];
  }

  // ---------- readinessState ----------

  class ReadinessState {
    var required: map<string, bool>
    var published: bool
    var failed: bool

    // Every value passed to set, in order.
    var sets: seq<bool>

    // Every report it was updated with, and how much had been set when it failed.
    ghost const names: set<string>
    ghost var seen: seq<Report>
    ghost var setsAtFailure: nat

    constructor (names: set<string>)
      ensures Valid() && this.names == names && seen == [] && !published && !failed
    {
      this.names := names;
      required := map n | n in names :: false;
      published, failed, sets, seen, setsAtFailure := false, false, [], [], 0;
    }

    ghost predicate Valid()
      reads this
    {
      && required.Keys == names
      && (!failed ==> forall n :: n in names ==> (required[n] <==> LastReady(seen, n)))
      && (published && !failed ==> sets != [] && (sets[|sets| - 1] <==> AllReady(seen, names)))
      && (!published && !failed ==> sets == [])
      && (failed ==> 0 < setsAtFailure <= |sets| && forall k :: setsAtFailure - 1 <= k < |sets| ==> !sets[k])
    }

    // allReadyLocked.
    method AllReadyLocked() returns (all: bool)
      ensures all <==> forall n :: n in required ==> required[n]
    {
      var todo := required.Keys;
      while todo != {}
        invariant todo <= required.Keys
        invariant forall n :: n in required && n !in todo ==> required[n]
        decreases |todo|
      {
        var n :| n in todo;
        if !required[n] {
          return false;
        }
        todo := todo - {n};
      }
      return true;
    }

    /** Update. */
    method Update(report: Report)
      requires Valid()
      modifies this
      ensures Valid() && seen == old(seen) + [report] && published == old(published) && failed == old(failed)
      ensures old(sets) <= sets && setsAtFailure == old(setsAtFailure)
      ensures failed || !published ==> sets == old(sets)
    {
      seen := seen + [report];
      assert seen[..|seen| - 1] == old(seen);
      if !report.required {
        return;
      }
      if report.name !in required || failed {
        return;
      }
      required := required[report.name := report.ready];
      if published {
        var all := AllReadyLocked();
        sets := sets + [all];
      }
    }

    /** Publish. */
    method Publish()
      requires Valid()
      modifies this
      ensures Valid() && published && failed == old(failed) && seen == old(seen) && setsAtFailure == old(setsAtFailure)
      ensures |sets| == |old(sets)| + 1 && old(sets) <= sets
      ensures sets[|sets| - 1] <==> !failed && AllReady(seen, names)
    {
      published := true;
      var all := AllReadyLocked();
      sets := sets + [!failed && all];
    }

    /** FailClosed. */
    method FailClosed()
      requires Valid()
      modifies this
      ensures Valid() && failed && published == old(published) && seen == old(seen)
      ensures sets == old(sets) + [false]
      ensures setsAtFailure == if old(failed) then old(setsAtFailure) else |sets|
    {
      sets := sets + [false];
      if !failed {
        setsAtFailure := |sets|;
      }
      failed := true;
    }
  }

  // ---------- The lifecycle ----------

  // A step of the services, or one of the lifecycle's own goroutine: publishing,
  // and on the way down closing the gate and then starting the drain. Services may
  // step between any two.
  datatype Move = Turn(action: Action) | Open | Close | StartDrain(groups: seq<seq<string>>)

  datatype Way = Serving | Closed | Down

  class Lifecycle {
    const services: Supervisor
    const readiness: ReadinessState

    // How far the lifecycle's goroutine has come.
    var way: Way

    constructor (services: Supervisor, readiness: ReadinessState)
      requires services.Valid() && readiness.Valid() && services.log == readiness.seen && !services.draining
      ensures this.services == services && this.readiness == readiness && Valid()
    {
      this.services, this.readiness, way := services, readiness, Serving;
    }

    // The gate has seen what the supervisor reported, and is shut before a drain begins.
    ghost predicate Valid()
      reads this, services, readiness
    {
      && services.Valid() && readiness.Valid()
      && readiness.seen == services.log
      && (services.draining ==> way == Down)
      && (way != Serving ==> readiness.failed)
    }

    /** The gate is open only while every required service is up. */
    lemma OpenMeansUp(name: string)
      requires Valid() && readiness.sets != [] && readiness.sets[|readiness.sets| - 1] && name in readiness.names
      ensures Up(services, name) && !services.draining
    {
      ReadyMeansUp(services, name);
    }

    // The observer is called with whatever a step of the supervisor reported.
    method Serve(action: Action)
      requires Valid() && !action.Drain?
      modifies services, readiness
      ensures Valid() && services.draining == old(services.draining)
      ensures old(readiness.sets) <= readiness.sets
      ensures old(readiness.failed) ==> readiness.failed && readiness.sets == old(readiness.sets)
      ensures readiness.setsAtFailure == old(readiness.setsAtFailure)
    {
      var told := |services.log|;
      services.Step(action);
      assert services.log[..told] == old(services.log);
      Inform(told);
    }

    // The observer's calls, in the order of the reports.
    method Inform(told: nat)
      requires services.Valid() && readiness.Valid() && told <= |services.log| && readiness.seen == services.log[..told]
      requires services.draining ==> way == Down
      requires way != Serving ==> readiness.failed
      modifies readiness
      ensures Valid() && old(readiness.sets) <= readiness.sets
      ensures old(readiness.failed) ==> readiness.failed && readiness.sets == old(readiness.sets)
      ensures readiness.setsAtFailure == old(readiness.setsAtFailure)
    {
      for k := told to |services.log|
        modifies readiness
        invariant readiness.Valid() && readiness.seen == services.log[..k]
        invariant way != Serving ==> readiness.failed
        invariant old(readiness.sets) <= readiness.sets
        invariant old(readiness.failed) ==> readiness.failed && readiness.sets == old(readiness.sets)
        invariant readiness.setsAtFailure == old(readiness.setsAtFailure)
      {
        readiness.Update(services.log[k]);
      }
    }

    // The way down, in its two steps: the gate is shut before the drain begins.
    method CloseGate()
      requires Valid()
      modifies this, readiness
      ensures Valid() && readiness.failed && readiness.sets == old(readiness.sets) + [false]
      ensures way == if old(way) == Serving then Closed else old(way)
    {
      readiness.FailClosed();
      if way == Serving {
        way := Closed;
      }
    }

    method StartDraining(groups: seq<seq<string>>)
      requires Valid() && way == Closed
      modifies this, services
      ensures Valid() && way == Down && services.draining && readiness.failed && services.log == old(services.log)
    {
      services.BeginDrain(groups);
      way := Down;
    }

    method Make(move: Move)
      requires Valid()
      modifies this, services, readiness
      ensures Valid() && old(readiness.sets) <= readiness.sets
      ensures old(readiness.failed) ==> readiness.failed && NeverOpened(old(|readiness.sets|))
      ensures !old(services.draining) && services.draining ==> old(readiness.failed)
    {
      match move
      case Turn(action) =>
        if !action.Drain? {
          Serve(action);
        }
      case Open => readiness.Publish();
      case Close => CloseGate();
      case StartDrain(groups) =>
        if way == Closed {
          StartDraining(groups);
        }
    }

    // Nothing set since then was true.
    ghost predicate NeverOpened(since: nat)
      reads this, readiness
    {
      forall k :: since <= k < |readiness.sets| ==> !readiness.sets[k]
    }

    /** Every interleaving of the supervisor with publishing and closing: the gate
        is open only while every required service is up, and once closed it never
        opens again. */
    method EveryRun(moves: seq<Move>)
      requires Valid()
      modifies this, services, readiness
      ensures Valid() && old(readiness.sets) <= readiness.sets
      ensures old(readiness.failed) ==> readiness.failed && NeverOpened(old(|readiness.sets|))
      ensures readiness.sets != [] && readiness.sets[|readiness.sets| - 1] ==>
                !services.draining && forall n :: n in readiness.names ==> Up(services, n)
    {
      for k := 0 to |moves|
        invariant Valid() && old(readiness.sets) <= readiness.sets
        invariant old(readiness.failed) ==> readiness.failed && NeverOpened(old(|readiness.sets|))
      {
        Make(moves[k]);
      }
      forall n | n in readiness.names && readiness.sets != [] && readiness.sets[|readiness.sets| - 1]
        ensures !services.draining && Up(services, n)
      {
        OpenMeansUp(n);
      }
      assert services.draining ==> readiness.failed;
    }
  }
}
