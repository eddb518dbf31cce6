/**
 The service supervisor: starting services, restarting them when they exit, and
 draining them, with one goroutine a service and any number of drains.

 Source: tinfoil/internal/pid1/supervisor/supervisor.go, Supervisor.

 Every method of the class below is one step of one goroutine: a section under
 the supervisor's mutex, a call to stopProcesses, or a call to the observer.
 Between two steps any other goroutine may run.
 */
module Supervisor {
  import opened Options

  // A started child process, numbered in the order of the starts.
  type Instance = nat

  // A service record, numbered in the order of the calls to Start.
  type RecordId = nat

  datatype Record = Record(
    name: string, required: bool, restart: bool, forking: bool, hasReady: bool,
    process: Option<Instance>, delay: int)

  // Where a record's goroutine is.
  datatype Pc =
    | Checking(instance: Instance, first: bool)
    | Announcing(instance: Instance)
    | StoppingInitial(instance: Instance)
    | Retiring
    | Monitoring(instance: Instance)
    | Exited(instance: Instance)
    | StoppingExited(instance: Instance)
    | Reporting(last: bool, exited: Option<Instance>)
    | ReportingUnready(instance: Instance)
    | StoppingRestart(instance: Instance)
    | Idle
    | Finished

  // Where a drain is.
  datatype Drain =
    | Picking(todo: seq<seq<string>>, handled: set<string>)
    | Stopping(todo: seq<seq<string>>, handled: set<string>, names: set<string>, instances: set<Instance>, rest: bool)
    | PickingRest(handled: set<string>, left: seq<string>)
    | Drained

  // What the world answers in one step of a goroutine: the service's own check, a
  // look at the cgroup of an exited launcher, whether a watched cgroup emptied,
  // whether a child starts, its pid file is written and it stops cleanly, and
  // whether the instance ran long enough to count as stable.
  datatype Answers = Answers(
    ready: bool, populated: bool, emptied: bool, starts: bool, listed: bool, stops: bool, stable: bool)

  // What the observer is told. An exit report and a ready report name the instance.
  datatype Report = Report(name: string, required: bool, ready: bool, instance: Option<Instance>)

  // ---------- The restart delay ----------

  const MAX_DURATION: int := 0x7fff_ffff_ffff_ffff

  /** nextDelay doubles, saturating at the maximum. */
  function NextDelay(current: int, maximum: int): (next: int)
    requires 0 < current <= MAX_DURATION && 0 < maximum <= MAX_DURATION
    ensures next == if 2 * current < maximum then 2 * current else maximum
    ensures next <= MAX_DURATION
  {
    if current >= maximum || current > maximum / 2 then maximum else current * 2
  }

  // ---------- The invariant ----------

  predicate IsRegistered(services: map<string, RecordId>, records: seq<Record>, r: RecordId) {
    r < |records| && records[r].name in services && services[records[r].name] == r
  }

  ghost predicate Wired(services: map<string, RecordId>, records: seq<Record>, owner: seq<RecordId>) {
    && (forall n :: n in services ==> services[n] < |records| && records[services[n]].name == n)
    && (forall i :: 0 <= i < |owner| ==> owner[i] < |records|)
    && (forall r :: 0 <= r < |records| && records[r].process.Some? ==>
          records[r].process.value < |owner| && owner[records[r].process.value] == r)
  }

  /** Every instance ever started is the current process of a registered service,
      or has been passed to stopProcesses. */
  ghost predicate Accounted(services: map<string, RecordId>, records: seq<Record>, owner: seq<RecordId>, passed: set<Instance>) {
    forall i :: 0 <= i < |owner| && i !in passed ==>
      IsRegistered(services, records, owner[i]) && records[owner[i]].process == Some(i)
  }

  predicate Passed(process: Option<Instance>, passed: set<Instance>) {
    process.Some? ==> process.value in passed
  }

  // What holds of a record while its goroutine is at `pc`.
  ghost predicate At(services: map<string, RecordId>, records: seq<Record>, passed: set<Instance>, exited: map<Instance, bool>,
                     checked: set<Instance>, r: RecordId, pc: Pc)
    requires r < |records|
  {
    match pc
    case Checking(i, _) => IsRegistered(services, records, r) && records[r].process == Some(i) && i !in checked
    case Announcing(i) => IsRegistered(services, records, r) && records[r].process == Some(i) && i in checked
    case StoppingInitial(i) => IsRegistered(services, records, r) && records[r].process == Some(i)
    case Retiring => IsRegistered(services, records, r) && Passed(records[r].process, passed)
    case Monitoring(i) => IsRegistered(services, records, r) && records[r].process == Some(i)
    case Exited(i) => IsRegistered(services, records, r) && records[r].process == Some(i) && i in exited
    case StoppingExited(i) => IsRegistered(services, records, r) && records[r].process == Some(i) && i in exited
    case Reporting(last, of) =>
      && (of.Some? ==> IsRegistered(services, records, r) && records[r].process == of && of.value in exited)
      && (!last ==> IsRegistered(services, records, r) && Passed(records[r].process, passed))
    case ReportingUnready(i) => IsRegistered(services, records, r) && records[r].process == Some(i)
    case StoppingRestart(i) => IsRegistered(services, records, r) && records[r].process == Some(i)
    case Idle => IsRegistered(services, records, r) && Passed(records[r].process, passed)
    case Finished => true
  }

  ghost predicate AllAt(services: map<string, RecordId>, records: seq<Record>, pcs: seq<Pc>, passed: set<Instance>,
                        exited: map<Instance, bool>, checked: set<Instance>)
  {
    |pcs| == |records| && forall r :: 0 <= r < |pcs| ==> At(services, records, passed, exited, checked, r, pcs[r])
  }

  // The current processes of these services have been passed to stopProcesses.
  ghost predicate Handled(services: map<string, RecordId>, records: seq<Record>, passed: set<Instance>, names: set<string>) {
    forall n :: n in names && n in services && services[n] < |records| ==> Passed(records[services[n]].process, passed)
  }

  ghost predicate DrainAt(services: map<string, RecordId>, records: seq<Record>, passed: set<Instance>, drain: Drain) {
    match drain
    case Picking(_, handled) => Handled(services, records, passed, handled)
    case Stopping(_, handled, names, instances, rest) =>
      && Handled(services, records, passed, handled)
      && Handled(services, records, passed + instances, names)
      && (rest ==> services.Keys <= handled + names)
    case PickingRest(handled, left) =>
      && Handled(services, records, passed, handled)
      && forall n :: n in services && n !in handled ==> n in left
    case Drained => Handled(services, records, passed, services.Keys)
  }

  ghost predicate DrainsAt(services: map<string, RecordId>, records: seq<Record>, passed: set<Instance>, drains: seq<Drain>) {
    forall d :: 0 <= d < |drains| ==> DrainAt(services, records, passed, drains[d])
  }

  function AsSet(names: seq<string>): (all: set<string>)
    ensures forall n :: n in all <==> n in names
  {
    set n | n in names
  }

  // The groups are stopped in turn, each from a snapshot, and then what remains.
  predicate DrainMoves(before: Drain, after: Drain) {
    match before
    case Picking(todo, handled) =>
      if todo == [] then after.PickingRest? && after.handled == handled
      else after.Stopping? && after == Stopping(todo[1..], handled, AsSet(todo[0]), after.instances, false)
    case PickingRest(handled, left) => after.Stopping? && after == Stopping([], handled, AsSet(left), after.instances, true)
    case Stopping(todo, handled, names, _, rest) => after == if rest then Drained else Picking(todo, handled + names)
    case Drained => after == Drained
  }

  // A drain that was given these groups has come this far: those before have been
  // handled, and those after are still to do.
  ghost predicate Planned(plan: seq<seq<string>>, drain: Drain) {
    match drain
    case Picking(todo, handled) => |todo| <= |plan| && todo == plan[|plan| - |todo|..] && AreNames(handled, plan[..|plan| - |todo|])
    case Stopping(todo, handled, names, _, rest) =>
      if rest then todo == [] && AreNames(handled, plan)
      else |todo| < |plan| && plan[|plan| - |todo| - 1..] == [plan[|plan| - |todo| - 1]] + todo
           && names == AsSet(plan[|plan| - |todo| - 1]) && AreNames(handled, plan[..|plan| - |todo| - 1])
    case PickingRest(handled, _) => AreNames(handled, plan)
    case Drained => true
  }

  ghost predicate AllPlanned(plans: seq<seq<seq<string>>>, drains: seq<Drain>) {
    |plans| == |drains| && forall d :: 0 <= d < |drains| ==> Planned(plans[d], drains[d])
  }

  lemma MovesArePlanned(plan: seq<seq<string>>, before: Drain, after: Drain)
    requires Planned(plan, before) && DrainMoves(before, after)
    ensures Planned(plan, after)
  {
    match before
    case Picking(todo, handled) =>
    case PickingRest(handled, left) =>
    case Stopping(todo, handled, names, _, rest) =>
      if !rest {
        var done := |plan| - |todo| - 1;
        OneMoreGroup(handled, plan[..done], plan[done]);
        assert plan[..done + 1] == plan[..done] + [plan[done]];
      }
    case Drained =>
  }

  // Exactly the names in these groups.
  ghost predicate AreNames(names: set<string>, groups: seq<seq<string>>) {
    forall n :: n in names <==> exists g :: 0 <= g < |groups| && n in groups[g]
  }

  lemma OneMoreGroup(names: set<string>, groups: seq<seq<string>>, group: seq<string>)
    requires AreNames(names, groups)
    ensures AreNames(names + AsSet(group), groups + [group])
  {
    var more := groups + [group];
    forall n
      ensures n in names + AsSet(group) <==> exists g :: 0 <= g < |more| && n in more[g]
    {
      if n in names {
        var g :| 0 <= g < |groups| && n in groups[g];
        assert n in more[g];
      }
      assert more[|groups|] == group;
    }
  }

  // ---------- The reports ----------

  // Reports name instances truly, and a ready report is of an instance newer than
  // any that was reported before for its service.
  ghost predicate Truthful(log: seq<Report>, records: seq<Record>, owner: seq<RecordId>, exited: map<Instance, bool>, checked: set<Instance>) {
    && (forall k :: 0 <= k < |log| ==> ReportTrue(log[k], records, owner, exited, checked))
    && (forall k :: 0 <= k < |log| && log[k].ready ==> AllOlder(log[..k], log[k].name, log[k].instance.value))
  }

  ghost predicate ReportTrue(report: Report, records: seq<Record>, owner: seq<RecordId>, exited: map<Instance, bool>, checked: set<Instance>) {
    && (report.ready ==> report.instance.Some?)
    && (report.instance.Some? ==>
          && report.instance.value < |owner| && owner[report.instance.value] < |records|
          && records[owner[report.instance.value]].name == report.name
          && records[owner[report.instance.value]].required == report.required
          && (if report.ready then report.instance.value in checked else report.instance.value in exited))
  }

  ghost predicate AllOlder(log: seq<Report>, name: string, instance: Instance) {
    forall e :: e in log && e.name == name && e.instance.Some? ==> e.instance.value < instance
  }

  // The instance being checked or announced is newer than all reported.
  ghost predicate Newest(records: seq<Record>, pcs: seq<Pc>, log: seq<Report>) {
    forall r :: 0 <= r < |pcs| && r < |records| && (pcs[r].Checking? || pcs[r].Announcing?) ==>
      AllOlder(log, records[r].name, pcs[r].instance)
  }

  // An instance that passed its check is one its service answered is usable.
  ghost predicate Vouched(owner: seq<RecordId>, checked: set<Instance>, answered: map<Instance, bool>) {
    forall i :: i in checked ==> i < |owner| && i in answered && answered[i]
  }

  class Supervisor {
    const base: int
    const max: int

    var draining: bool
    var cancelled: bool
    var services: map<string, RecordId>
    var records: seq<Record>

    // The goroutines.
    var pcs: seq<Pc>
    var drains: seq<Drain>

    // The children the manager has started, each with the record it was started for.
    var owner: seq<RecordId>

    // The children that have exited, and whether they did so cleanly.
    var exited: map<Instance, bool>

    // Those passed to stopProcesses, those a readiness check has passed, and what
    // the services' own checks answered.
    ghost var passed: set<Instance>
    ghost var checked: set<Instance>
    ghost var answered: map<Instance, bool>

    // What the observer has been told.
    var log: seq<Report>

    // The groups each drain was given.
    ghost var plans: seq<seq<seq<string>>>

    // How many instances there were when the supervisor began to drain.
    ghost var atDrain: nat

    /** New: delays that are not given have defaults, and the longest is no shorter
        than the first. */
    constructor (restartBase: int, restartMax: int)
      requires restartBase <= MAX_DURATION && restartMax <= MAX_DURATION
      ensures Valid() && !draining && owner == [] && log == [] && records == [] && checked == {}
      ensures base == if restartBase > 0 then restartBase else 2_000_000_000
      ensures max == if restartMax <= 0 && base <= 30_000_000_000 then 30_000_000_000 else if restartMax < base then base else restartMax
    {
      var first := if restartBase <= 0 then 2_000_000_000 else restartBase;
      var longest := if restartMax <= 0 then 30_000_000_000 else restartMax;
      base, max := first, if longest < first then first else longest;
      draining, cancelled, services, records, pcs, drains := false, false, map[], [], [], [];
      owner, passed, exited, checked, answered, log, plans, atDrain := [], {}, map[], {}, map[], [], [], 0;
    }

    ghost predicate Delays()
      reads this
    {
      && 0 < base <= max <= MAX_DURATION
      && forall r :: 0 <= r < |records| ==> base <= records[r].delay <= max
    }

    ghost predicate Valid()
      reads this
    {
      && Wired(services, records, owner)
      && Accounted(services, records, owner, passed)
      && AllAt(services, records, pcs, passed, exited, checked)
      && DrainsAt(services, records, passed, drains)
      && AllPlanned(plans, drains)
      && (drains != [] ==> draining)
      && (draining ==> |owner| == atDrain && cancelled)
      && Truthful(log, records, owner, exited, checked)
      && Newest(records, pcs, log)
      && Delays()
      && Vouched(owner, checked, answered)
    }

    // ---------- Steps shared by the goroutines ----------

    // The goroutine of `r` moves on and nothing else changes.
    method MoveTo(r: RecordId, pc: Pc)
      requires Valid() && r < |pcs| && At(services, records, passed, exited, checked, r, pc)
      requires pc.Checking? || pc.Announcing? ==> AllOlder(log, records[r].name, pc.instance)
      modifies `pcs
      ensures Valid() && pcs == old(pcs)[r := pc]
    {
      pcs := pcs[r := pc];
    }

    // A call to stopProcesses with one process.
    method Pass(instance: Instance)
      requires Valid()
      modifies `passed
      ensures Valid() && passed == old(passed) + {instance}
    {
      passed := passed + {instance};
    }

    // A call to the observer.
    method Tell(r: RecordId, ready: bool, instance: Option<Instance>)
      requires Valid() && r < |records|
      requires var report := Report(records[r].name, records[r].required, ready, instance);
               ReportTrue(report, records, owner, exited, checked) && (ready ==> AllOlder(log, report.name, instance.value))
      requires instance.Some? ==> IsRegistered(services, records, r) && !pcs[r].Checking? && !pcs[r].Announcing?
      modifies `log
      ensures Valid() && log == old(log) + [Report(records[r].name, records[r].required, ready, instance)]
    {
      log := log + [Report(records[r].name, records[r].required, ready, instance)];
    }

    // A child is started for the record.
    method Launch(r: RecordId, first: bool)
      requires Valid() && !draining && r < |records| && pcs[r] == Idle
      modifies `records, `owner, `pcs
      ensures Valid() && pcs == old(pcs)[r := Checking(|old(owner)|, first)]
      ensures owner == old(owner) + [r]
      ensures records == old(records)[r := old(records)[r].(process := Some(|old(owner)|))]
    {
      LaunchKeeps(r, first);
      var next := |owner|;
      owner, records, pcs := owner + [r], records[r := records[r].(process := Some(next))], pcs[r := Checking(next, first)];
    }

    lemma LaunchKeeps(r: RecordId, first: bool)
      requires Valid() && !draining && r < |records| && pcs[r] == Idle
      ensures var next := |owner|;
              var records', owner', pcs' := records[r := records[r].(process := Some(next))], owner + [r], pcs[r := Checking(next, first)];
              && Wired(services, records', owner') && Accounted(services, records', owner', passed)
              && AllAt(services, records', pcs', passed, exited, checked)
              && Truthful(log, records', owner', exited, checked) && Newest(records', pcs', log)
    {
      var next := |owner|;
      var after := records[r := records[r].(process := Some(next))];
      assert At(services, records, passed, exited, checked, r, Idle) && next !in checked;
      StillTruthful(log, records, owner, after, owner + [r], exited, checked);
      Launched(services, records, owner, passed, r);
      ProcessAt(services, records, pcs, passed, exited, checked, r, Some(next), Checking(next, first));
      OlderThanNext(log, records, owner, exited, checked, records[r].name);
      ProcessNewest(records, pcs, log, r, Some(next), Checking(next, first));
    }

    static lemma OlderThanNext(log: seq<Report>, records: seq<Record>, owner: seq<RecordId>, exited: map<Instance, bool>,
                               checked: set<Instance>, name: string)
      requires Truthful(log, records, owner, exited, checked)
      ensures AllOlder(log, name, |owner|)
    {
    }

    // Its pid file cannot be written: it is stopped and, if cleanly, forgotten.
    method StopUnlisted(r: RecordId, clean: bool)
      requires Valid() && !draining && r < |records| && pcs[r].Checking?
      modifies `records, `passed, `pcs
      ensures Valid() && pcs == old(pcs)[r := Idle] && passed == old(passed) + {old(pcs)[r].instance}
      ensures records == if clean then old(records)[r := old(records)[r].(process := None)] else old(records)
    {
      Pass(pcs[r].instance);
      MoveTo(r, Idle);
      if clean {
        Forget(r);
      }
    }

    method Forget(r: RecordId)
      requires Valid() && !draining && r < |records| && pcs[r] == Idle
      modifies `records
      ensures Valid() && records == old(records)[r := old(records)[r].(process := None)]
    {
      StillTruthful(log, records, owner, records[r := records[r].(process := None)], owner, exited, checked);
      ProcessAt(services, records, pcs, passed, exited, checked, r, None, Idle);
      assert pcs[r := Idle] == pcs;
      records := records[r := records[r].(process := None)];
    }

    static lemma Launched(services: map<string, RecordId>, records: seq<Record>, owner: seq<RecordId>,
                          passed: set<Instance>, r: RecordId)
      requires Wired(services, records, owner) && Accounted(services, records, owner, passed)
      requires IsRegistered(services, records, r) && Passed(records[r].process, passed)
      ensures var records' := records[r := records[r].(process := Some(|owner|))];
              Wired(services, records', owner + [r]) && Accounted(services, records', owner + [r], passed)
    {
    }

    static lemma ProcessAt(services: map<string, RecordId>, records: seq<Record>, pcs: seq<Pc>, passed: set<Instance>,
                           exited: map<Instance, bool>, checked: set<Instance>, r: RecordId, process: Option<Instance>, pc: Pc)
      requires AllAt(services, records, pcs, passed, exited, checked) && r < |records|
      requires At(services, records[r := records[r].(process := process)], passed, exited, checked, r, pc)
      ensures AllAt(services, records[r := records[r].(process := process)], pcs[r := pc], passed, exited, checked)
    {
      var records' := records[r := records[r].(process := process)];
      forall q | 0 <= q < |pcs| && q != r
        ensures At(services, records', passed, exited, checked, q, pcs[q])
      {
        assert At(services, records, passed, exited, checked, q, pcs[q]);
      }
    }

    static lemma ProcessNewest(records: seq<Record>, pcs: seq<Pc>, log: seq<Report>, r: RecordId, process: Option<Instance>, pc: Pc)
      requires Newest(records, pcs, log) && r < |records| == |pcs|
      requires pc.Checking? || pc.Announcing? ==> AllOlder(log, records[r].name, pc.instance)
      ensures Newest(records[r := records[r].(process := process)], pcs[r := pc], log)
    {
    }

    static lemma StillTruthful(log: seq<Report>, records: seq<Record>, owner: seq<RecordId>,
                               records': seq<Record>, owner': seq<RecordId>, exited: map<Instance, bool>, checked: set<Instance>)
      requires Truthful(log, records, owner, exited, checked)
      requires owner <= owner' && |records| <= |records'|
      requires forall r :: 0 <= r < |records| ==> records'[r].name == records[r].name && records'[r].required == records[r].required
      ensures Truthful(log, records', owner', exited, checked)
    {
      forall k | 0 <= k < |log|
        ensures ReportTrue(log[k], records', owner', exited, checked)
      {
        assert ReportTrue(log[k], records, owner, exited, checked);
      }
    }

    /** startLocked, under the mutex: a child is started unless draining, if it can
        be; one whose pid file cannot be written is stopped, and forgotten if it
        stopped cleanly. */
    method StartLocked(r: RecordId, first: bool, answers: Answers) returns (started: bool)
      requires Valid() && r < |records| && pcs[r] == Idle
      modifies `records, `owner, `passed, `pcs
      ensures Valid()
      ensures started <==> !draining && answers.starts && answers.listed
      ensures owner == if !draining && answers.starts then old(owner) + [r] else old(owner)
      ensures pcs == if started then old(pcs)[r := Checking(|old(owner)|, first)] else old(pcs)
      ensures passed == if !draining && answers.starts && !answers.listed then old(passed) + {|old(owner)|} else old(passed)
      ensures records == if draining || !answers.starts then old(records)
                         else old(records)[r := old(records)[r].(process := if answers.listed || !answers.stops then Some(|old(owner)|) else None)]
    {
      if draining {
        return false;
      }
      if !answers.starts {
        return false;
      }
      LaunchListed(r, first, answers);
      return answers.listed;
    }

    // A child is started and its pid file written, or it is stopped.
    method LaunchListed(r: RecordId, first: bool, answers: Answers)
      requires Valid() && !draining && r < |records| && pcs[r] == Idle
      modifies `records, `owner, `passed, `pcs
      ensures Valid() && owner == old(owner) + [r]
      ensures pcs == if answers.listed then old(pcs)[r := Checking(|old(owner)|, first)] else old(pcs)
      ensures passed == if answers.listed then old(passed) else old(passed) + {|old(owner)|}
      ensures records == old(records)[r := old(records)[r].(process := if answers.listed || !answers.stops then Some(|old(owner)|) else None)]
    {
      Launch(r, first);
      if !answers.listed {
        StopUnlisted(r, answers.stops);
        assert pcs == old(pcs);
      }
    }

    // ---------- Start ----------

    method Enlist(record: Record) returns (r: RecordId)
      requires Valid() && !draining && record.name !in services && record.process == None && base <= record.delay <= max
      modifies `services, `records, `pcs
      ensures Valid() && r == |old(records)| && records == old(records) + [record] && pcs == old(pcs) + [Idle]
      ensures services == old(services)[record.name := r]
    {
      r := |records|;
      StillTruthful(log, records, owner, records + [record], owner, exited, checked);
      EnlistWires(services, records, owner, passed, record);
      EnlistAt(services, records, pcs, passed, exited, checked, record);
      EnlistNewest(records, pcs, log, record);
      assert drains == [];
      services := services[record.name := r];
      records := records + [record];
      pcs := pcs + [Idle];
    }

    static lemma EnlistWires(services: map<string, RecordId>, records: seq<Record>, owner: seq<RecordId>,
                             passed: set<Instance>, record: Record)
      requires Wired(services, records, owner) && Accounted(services, records, owner, passed)
      requires record.name !in services && record.process == None
      ensures var services', records' := services[record.name := |records|], records + [record];
              Wired(services', records', owner) && Accounted(services', records', owner, passed)
    {
    }

    static lemma EnlistNewest(records: seq<Record>, pcs: seq<Pc>, log: seq<Report>, record: Record)
      requires Newest(records, pcs, log) && |records| == |pcs|
      ensures Newest(records + [record], pcs + [Idle], log)
    {
    }

    static lemma EnlistAt(services: map<string, RecordId>, records: seq<Record>, pcs: seq<Pc>, passed: set<Instance>,
                          exited: map<Instance, bool>, checked: set<Instance>, record: Record)
      requires AllAt(services, records, pcs, passed, exited, checked)
      requires record.name !in services && record.process == None
      ensures AllAt(services[record.name := |records|], records + [record], pcs + [Idle], passed, exited, checked)
    {
      var services', records' := services[record.name := |records|], records + [record];
      forall q | 0 <= q < |pcs|
        ensures At(services', records', passed, exited, checked, q, pcs[q])
      {
        assert At(services, records, passed, exited, checked, q, pcs[q]);
        assert IsRegistered(services, records, q) ==> IsRegistered(services', records', q);
      }
    }

    // retireLocked. Whatever the record started has been passed to stopProcesses.
    method Retire(r: RecordId)
      requires Valid() && r < |records| && (pcs[r] == Idle || pcs[r] == Retiring)
      modifies `services, `pcs
      ensures Valid() && services == old(services) - {records[r].name} && pcs == old(pcs)[r := Reporting(true, None)]
    {
      assert At(services, records, passed, exited, checked, r, pcs[r]);
      RetireWires(services, records, owner, passed, r);
      RetireAt(services, records, pcs, passed, exited, checked, r);
      RetireDrains(services, records, passed, drains, records[r].name);
      pcs := pcs[r := Reporting(true, None)];
      services := services - {records[r].name};
    }

    static lemma RetireWires(services: map<string, RecordId>, records: seq<Record>, owner: seq<RecordId>,
                             passed: set<Instance>, r: RecordId)
      requires Wired(services, records, owner) && Accounted(services, records, owner, passed)
      requires IsRegistered(services, records, r) && Passed(records[r].process, passed)
      ensures var services' := services - {records[r].name};
              Wired(services', records, owner) && Accounted(services', records, owner, passed)
    {
      var services' := services - {records[r].name};
      forall i | 0 <= i < |owner| && i !in passed
        ensures IsRegistered(services', records, owner[i]) && records[owner[i]].process == Some(i)
      {
        assert IsRegistered(services, records, owner[i]) && owner[i] != r;
      }
    }

    static lemma RetireAt(services: map<string, RecordId>, records: seq<Record>, pcs: seq<Pc>, passed: set<Instance>,
                          exited: map<Instance, bool>, checked: set<Instance>, r: RecordId)
      requires AllAt(services, records, pcs, passed, exited, checked) && IsRegistered(services, records, r)
      ensures AllAt(services - {records[r].name}, records, pcs[r := Reporting(true, None)], passed, exited, checked)
    {
      var services' := services - {records[r].name};
      forall q | 0 <= q < |pcs| && q != r
        ensures At(services', records, passed, exited, checked, q, pcs[q])
      {
        assert At(services, records, passed, exited, checked, q, pcs[q]);
        assert IsRegistered(services, records, q) ==> IsRegistered(services', records, q);
      }
    }

    static lemma RetireDrains(services: map<string, RecordId>, records: seq<Record>, passed: set<Instance>,
                              drains: seq<Drain>, name: string)
      requires DrainsAt(services, records, passed, drains)
      ensures DrainsAt(services - {name}, records, passed, drains)
    {
      forall d | 0 <= d < |drains|
        ensures DrainAt(services - {name}, records, passed, drains[d])
      {
        assert DrainAt(services, records, passed, drains[d]);
      }
    }

    /** Start, up to the readiness check: refused while draining, and under a name
        that is taken. */
    method Start(service: Record, answers: Answers) returns (accepted: bool)
      requires Valid()
      modifies `services, `records, `owner, `passed, `pcs
      ensures Valid()
      ensures accepted <==> !(service.forking && !service.hasReady) && !draining && service.name !in old(services)
      ensures owner == if accepted && answers.starts then old(owner) + [|old(records)|] else old(owner)
      ensures var kept := answers.starts && (answers.listed || !answers.stops);
              && records == (if !accepted then old(records)
                             else old(records) + [service.(process := if kept then Some(|old(owner)|) else None, delay := base)])
              && services == if accepted && kept then old(services)[service.name := |old(records)|] else old(services)
      ensures pcs == if !accepted then old(pcs)
                     else old(pcs) + [if answers.starts && answers.listed then Checking(|old(owner)|, true) else Reporting(true, None)]
      ensures passed == if accepted && answers.starts && !answers.listed then old(passed) + {|old(owner)|} else old(passed)
    {
      if service.forking && !service.hasReady {
        return false;
      }
      if draining || service.name in services {
        return false;
      }
      Admit(service, answers);
      return true;
    }

    // A new record is registered and started.
    method Admit(service: Record, answers: Answers)
      requires Valid() && !draining && service.name !in services
      modifies `services, `records, `owner, `passed, `pcs
      ensures Valid() && owner == if answers.starts then old(owner) + [|old(records)|] else old(owner)
      ensures pcs == old(pcs) + [if answers.starts && answers.listed then Checking(|old(owner)|, true) else Reporting(true, None)]
      ensures passed == if answers.starts && !answers.listed then old(passed) + {|old(owner)|} else old(passed)
      ensures records == old(records) + [service.(delay := base, process := if !answers.starts then None
                                                  else if answers.listed || !answers.stops then Some(|old(owner)|) else None)]
      ensures services == if records[|old(records)|].process == None then old(services) else old(services)[service.name := |old(records)|]
    {
      var record := service.(process := None, delay := base);
      InTermsOfOthers(records, record, pcs, if answers.starts && answers.listed then Checking(|owner|, true) else Reporting(true, None),
                      services, if answers.listed || !answers.stops then Some(|owner|) else None, answers.starts);
      var r := Enlist(record);
      StartFirst(r, answers);
    }

    // What a first start does to the last record is done to one record more.
    static lemma InTermsOfOthers(others: seq<Record>, record: Record, goroutines: seq<Pc>, pc: Pc, names: map<string, RecordId>,
                                 kept: Option<Instance>, starts: bool)
      requires record.process == None && record.name !in names && |others| == |goroutines|
      ensures var r := |others|;
              && (if !starts then others + [record] else (others + [record])[r := (others + [record])[r].(process := kept)])
                 == others + [record.(process := if starts then kept else None)]
              && (goroutines + [Idle])[r := pc] == goroutines + [pc]
              && names[record.name := r] - {record.name} == names
    {
    }

    // The first start of a record that was just registered.
    method StartFirst(r: RecordId, answers: Answers)
      requires Valid() && !draining && r < |pcs| && pcs[r] == Idle && records[r].process == None
      modifies `services, `records, `owner, `passed, `pcs
      ensures Valid() && owner == if answers.starts then old(owner) + [r] else old(owner)
      ensures pcs == old(pcs)[r := if answers.starts && answers.listed then Checking(|old(owner)|, true) else Reporting(true, None)]
      ensures passed == if answers.starts && !answers.listed then old(passed) + {|old(owner)|} else old(passed)
      ensures records == if !answers.starts then old(records)
                         else old(records)[r := old(records)[r].(process := if answers.listed || !answers.stops then Some(|old(owner)|) else None)]
      ensures services == if records[r].process.Some? then old(services) else old(services) - {records[r].name}
    {
      var started := StartLocked(r, true, answers);
      GiveUp(r, started);
    }

    // A first start that failed gives up its name unless a process is left.
    method GiveUp(r: RecordId, started: bool)
      requires Valid() && !draining && r < |pcs| && (if started then pcs[r].Checking? else pcs[r] == Idle)
      modifies `services, `pcs
      ensures Valid() && pcs == if started then old(pcs) else old(pcs)[r := Reporting(true, None)]
      ensures services == if !started && records[r].process == None then old(services) - {records[r].name} else old(services)
    {
      if !started {
        if records[r].process == None {
          Retire(r);
        } else {
          assert At(services, records, passed, exited, checked, r, pcs[r]);
          MoveTo(r, Reporting(true, None));
        }
      }
    }

    // ---------- A service's goroutine ----------

    /** ready: passed exactly if the service's own check passes, where it has one, and
        the instance has not exited, unless it is a launcher that exited cleanly and
        left its service in its cgroup. */
    method CheckReady(r: RecordId, answers: Answers)
      requires Valid() && r < |pcs| && pcs[r].Checking?
      modifies `pcs, `checked, `answered
      ensures Valid()
      ensures var i, record := old(pcs)[r].instance, records[r];
              var vouched := !record.hasReady || answers.ready;
              var stands := i !in exited || (exited[i] && record.forking && answers.populated);
              && answered == old(answered)[i := vouched]
              && checked == (if vouched && stands then old(checked) + {i} else old(checked))
              && pcs == old(pcs)[r := if vouched && stands then Announcing(i)
                                      else if old(pcs)[r].first then StoppingInitial(i) else ReportingUnready(i)]
    {
      var i := pcs[r].instance;
      var vouched := Ask(r, answers);
      if !vouched {
        Fail(r);
        return;
      }
      if i in exited {
        if !exited[i] || !records[r].forking || !answers.populated {
          Fail(r);
          return;
        }
      }
      Succeed(r);
    }

    // The instance is usable, and about to be announced.
    method Succeed(r: RecordId)
      requires Valid() && r < |pcs| && pcs[r].Checking?
      requires pcs[r].instance in answered && answered[pcs[r].instance]
      modifies `pcs, `checked
      ensures Valid() && checked == old(checked) + {old(pcs)[r].instance}
      ensures pcs == old(pcs)[r := Announcing(old(pcs)[r].instance)]
    {
      var i := pcs[r].instance;
      assert At(services, records, passed, exited, checked, r, pcs[r]);
      StillAt(r);
      checked, pcs := checked + {i}, pcs[r := Announcing(i)];
    }

    // The service's own check, where it has one.
    method Ask(r: RecordId, answers: Answers) returns (vouched: bool)
      requires Valid() && r < |pcs| && pcs[r].Checking?
      modifies `answered
      ensures Valid() && vouched == (!records[r].hasReady || answers.ready)
      ensures answered == old(answered)[pcs[r].instance := vouched]
    {
      assert At(services, records, passed, exited, checked, r, pcs[r]);
      vouched := true;
      if records[r].hasReady {
        vouched := answers.ready;
      }
      answered := answered[pcs[r].instance := vouched];
    }

    // The error of a failed check is joined with that of stopping the instance on a
    // first start, and reported before it otherwise.
    method Fail(r: RecordId)
      requires Valid() && r < |pcs| && pcs[r].Checking?
      modifies `pcs
      ensures Valid()
      ensures pcs == old(pcs)[r := if old(pcs)[r].first then StoppingInitial(old(pcs)[r].instance)
                                   else ReportingUnready(old(pcs)[r].instance)]
    {
      var i := pcs[r].instance;
      assert At(services, records, passed, exited, checked, r, pcs[r]);
      MoveTo(r, if pcs[r].first then StoppingInitial(i) else ReportingUnready(i));
    }

    // Passing one check leaves the other goroutines where they are.
    lemma StillAt(r: RecordId)
      requires Valid() && r < |pcs| && pcs[r].Checking?
      ensures var i := pcs[r].instance;
              && AllAt(services, records, pcs[r := Announcing(i)], passed, exited, checked + {i})
              && Truthful(log, records, owner, exited, checked + {i})
    {
      var i := pcs[r].instance;
      var pcs' := pcs[r := Announcing(i)];
      assert At(services, records, passed, exited, checked, r, pcs[r]);
      forall q | 0 <= q < |pcs|
        ensures At(services, records, passed, exited, checked + {i}, q, pcs'[q])
      {
        assert At(services, records, passed, exited, checked, q, pcs[q]);
      }
      forall k | 0 <= k < |log|
        ensures ReportTrue(log[k], records, owner, exited, checked + {i})
      {
        assert ReportTrue(log[k], records, owner, exited, checked);
      }
    }

    // The ready report, after which the instance is monitored.
    method Announce(r: RecordId)
      requires Valid() && r < |pcs| && pcs[r].Announcing?
      modifies `pcs, `log
      ensures Valid() && pcs == old(pcs)[r := Monitoring(old(pcs)[r].instance)]
      ensures log == old(log) + [Report(records[r].name, records[r].required, true, Some(old(pcs)[r].instance))]
    {
      var i := pcs[r].instance;
      assert At(services, records, passed, exited, checked, r, pcs[r]) && AllOlder(log, records[r].name, i);
      MoveTo(r, Monitoring(i));
      Tell(r, true, Some(i));
    }

    // stopInitial.
    method StopInitial(r: RecordId)
      requires Valid() && r < |pcs| && pcs[r].StoppingInitial?
      modifies `pcs, `passed
      ensures Valid() && pcs == old(pcs)[r := Retiring] && passed == old(passed) + {old(pcs)[r].instance}
    {
      assert At(services, records, passed, exited, checked, r, pcs[r]);
      Pass(pcs[r].instance);
      MoveTo(r, Retiring);
    }

    // An unready report: of an exit, of a failed start, or of a failed clean-up.
    method TellUnready(r: RecordId)
      requires Valid() && r < |pcs| && pcs[r].Reporting?
      modifies `pcs, `log
      ensures Valid() && pcs == old(pcs)[r := if old(pcs)[r].last then Finished else Idle]
      ensures log == old(log) + [Report(records[r].name, records[r].required, false, old(pcs)[r].exited)]
    {
      var exit := pcs[r].exited;
      assert At(services, records, passed, exited, checked, r, pcs[r]);
      MoveTo(r, if pcs[r].last then Finished else Idle);
      Tell(r, false, exit);
    }

    /** monitor, woken by the exit. A launcher that left its service behind is
        watched until its cgroup is empty or the context is cancelled. */
    method ObserveExit(r: RecordId, answers: Answers)
      requires Valid() && r < |pcs| && pcs[r].Monitoring? && pcs[r].instance in exited
      modifies `pcs
      ensures Valid()
      ensures var i := old(pcs)[r].instance;
              pcs == old(pcs)[r := if exited[i] && records[r].forking && !answers.emptied && cancelled then Finished else Exited(i)]
    {
      var i := pcs[r].instance;
      assert At(services, records, passed, exited, checked, r, pcs[r]);
      if exited[i] && records[r].forking {
        if !answers.emptied && cancelled {
          MoveTo(r, Finished);
          return;
        }
      }
      MoveTo(r, Exited(i));
    }

    // A record's delay, under the mutex.
    method SetDelay(r: RecordId, delay: int)
      requires Valid() && r < |records| && base <= delay <= max
      modifies `records
      ensures Valid() && records == old(records)[r := old(records)[r].(delay := delay)]
    {
      var after := records[r := records[r].(delay := delay)];
      StillTruthful(log, records, owner, after, owner, exited, checked);
      SameProcesses(after);
      records := after;
    }

    lemma SameProcesses(after: seq<Record>)
      requires Valid() && |after| == |records|
      requires forall q :: 0 <= q < |records| ==> after[q].name == records[q].name && after[q].process == records[q].process
      ensures Wired(services, after, owner) && Accounted(services, after, owner, passed)
      ensures AllAt(services, after, pcs, passed, exited, checked) && DrainsAt(services, after, passed, drains)
    {
      forall q | 0 <= q < |pcs|
        ensures At(services, after, passed, exited, checked, q, pcs[q])
      {
        assert At(services, records, passed, exited, checked, q, pcs[q]);
      }
      forall d | 0 <= d < |drains|
        ensures DrainAt(services, after, passed, drains[d])
      {
        assert DrainAt(services, records, passed, drains[d]);
      }
    }

    // Whether to stop what the exited process left: not if a drain will.
    method ReadDraining(r: RecordId, answers: Answers)
      requires Valid() && r < |pcs| && pcs[r].Exited?
      modifies `pcs, `records
      ensures Valid()
      ensures var i := old(pcs)[r].instance;
              pcs == old(pcs)[r := if draining then Reporting(true, Some(i)) else StoppingExited(i)]
      ensures records == if answers.stable then old(records)[r := old(records)[r].(delay := base)] else old(records)
    {
      if answers.stable {
        SetDelay(r, base);
      }
      var i := pcs[r].instance;
      assert At(services, records, passed, exited, checked, r, pcs[r]);
      MoveTo(r, if draining then Reporting(true, Some(i)) else StoppingExited(i));
    }

    method StopExited(r: RecordId)
      requires Valid() && r < |pcs| && pcs[r].StoppingExited?
      modifies `pcs, `passed
      ensures Valid() && passed == old(passed) + {old(pcs)[r].instance}
      ensures pcs == old(pcs)[r := Reporting(!records[r].restart, Some(old(pcs)[r].instance))]
    {
      var i := pcs[r].instance;
      assert At(services, records, passed, exited, checked, r, pcs[r]);
      Pass(i);
      MoveTo(r, Reporting(!records[r].restart, Some(i)));
    }

    /** The end of a restart delay: gives up while draining or cancelled, and
        otherwise lengthens the delay and starts a new instance. */
    method Restart(r: RecordId, answers: Answers)
      requires Valid() && r < |pcs| && pcs[r] == Idle
      modifies `records, `owner, `passed, `pcs
      ensures Valid()
      ensures var runs := !draining && !cancelled;
              var next := |old(owner)|;
              && owner == (if runs && answers.starts then old(owner) + [r] else old(owner))
              && pcs == old(pcs)[r := if !runs then Finished
                                      else if answers.starts && answers.listed then Checking(next, false)
                                      else Reporting(false, None)]
              && passed == (if runs && answers.starts && !answers.listed then old(passed) + {next} else old(passed))
      ensures draining || cancelled ==> records == old(records)
      ensures !draining && !cancelled ==>
                records == old(records)[r := old(records)[r].(delay := NextDelay(old(records)[r].delay, max),
                process := if !answers.starts then old(records)[r].process
                           else if answers.listed || !answers.stops then Some(|old(owner)|) else None)]
    {
      if draining || cancelled {
        MoveTo(r, Finished);
        return;
      }
      StartLater(r, answers);
    }

    // The next delay will be longer.
    method StartLater(r: RecordId, answers: Answers)
      requires Valid() && !draining && r < |pcs| && pcs[r] == Idle
      modifies `records, `owner, `passed, `pcs
      ensures Valid() && owner == if answers.starts then old(owner) + [r] else old(owner)
      ensures pcs == old(pcs)[r := if answers.starts && answers.listed then Checking(|old(owner)|, false) else Reporting(false, None)]
      ensures passed == if answers.starts && !answers.listed then old(passed) + {|old(owner)|} else old(passed)
      ensures records == old(records)[r := old(records)[r].(delay := NextDelay(old(records)[r].delay, max),
                process := if !answers.starts then old(records)[r].process
                           else if answers.listed || !answers.stops then Some(|old(owner)|) else None)]
    {
      SetDelay(r, NextDelay(records[r].delay, max));
      StartAgain(r, answers);
    }

    method StartAgain(r: RecordId, answers: Answers)
      requires Valid() && !draining && r < |pcs| && pcs[r] == Idle
      modifies `records, `owner, `passed, `pcs
      ensures Valid() && owner == if answers.starts then old(owner) + [r] else old(owner)
      ensures pcs == old(pcs)[r := if answers.starts && answers.listed then Checking(|old(owner)|, false) else Reporting(false, None)]
      ensures passed == if answers.starts && !answers.listed then old(passed) + {|old(owner)|} else old(passed)
      ensures records == if !answers.starts then old(records)
                         else old(records)[r := old(records)[r].(process := if answers.listed || !answers.stops then Some(|old(owner)|) else None)]
    {
      var started := StartLocked(r, false, answers);
      if !started {
        assert At(services, records, passed, exited, checked, r, pcs[r]);
        MoveTo(r, Reporting(false, None));
      }
    }

    // A replacement that is not ready is reported, then stopped.
    method TellReplacementUnready(r: RecordId)
      requires Valid() && r < |pcs| && pcs[r].ReportingUnready?
      modifies `pcs, `log
      ensures Valid() && pcs == old(pcs)[r := StoppingRestart(old(pcs)[r].instance)]
      ensures log == old(log) + [Report(records[r].name, records[r].required, false, None)]
    {
      assert At(services, records, passed, exited, checked, r, pcs[r]);
      MoveTo(r, StoppingRestart(pcs[r].instance));
      Tell(r, false, None);
    }

    // It is then stopped, and what is left of it is reported.
    method StopReplacement(r: RecordId, answers: Answers)
      requires Valid() && r < |pcs| && pcs[r].StoppingRestart?
      modifies `pcs, `passed, `records
      ensures Valid() && passed == old(passed) + {old(pcs)[r].instance}
      ensures pcs == old(pcs)[r := if answers.stops then Idle else Reporting(false, None)]
      ensures records == if answers.stable then old(records)[r := old(records)[r].(delay := base)] else old(records)
    {
      assert At(services, records, passed, exited, checked, r, pcs[r]);
      Pass(pcs[r].instance);
      if answers.stable {
        SetDelay(r, base);
      }
      assert At(services, records, passed, exited, checked, r, Idle);
      MoveTo(r, if answers.stops then Idle else Reporting(false, None));
    }

    // ---------- The rest of the world ----------

    // A child exits once.
    method ChildExits(i: Instance, clean: bool)
      requires Valid() && i < |owner| && i !in exited
      modifies `exited
      ensures Valid() && exited == old(exited)[i := clean]
    {
      exited := exited[i := clean];
    }

    method CancelParent()
      requires Valid()
      modifies `cancelled
      ensures Valid() && cancelled
    {
      cancelled := true;
    }

    // ---------- Drain ----------

    /** Drain, its first section: nothing is started from here on. */
    method BeginDrain(groups: seq<seq<string>>)
      requires Valid()
      modifies `draining, `cancelled, `drains, `plans, `atDrain
      ensures Valid() && draining && cancelled && drains == old(drains) + [Picking(groups, {})] && plans == old(plans) + [groups]
      ensures old(draining) ==> atDrain == old(atDrain)
    {
      if !draining {
        atDrain := |owner|;
      }
      draining, cancelled := true, true;
      drains, plans := drains + [Picking(groups, {})], plans + [groups];
    }

    // The current process of a registered service among these names.
    predicate IsCurrent(names: seq<string>, i: Instance)
      reads `services, `records
    {
      exists k :: 0 <= k < |names| && names[k] in services && services[names[k]] < |records|
        && records[services[names[k]]].process == Some(i)
    }

    /** drainGroup, its section under the mutex: exactly the current processes. */
    method Snapshot(names: seq<string>) returns (processes: set<Instance>)
      requires Valid()
      ensures forall i :: i in processes <==> IsCurrent(names, i)
    {
      processes := {};
      for k := 0 to |names|
        invariant forall i :: i in processes <==> IsCurrent(names[..k], i)
      {
        if names[k] in services {
          var record := records[services[names[k]]];
          if record.process.Some? {
            processes := processes + {record.process.value};
          }
        }
        forall i
          ensures i in processes <==> IsCurrent(names[..k + 1], i)
        {
          CurrentOfMore(names, k, i);
        }
      }
      assert names[..|names|] == names;
    }

    lemma CurrentOfMore(names: seq<string>, k: nat, i: Instance)
      requires k < |names| && forall n :: n in services ==> services[n] < |records|
      ensures IsCurrent(names[..k + 1], i) <==>
                IsCurrent(names[..k], i) || (names[k] in services && records[services[names[k]]].process == Some(i))
    {
      var longer := names[..k + 1];
      assert longer[..k] == names[..k] && longer[k] == names[k];
      if IsCurrent(names[..k], i) {
        var j :| 0 <= j < k && names[..k][j] in services && services[names[..k][j]] < |records|
          && records[services[names[..k][j]]].process == Some(i);
        assert longer[j] == names[..k][j];
      }
    }

    lemma CurrentAreHandled(names: seq<string>, processes: set<Instance>)
      requires forall i :: i in processes <==> IsCurrent(names, i)
      ensures Handled(services, records, passed + processes, AsSet(names))
    {
      forall n | n in AsSet(names) && n in services && services[n] < |records|
        ensures Passed(records[services[n]].process, passed + processes)
      {
        var k :| 0 <= k < |names| && names[k] == n;
        if records[services[n]].process.Some? {
          assert IsCurrent(names, records[services[n]].process.value);
        }
      }
    }

    method SetDrain(d: nat, drain: Drain)
      requires Valid() && d < |drains| && DrainAt(services, records, passed, drain) && DrainMoves(drains[d], drain)
      modifies `drains
      ensures Valid() && drains == old(drains)[d := drain]
    {
      MovesArePlanned(plans[d], drains[d], drain);
      drains := drains[d := drain];
    }

    /** The next step of a drain: a group's snapshot, or the names of what remains,
        the snapshot of those, or the stop of a snapshot. */
    method StepDrain(d: nat)
      requires Valid() && d < |drains|
      modifies `drains, `passed
      ensures Valid() && |drains| == |old(drains)| && old(passed) <= passed
      ensures DrainMoves(old(drains)[d], drains[d])
      ensures old(drains)[d].Picking? && old(drains)[d].todo != [] ==>
                forall i :: i in drains[d].instances <==> IsCurrent(old(drains)[d].todo[0], i)
      ensures old(drains)[d].PickingRest? ==> forall i :: i in drains[d].instances <==> IsCurrent(old(drains)[d].left, i)
      ensures passed == if old(drains)[d].Stopping? then old(passed) + old(drains)[d].instances else old(passed)
    {
      assert DrainAt(services, records, passed, drains[d]);
      match drains[d]
      case Picking(todo, handled) =>
        if todo == [] {
          var left: seq<string> := Remaining(handled);
          SetDrain(d, PickingRest(handled, left));
        } else {
          var processes := Snapshot(todo[0]);
          CurrentAreHandled(todo[0], processes);
          SetDrain(d, Stopping(todo[1..], handled, AsSet(todo[0]), processes, false));
        }
      case PickingRest(handled, left) =>
        var processes := Snapshot(left);
        CurrentAreHandled(left, processes);
        SetDrain(d, Stopping([], handled, AsSet(left), processes, true));
      case Stopping(todo, handled, names, instances, rest) =>
        PassAll(instances);
        SetDrain(d, if rest then Drained else Picking(todo, handled + names));
      case Drained =>
    }

    // The names that no group mentioned.
    method Remaining(handled: set<string>) returns (left: seq<string>)
      ensures forall n :: n in services && n !in handled <==> n in left
    {
      left := [];
      var todo := services.Keys - handled;
      while todo != {}
        invariant forall n :: n in services && n !in handled <==> n in left || n in todo
        decreases |todo|
      {
        var n :| n in todo;
        todo := todo - {n};
        left := left + [n];
      }
    }

    // stopProcesses with the processes of a snapshot.
    method PassAll(instances: set<Instance>)
      requires Valid()
      modifies `passed
      ensures Valid() && passed == old(passed) + instances
    {
      passed := passed + instances;
    }

    /** A drain that has returned has seen every instance ever started passed to
        stopProcesses, and none was started since it began. */
    lemma DrainedMeansAllPassed(d: nat)
      requires Valid() && d < |drains| && drains[d].Drained?
      ensures forall i :: 0 <= i < |owner| ==> i in passed
      ensures |owner| == atDrain
    {
      assert DrainAt(services, records, passed, drains[d]);
      forall i | 0 <= i < |owner|
        ensures i in passed
      {
        var r := owner[i];
        assert IsRegistered(services, records, r) ==> Passed(records[r].process, passed);
      }
    }

    /** Groups are stopped in the order they were given: while a drain stops one, the
        processes of every service in the groups before it have been passed to
        stopProcesses, and while it stops the rest those of every group have. */
    lemma GroupsInOrder(d: nat, g: nat, name: string)
      requires Valid() && d < |drains| && drains[d].Stopping? && g < |plans[d]| && name in plans[d][g]
      requires g < |plans[d]| - |drains[d].todo| - 1 || drains[d].rest
      ensures name in services ==> Passed(records[services[name]].process, passed)
      ensures !drains[d].rest ==> drains[d].names == AsSet(plans[d][|plans[d]| - |drains[d].todo| - 1])
    {
      assert DrainAt(services, records, passed, drains[d]) && Planned(plans[d], drains[d]);
      assert drains[d].rest || plans[d][..|plans[d]| - |drains[d].todo| - 1][g] == plans[d][g];
      assert name in drains[d].handled;
    }

    // ---------- Runs ----------

    /** One step of any goroutine, or of the world around them. A goroutine that is
        not where the step would find it does nothing. */
    method Step(action: Action)
      requires Valid()
      modifies this
      ensures Valid() && Later(old(owner), old(records), old(log)) && |old(drains)| <= |drains|
      ensures old(draining) ==> draining && owner == old(owner)
      ensures !action.Drain? ==> draining == old(draining)
      ensures forall i :: i in checked && i !in old(checked) ==> Vouches(action, i)
    {
      match action
      case StartService(service, answers) =>
        var accepted := Start(service, answers);
      case Drain(groups) => BeginDrain(groups);
      case Advance(d) =>
        if d < |drains| {
          StepDrain(d);
        }
      case Cancel => CancelParent();
      case Exit(i, clean) =>
        if i < |owner| && i !in exited {
          ChildExits(i, clean);
        }
      case Run(r, answers) =>
        if r < |pcs| {
          RunService(r, answers);
        }
    }

    // What was started and reported stays so, and so does what a service is.
    ghost predicate Later(owner: seq<RecordId>, records: seq<Record>, log: seq<Report>)
      reads this
    {
      && owner <= this.owner && log <= this.log && |records| <= |this.records|
      && forall r :: 0 <= r < |records| ==>
           this.records[r].(process := None, delay := 0) == records[r].(process := None, delay := 0)
    }

    // A step in which the service of this instance, where it has a check of its own,
    // answers that it is usable.
    ghost predicate Vouches(action: Action, i: Instance)
      reads this
    {
      && action.Run? && i < |owner| && owner[i] == action.record < |records|
      && (records[action.record].hasReady ==> action.answers.ready)
    }

    method RunService(r: RecordId, answers: Answers)
      requires Valid() && r < |pcs|
      modifies `records, `owner, `passed, `pcs, `checked, `answered, `services, `log
      ensures Valid() && Later(old(owner), old(records), old(log))
      ensures draining ==> owner == old(owner)
      ensures forall i :: i in checked && i !in old(checked) ==>
                i < |owner| && owner[i] == r && (records[r].hasReady ==> answers.ready)
    {
      if pcs[r].Checking? {
        assert At(services, records, passed, exited, checked, r, pcs[r]) && owner[pcs[r].instance] == r;
        CheckReady(r, answers);
      } else if pcs[r].Exited? || pcs[r].StoppingExited? || pcs[r].StoppingRestart? || pcs[r].Idle? || pcs[r].Finished? {
        Replace(r, answers);
      } else {
        Watch(r, answers);
      }
    }

    // The steps that start and stop nothing new.
    method Watch(r: RecordId, answers: Answers)
      requires Valid() && r < |pcs| && !pcs[r].Checking?
      requires !pcs[r].Exited? && !pcs[r].StoppingExited? && !pcs[r].StoppingRestart? && !pcs[r].Idle? && !pcs[r].Finished?
      modifies `passed, `pcs, `services, `log
      ensures Valid() && Later(old(owner), old(records), old(log))
    {
      match pcs[r]
      case Announcing(_) => Announce(r);
      case StoppingInitial(_) => StopInitial(r);
      case Retiring => Retire(r);
      case Monitoring(i) =>
        if i in exited {
          ObserveExit(r, answers);
        }
      case Reporting(_, _) => TellUnready(r);
      case ReportingUnready(_) => TellReplacementUnready(r);
    }

    // The steps from an exit to a new instance.
    method Replace(r: RecordId, answers: Answers)
      requires Valid() && r < |pcs| && (pcs[r].Exited? || pcs[r].StoppingExited? || pcs[r].StoppingRestart? || pcs[r].Idle? || pcs[r].Finished?)
      modifies `records, `owner, `passed, `pcs
      ensures Valid() && Later(old(owner), old(records), old(log))
      ensures draining ==> owner == old(owner)
    {
      match pcs[r]
      case Exited(_) => ReadDraining(r, answers);
      case StoppingExited(_) => StopExited(r);
      case StoppingRestart(_) => StopReplacement(r, answers);
      case Idle => Restart(r, answers);
      case Finished =>
    }

    /** Every interleaving: nothing is started once draining has begun, when a drain
        has returned every instance ever started has been passed to stopProcesses,
        and an instance whose check passed had its service answer so in its turn. */
    method EveryRun(actions: seq<Action>)
      requires Valid()
      modifies this
      ensures Valid() && Later(old(owner), old(records), old(log))
      ensures old(draining) ==> owner == old(owner)
      ensures (exists d :: 0 <= d < |drains| && drains[d].Drained?) ==> forall i :: 0 <= i < |owner| ==> i in passed
      ensures forall i :: i in checked && i !in old(checked) ==> exists k :: 0 <= k < |actions| && Vouches(actions[k], i)
      ensures forall e :: e in log && e.ready ==> e.instance.Some? && e.instance.value in checked
    {
      for n := 0 to |actions|
        invariant Valid() && Later(old(owner), old(records), old(log))
        invariant old(draining) ==> draining && owner == old(owner)
        invariant forall i :: i in checked && i !in old(checked) ==> exists k :: 0 <= k < n && Vouches(actions[k], i)
      {
        label before:
        Step(actions[n]);
        forall i | i in checked && i !in old(checked)
          ensures exists k :: 0 <= k < n + 1 && Vouches(actions[k], i)
        {
          if i in old@before(checked) {
            var k :| 0 <= k < n && old@before(Vouches(actions[k], i));
            assert Vouches(actions[k], i);
          } else {
            assert Vouches(actions[n], i);
          }
        }
      }
      forall e | e in log && e.ready
        ensures e.instance.Some? && e.instance.value in checked
      {
        assert ReportTrue(e, records, owner, exited, checked);
      }
      forall d | 0 <= d < |drains| && drains[d].Drained?
        ensures forall i :: 0 <= i < |owner| ==> i in passed
      {
        DrainedMeansAllPassed(d);
      }
    }
  }

  datatype Action =
    | StartService(service: Record, answers: Answers)
    | Drain(groups: seq<seq<string>>)
    | Advance(drain: nat)
    | Cancel
    | Exit(instance: Instance, clean: bool)
    | Run(record: RecordId, answers: Answers)
}
