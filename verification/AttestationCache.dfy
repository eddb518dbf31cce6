/**
 The single-flight cache of attestation collateral: any number of callers, at
 most one fetch, every critical section atomic and every interleaving allowed.

 Source: tinfoil/internal/attestationmaterial/cache.go.
 */
module AttestationCache {
  import opened Options

  type Time = int        // nanoseconds; the clock may return anything
  type Channel = nat     // done channels, numbered as they are made
  type Caller = nat
  type Collateral = nat

  const SECOND: Time := 1_000_000_000
  const REFRESH_BEFORE: Time := 24 * 3600 * SECOND
  const RETRY_AFTER: Time := 60 * SECOND
  const MAX_DURATION: Time := 0x7FFF_FFFF_FFFF_FFFF

  datatype Response = Response(collateral: Collateral, expiresAt: Time)
  datatype FetchResult = Fetched(response: Response) | FetchError

  // The fields the mutex guards.
  datatype State = State(response: Option<Response>, refreshing: Option<Channel>, nextAttempt: Time)

  // What one pass through the locked part of Current decides.
  datatype Decision = Serve(collateral: Collateral) | Wait(done: Channel) | Unavailable

  // `started`: the pass called startRefresh.
  datatype Pass = Pass(state: State, decision: Decision, started: bool)

  // ---------- The two critical sections, as functions ----------

  predicate Fresh(state: State, now: Time) {
    state.response.Some? && now < state.response.value.expiresAt
  }

  function CurrentPass(state: State, unused: Channel, now: Time): Pass {
    var idle := state.refreshing.None? && now >= state.nextAttempt;
    var refreshed := if idle then state.(refreshing := Some(unused)) else state;
    if Fresh(state, now) then Pass(refreshed, Serve(state.response.value.collateral), idle)
    else if state.refreshing.Some? then Pass(state, Wait(state.refreshing.value), false)
    else if idle then Pass(refreshed, Wait(unused), true)
    else Pass(state, Unavailable, false)
  }

  // time.Time.Sub saturates.
  function Sub(later: Time, earlier: Time): Time {
    if later - earlier > MAX_DURATION then MAX_DURATION
    else if later - earlier < -MAX_DURATION - 1 then -MAX_DURATION - 1
    else later - earlier
  }

  function Least(a: Time, b: Time): Time { if a <= b then a else b }

  predicate Usable(result: FetchResult, now: Time) {
    result.Fetched? && now < result.response.expiresAt
  }

  function Committed(state: State, result: FetchResult, now: Time): State
  {
    if Usable(result, now) then
      var expiry := result.response.expiresAt;
      State(Some(result.response), None, expiry - Least(REFRESH_BEFORE, Sub(expiry, now) / 2))
    else
      State(state.response, None, now + RETRY_AFTER)
  }

  // ---------- The object ----------

  class Cache {
    var response: Option<Response>
    var refreshing: Option<Channel>
    var nextAttempt: Time
    var channels: nat   // channels made so far

    ghost function View(): State
      reads this
    {
      State(response, refreshing, nextAttempt)
    }

    // The zero time precedes every clock reading the program can see.
    constructor (zeroTime: Time)
      ensures View() == State(None, None, zeroTime) && channels == 0
    {
      response, refreshing, nextAttempt, channels := None, None, zeroTime, 0;
    }

    method StartRefresh() returns (done: Channel)
      modifies this
      ensures done == old(channels) && channels == old(channels) + 1
      ensures View() == old(View()).(refreshing := Some(done))
    {
      done := channels;
      channels := channels + 1;
      refreshing := Some(done);
    }

    /** Current, from c.mu.Lock() to c.mu.Unlock(). */
    method Current(now: Time) returns (decision: Decision, started: bool)
      modifies this
      ensures Pass(View(), decision, started) == CurrentPass(old(View()), old(channels), now)
      ensures channels == old(channels) + (if started then 1 else 0)
      // A fetch is started whenever none runs and it is time for one.
      ensures started <==> old(refreshing) == None && now >= old(nextAttempt)
      ensures refreshing == if started then Some(old(channels)) else old(refreshing)
      ensures response == old(response) && nextAttempt == old(nextAttempt)
      // What is unexpired is served; otherwise the caller waits for the fetch that
      // runs now, if one does.
      ensures decision.Serve? <==> response.Some? && now < response.value.expiresAt
      ensures decision.Serve? ==> decision.collateral == response.value.collateral
      ensures decision.Wait? <==> !decision.Serve? && refreshing.Some?
      ensures decision.Wait? ==> decision.done == refreshing.value
      ensures decision == Unavailable <==>
                !(response.Some? && now < response.value.expiresAt) && old(refreshing) == None && now < old(nextAttempt)
    {
      started := false;
      if response.Some? && now < response.value.expiresAt {
        decision := Serve(response.value.collateral);
        if refreshing.None? && !(now < nextAttempt) {
          var done := StartRefresh();
          started := true;
        }
        return;
      }
      if refreshing.Some? {
        return Wait(refreshing.value), false;
      }
      if now < nextAttempt {
        return Unavailable, false;
      }
      var done := StartRefresh();
      return Wait(done), true;
    }

    /** refresh, after Fetch returned and the clock was read. */
    method Refresh(result: FetchResult, now: Time)
      modifies this
      ensures View() == Committed(old(View()), result, now)
      ensures channels == old(channels) && refreshing == None
      ensures response == if result.Fetched? && now < result.response.expiresAt then Some(result.response) else old(response)
      ensures result.FetchError? || now >= result.response.expiresAt ==> nextAttempt == now + 60 * SECOND
      // Half-way to expiry, but at most a day before it.
      ensures result.Fetched? && now < result.response.expiresAt ==>
                var half, day := (result.response.expiresAt - now) / 2, 86_400 * SECOND;
                nextAttempt == result.response.expiresAt - (if half <= day then half else day)
    {
      var failed := result.FetchError?;
      if !failed && !(now < result.response.expiresAt) {
        failed := true;
      }
      if failed {
        nextAttempt := now + RETRY_AFTER;
      } else {
        response := Some(result.response);
        var remaining := Sub(result.response.expiresAt, now);
        nextAttempt := result.response.expiresAt - Least(REFRESH_BEFORE, remaining / 2);
      }
      refreshing := None;
    }
  }

  // ---------- All interleavings ----------

  // A fetch goroutine: waiting for the fetcher, or about to take the lock with
  // its result and the time it read.
  datatype Fetch = Fetching | Returned(result: FetchResult, now: Time)

  datatype World = World(
    cache: State,
    made: nat,                        // channels made
    closed: seq<Channel>,             // close(done), in order
    fetches: map<Channel, Fetch>,     // running goroutines, by the channel they will close
    waiting: map<Caller, Channel>     // callers blocked in select
  )

  datatype Event =
    | Enter(caller: Caller, now: Time)      // a new call, or one woken by its channel
    | Cancel(caller: Caller)                // the caller's context ends
    | FetchReturns(done: Channel, result: FetchResult, now: Time)
    | Commit(done: Channel)

  predicate Enabled(world: World, event: Event) {
    match event
    case Enter(caller, _) => caller in world.waiting ==> world.waiting[caller] in world.closed
    case Cancel(caller) => caller in world.waiting
    case FetchReturns(done, _, _) => done in world.fetches && world.fetches[done].Fetching?
    case Commit(done) => done in world.fetches && world.fetches[done].Returned?
  }

  function Step(world: World, event: Event): World
    requires Enabled(world, event)
  {
    match event
    case Enter(caller, now) =>
      var pass := CurrentPass(world.cache, world.made, now);
      World(
        pass.state,
        world.made + (if pass.started then 1 else 0),
        world.closed,
        if pass.started then world.fetches[world.made := Fetching] else world.fetches,
        if pass.decision.Wait? then world.waiting[caller := pass.decision.done] else world.waiting - {caller})
    case Cancel(caller) => world.(waiting := world.waiting - {caller})
    case FetchReturns(done, result, now) => world.(fetches := world.fetches[done := Returned(result, now)])
    case Commit(done) =>
      var fetch := world.fetches[done];
      world.(
        cache := Committed(world.cache, fetch.result, fetch.now),
        closed := world.closed + [done],
        fetches := world.fetches - {done})
  }

  function Initial(zeroTime: Time): World {
    World(State(None, None, zeroTime), 0, [], map[], map[])
  }

  ghost predicate IsRun(worlds: seq<World>, events: seq<Event>, zeroTime: Time) {
    && |worlds| == |events| + 1
    && worlds[0] == Initial(zeroTime)
    && forall i :: 0 <= i < |events| ==> Enabled(worlds[i], events[i]) && worlds[i + 1] == Step(worlds[i], events[i])
  }

  // One fetch at most, the one `refreshing` names.
  predicate SingleFlight(world: World) {
    world.fetches.Keys == if world.cache.refreshing.Some? then {world.cache.refreshing.value} else {}
  }

  // Every channel made is closed, exactly once, unless its fetch is running.
  ghost predicate ClosedOnce(world: World) {
    && (forall i, j :: 0 <= i < j < |world.closed| ==> world.closed[i] != world.closed[j])
    && (forall c: Channel :: (c in world.closed || c in world.fetches) <==> c < world.made)
    && (forall c: Channel :: !(c in world.closed && c in world.fetches))
  }

  // A blocked caller waits for a closed channel or for a running fetch.
  predicate NobodyStranded(world: World) {
    forall caller :: caller in world.waiting ==>
      world.waiting[caller] in world.closed || world.waiting[caller] in world.fetches
  }

  ghost predicate Inv(world: World) {
    SingleFlight(world) && ClosedOnce(world) && NobodyStranded(world)
  }

  lemma EnterKeepsInv(world: World, event: Event)
    requires Inv(world) && event.Enter? && Enabled(world, event)
    ensures Inv(Step(world, event))
  {
    var next := Step(world, event);
    assert next.closed == world.closed;
    if next.made > world.made {
      assert next.fetches.Keys == {world.made};
      assert world.made !in world.closed;
    }
  }

  lemma CommitKeepsInv(world: World, event: Event)
    requires Inv(world) && event.Commit? && Enabled(world, event)
    ensures Inv(Step(world, event))
  {
    var next := Step(world, event);
    assert next.fetches.Keys == {};
    assert forall c: Channel :: c in next.closed <==> c in world.closed || c == event.done;
  }

  lemma StepKeepsInv(world: World, event: Event)
    requires Inv(world) && Enabled(world, event)
    ensures Inv(Step(world, event))
  {
    match event
    case Enter(_, _) => EnterKeepsInv(world, event);
    case Commit(_) => CommitKeepsInv(world, event);
    case Cancel(_) =>
    case FetchReturns(done, _, _) =>
      assert Step(world, event).fetches.Keys == world.fetches.Keys;
  }

  /** In every run of any number of callers: at most one fetch is in flight, each
      done channel is closed exactly once, and no caller waits for a fetch that
      nobody runs. */
  lemma {:induction false} EveryRunIsSingleFlight(worlds: seq<World>, events: seq<Event>, zeroTime: Time, i: nat)
    requires IsRun(worlds, events, zeroTime) && i < |worlds|
    ensures Inv(worlds[i])
  {
    if i > 0 {
      EveryRunIsSingleFlight(worlds, events, zeroTime, i - 1);
      StepKeepsInv(worlds[i - 1], events[i - 1]);
    }
  }

  /** What a single step may do, wherever it happens in a run: a fetch starts only
      at or after the stored next attempt; what Current serves has not expired at
      the clock it read; a response once held is only ever replaced, and only by
      one that was fetched unexpired. */
  lemma StepsAreTimely(world: World, event: Event)
    requires Inv(world) && Enabled(world, event)
    ensures Step(world, event).fetches.Keys > world.fetches.Keys ==>
              event.Enter? && event.now >= world.cache.nextAttempt && world.fetches == map[]
    ensures event.Enter? && CurrentPass(world.cache, world.made, event.now).decision.Serve? ==>
              && world.cache.response.Some?
              && CurrentPass(world.cache, world.made, event.now).decision.collateral == world.cache.response.value.collateral
              && event.now < world.cache.response.value.expiresAt
    ensures Step(world, event).cache.response != world.cache.response ==>
              && event.Commit?
              && world.fetches[event.done].result.Fetched?
              && Step(world, event).cache.response == Some(world.fetches[event.done].result.response)
              && world.fetches[event.done].now < world.fetches[event.done].result.response.expiresAt
    ensures world.cache.response.Some? ==> Step(world, event).cache.response.Some?
  {
    if event.Enter? {
      assert world.made !in world.fetches;
    }
    if event.FetchReturns? {
      assert Step(world, event).fetches.Keys == world.fetches.Keys;
    }
  }

  /** What a call does, wherever it happens in a run: it starts a fetch, on a new
      channel, exactly if none runs and it is time for one, whether or not it is
      served what is held; and unless it is, it waits for the fetch that runs. */
  lemma EnterStartsAndWaits(world: World, event: Event)
    requires Inv(world) && Enabled(world, event) && event.Enter?
    ensures var next, now := Step(world, event), event.now;
            var held := world.cache.response.Some? && now < world.cache.response.value.expiresAt;
            var due := world.fetches == map[] && now >= world.cache.nextAttempt;
            && next.fetches == (if due then map[world.made := Fetching] else world.fetches)
            && next.made == world.made + (if due then 1 else 0)
            && next.cache.response == world.cache.response && next.cache.nextAttempt == world.cache.nextAttempt
            && (event.caller in next.waiting <==> !held && next.fetches != map[])
            && (event.caller in next.waiting ==> next.waiting[event.caller] in next.fetches)
  {
    var channel := world.cache.refreshing;
    if channel.Some? {
      assert channel.value in world.fetches;
    } else {
      assert world.fetches.Keys == {};
      assert world.fetches == map[];
      var next := Step(world, event);
      if event.now >= world.cache.nextAttempt {
        assert world.made in next.fetches;
        assert next.fetches == map[world.made := Fetching];
      }
    }
  }

  /** The schedule a fetch leaves behind: success schedules the next attempt
      strictly after the clock it read, no later than expiry, and no earlier than
      a day ahead of it; failure keeps the response and retries in a minute. */
  lemma CommitSchedules(state: State, result: FetchResult, now: Time)
    ensures Usable(result, now) ==>
              && now < Committed(state, result, now).nextAttempt <= result.response.expiresAt
              && Committed(state, result, now).nextAttempt >= result.response.expiresAt - REFRESH_BEFORE
    ensures Usable(result, now) && result.response.expiresAt - now >= 2 * REFRESH_BEFORE ==>
              Committed(state, result, now).nextAttempt == result.response.expiresAt - REFRESH_BEFORE
    ensures !Usable(result, now) ==>
              Committed(state, result, now) == State(state.response, None, now + RETRY_AFTER)
  {
  }

  /** A run-wide consequence: from the moment a response is committed until the
      next commit, a caller that reads a clock before its expiry is served. */
  lemma {:induction false} ServedUntilExpiry(worlds: seq<World>, events: seq<Event>, zeroTime: Time, i: nat, j: nat)
    requires IsRun(worlds, events, zeroTime) && i <= j < |events|
    requires worlds[i].cache.response.Some?
    requires forall k :: i <= k < j ==> !events[k].Commit?
    requires events[j].Enter? && events[j].now < worlds[i].cache.response.value.expiresAt
    ensures CurrentPass(worlds[j].cache, worlds[j].made, events[j].now).decision
         == Serve(worlds[i].cache.response.value.collateral)
    decreases j - i
  {
    if i < j {
      assert !events[i].Commit?;
      assert worlds[i + 1].cache.response == worlds[i].cache.response;
      ServedUntilExpiry(worlds, events, zeroTime, i + 1, j);
    }
  }
}
