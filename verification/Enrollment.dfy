/**
 Naming the owner of a sandbox: any number of concurrent enrollments, one
 permit, one workspace, one shell.

 Source: tinfoil/cmd/sandbox/main.go, enroll, claim and ownerKey.
 */
module Enrollment {
  import opened Options

  type Id = nat

  const NO_CONTENT: nat := 204
  const BAD_REQUEST: nat := 400
  const UNAUTHORIZED: nat := 401
  const FORBIDDEN: nat := 403
  const CONFLICT: nat := 409
  const UNAVAILABLE: nat := 503

  // The one line authorizedKey hands on: key type, blob and newline.
  function AuthorizedLine(keyType: string, blob: string): (line: string)
    ensures line != ""
  {
    keyType + " " + blob + "\n"
  }

  // ---------- The locked part of enroll, on the object ----------

  datatype Attempt = Attempt(status: nat, owner: string, unlocked: bool, started: bool)

  /** What a handler that holds the enrolling lock does, given what the
      workspace and sshd answer. */
  function LockedEnroll(owner: string, line: string, openSucceeds: bool, sshSucceeds: bool): Attempt {
    if owner != "" then Attempt(CONFLICT, owner, false, false)
    else if !openSucceeds then Attempt(FORBIDDEN, owner, false, false)
    else Attempt(if sshSucceeds then NO_CONTENT else UNAVAILABLE, line, true, true)
  }

  class Sandbox {
    var owner: string

    constructor ()
      ensures owner == ""
    {
      owner := "";
    }

    method OwnerKey() returns (key: string)
      ensures key == owner
    {
      key := owner;
    }

    method Claim(line: string) returns (ok: bool)
      modifies this
      ensures ok <==> old(owner) == ""
      ensures owner == if ok then line else old(owner)
    {
      if owner != "" {
        return false;
      }
      owner := line;
      return true;
    }

    method Enroll(line: string, openSucceeds: bool, sshSucceeds: bool)
      returns (status: nat, unlocked: bool, started: bool)
      modifies this
      ensures Attempt(status, owner, unlocked, started) == LockedEnroll(old(owner), line, openSucceeds, sshSucceeds)
      ensures status == 409 <==> old(owner) != ""
      ensures status == 403 <==> old(owner) == "" && !openSucceeds
      ensures status == 204 <==> old(owner) == "" && openSucceeds && sshSucceeds
      ensures status == 503 <==> old(owner) == "" && openSucceeds && !sshSucceeds
      ensures unlocked == started == (old(owner) == "" && openSucceeds)
      ensures owner == if old(owner) == "" && openSucceeds then line else old(owner)
    {
      unlocked, started := false, false;
      var current := OwnerKey();
      if current != "" {
        return CONFLICT, unlocked, started;
      }
      if !openSucceeds {
        return FORBIDDEN, unlocked, started;
      }
      unlocked := true;
      var claimed := Claim(line);
      if !claimed {
        return CONFLICT, unlocked, started;
      }
      started := true;
      if !sshSucceeds {
        return UNAVAILABLE, unlocked, started;
      }
      return NO_CONTENT, unlocked, started;
    }
  }

  // ---------- All interleavings ----------

  // Where a handler is. The last four hold the enrolling lock.
  datatype Phase =
    | Ready(line: string)      // permit and body accepted, waiting for the lock
    | Locked(line: string)
    | Unowned(line: string)    // ownerKey() was empty
    | Opened(line: string)     // the workspace opened
    | Claimed(line: string)    // claim() succeeded
    | Replied(status: nat)     // the reply is sent, the lock not yet released
    | Done(status: nat)

  datatype World = World(
    owner: string,
    lock: Option<Id>,
    handlers: map<Id, Phase>,
    opens: nat,                // successful workspace opens
    started: seq<string>,      // lines startSSH was called with
    granted: nat               // replies with 204
  )

  datatype Event =
    | Refuse(id: Id, status: nat)                    // before the lock: no permit, bad body, bad key
    | Accept(id: Id, keyType: string, blob: string)
    | Acquire(id: Id)
    | CheckOwner(id: Id)
    | Open(id: Id, ok: bool)
    | Claim(id: Id)
    | StartSsh(id: Id, ok: bool)
    | Release(id: Id)

  predicate Enabled(world: World, event: Event) {
    match event
    case Refuse(id, status) => id !in world.handlers && status in {UNAUTHORIZED, FORBIDDEN, BAD_REQUEST}
    case Accept(id, _, _) => id !in world.handlers
    case Acquire(id) => world.lock.None? && id in world.handlers && world.handlers[id].Ready?
    case CheckOwner(id) => id in world.handlers && world.handlers[id].Locked?
    case Open(id, _) => id in world.handlers && world.handlers[id].Unowned?
    case Claim(id) => id in world.handlers && world.handlers[id].Opened?
    case StartSsh(id, _) => id in world.handlers && world.handlers[id].Claimed?
    case Release(id) => id in world.handlers && world.handlers[id].Replied?
  }

  function Move(world: World, id: Id, phase: Phase): World {
    world.(handlers := world.handlers[id := phase])
  }

  function Step(world: World, event: Event): World
    requires Enabled(world, event)
  {
    match event
    case Refuse(id, status) => Move(world, id, Done(status))
    case Accept(id, keyType, blob) => Move(world, id, Ready(AuthorizedLine(keyType, blob)))
    case Acquire(id) => Move(world, id, Locked(world.handlers[id].line)).(lock := Some(id))
    case CheckOwner(id) =>
      Move(world, id, if world.owner != "" then Replied(CONFLICT) else Unowned(world.handlers[id].line))
    case Open(id, ok) =>
      if ok then Move(world, id, Opened(world.handlers[id].line)).(opens := world.opens + 1)
      else Move(world, id, Replied(FORBIDDEN))
    case Claim(id) =>
      if world.owner != "" then Move(world, id, Replied(CONFLICT))
      else Move(world, id, Claimed(world.handlers[id].line)).(owner := world.handlers[id].line)
    case StartSsh(id, ok) =>
      var called := world.(started := world.started + [world.handlers[id].line]);
      if ok then Move(called, id, Replied(NO_CONTENT)).(granted := world.granted + 1)
      else Move(called, id, Replied(UNAVAILABLE))
    case Release(id) => Move(world, id, Done(world.handlers[id].status)).(lock := None)
  }

  const INITIAL := World("", None, map[], 0, [], 0)

  ghost predicate IsRun(worlds: seq<World>, events: seq<Event>) {
    && |worlds| == |events| + 1
    && worlds[0] == INITIAL
    && forall i :: 0 <= i < |events| ==> Enabled(worlds[i], events[i]) && worlds[i + 1] == Step(worlds[i], events[i])
  }

  predicate HoldsLock(phase: Phase) {
    phase.Locked? || phase.Unowned? || phase.Opened? || phase.Claimed? || phase.Replied?
  }

  predicate HasLine(phase: Phase) {
    phase.Ready? || phase.Locked? || phase.Unowned? || phase.Opened? || phase.Claimed?
  }

  // The phase of the lock's holder, if there is one.
  function Holder(world: World): Option<Phase> {
    if world.lock.Some? && world.lock.value in world.handlers then Some(world.handlers[world.lock.value]) else None
  }

  ghost predicate Inv(world: World) {
    var holder := Holder(world);
    // mutual exclusion
    && (forall id :: id in world.handlers ==> (HoldsLock(world.handlers[id]) <==> world.lock == Some(id)))
    && (world.lock.Some? ==> holder.Some?)
    && (forall id :: id in world.handlers && HasLine(world.handlers[id]) ==> world.handlers[id].line != "")
    // the workspace has been opened exactly when somebody owns it or is about to
    && world.opens == (if world.owner != "" || (holder.Some? && holder.value.Opened?) then 1 else 0)
    && (holder.Some? && (holder.value.Unowned? || holder.value.Opened?) ==> world.owner == "")
    // sshd has been started exactly when somebody owns it and is past the claim
    && world.started == (if world.owner != "" && !(holder.Some? && holder.value.Claimed?) then [world.owner] else [])
    && (holder.Some? && holder.value.Claimed? ==> world.owner == holder.value.line)
    && world.granted <= |world.started|
  }

  lemma StepKeepsInv(world: World, event: Event)
    requires Inv(world) && Enabled(world, event)
    ensures Inv(Step(world, event))
  {
    var next := Step(world, event);
    assert forall id :: id in next.handlers && id != event.id ==> id in world.handlers && next.handlers[id] == world.handlers[id];
  }

  lemma {:induction false} EveryRunKeepsInv(worlds: seq<World>, events: seq<Event>, i: nat)
    requires IsRun(worlds, events) && i < |worlds|
    ensures Inv(worlds[i])
  {
    if i > 0 {
      EveryRunKeepsInv(worlds, events, i - 1);
      StepKeepsInv(worlds[i - 1], events[i - 1]);
    }
  }

  /** However the handlers interleave: the workspace opens at most once, startSSH
      is called at most once and only with the owner's line, at most one request
      is granted, and a claim after a successful open is never refused. */
  lemma OneOwner(worlds: seq<World>, events: seq<Event>, i: nat)
    requires IsRun(worlds, events) && i < |events|
    ensures worlds[i + 1].opens <= 1 && worlds[i + 1].granted <= 1
    ensures worlds[i + 1].started == [] || worlds[i + 1].started == [worlds[i + 1].owner]
    ensures events[i].Claim? ==> worlds[i].owner == "" && worlds[i + 1].handlers[events[i].id].Claimed?
    ensures worlds[i + 1].granted > worlds[i].granted ==> worlds[i].granted == 0 && worlds[i].owner == worlds[i].handlers[events[i].id].line
  {
    EveryRunKeepsInv(worlds, events, i);
    EveryRunKeepsInv(worlds, events, i + 1);
  }

  /** The owner, once named, is the owner for the rest of the run. */
  lemma {:induction false} OwnerIsForever(worlds: seq<World>, events: seq<Event>, i: nat, j: nat)
    requires IsRun(worlds, events) && i <= j < |worlds|
    requires worlds[i].owner != ""
    ensures worlds[j].owner == worlds[i].owner
    decreases j - i
  {
    if i < j {
      assert worlds[i + 1].owner == worlds[i].owner;
      OwnerIsForever(worlds, events, i + 1, j);
    }
  }

  // How far a handler has come.
  function Rank(phase: Phase): nat {
    match phase
    case Ready(_) => 0
    case Locked(_) => 1
    case Unowned(_) => 2
    case Opened(_) => 3
    case Claimed(_) => 4
    case Replied(_) => 5
    case Done(_) => 6
  }

  lemma StepRaisesRank(world: World, event: Event, id: Id)
    requires Enabled(world, event) && id in world.handlers
    ensures id in Step(world, event).handlers && Rank(world.handlers[id]) <= Rank(Step(world, event).handlers[id])
  {
  }

  lemma RunRaisesRank(worlds: seq<World>, events: seq<Event>, id: Id, i: nat)
    requires IsRun(worlds, events) && i < |events| && id in worlds[i].handlers
    ensures id in worlds[i + 1].handlers && Rank(worlds[i].handlers[id]) <= Rank(worlds[i + 1].handlers[id])
  {
    assert worlds[i + 1] == Step(worlds[i], events[i]);
    StepRaisesRank(worlds[i], events[i], id);
  }

  lemma {:induction false} RankGrows(worlds: seq<World>, events: seq<Event>, id: Id, i: nat, j: nat)
    requires IsRun(worlds, events) && i <= j < |worlds| && id in worlds[i].handlers
    ensures id in worlds[j].handlers && Rank(worlds[i].handlers[id]) <= Rank(worlds[j].handlers[id])
    decreases j - i
  {
    if i < j {
      RankGrows(worlds, events, id, i, j - 1);
      RunRaisesRank(worlds, events, id, j - 1);
    }
  }

  /** The interleaved handlers amount to atomic ones. For every handler that takes
      the lock, whatever event makes it reply: the owner, the status, the opens and
      the starts it leaves are those the locked part of enroll computes from the
      owner it found and from what the workspace and sshd answered it. */
  lemma HandlerIsAtomic(worlds: seq<World>, events: seq<Event>, id: Id, c: nat, s: nat)
    requires IsRun(worlds, events) && c <= s < |events|
    requires events[c] == CheckOwner(id) && events[s].id == id
    requires id in worlds[s].handlers && !worlds[s].handlers[id].Replied? && worlds[s + 1].handlers[id].Replied?
    ensures var line := worlds[c].handlers[id].line;
            var attempt := LockedEnroll(worlds[c].owner, line, !events[s].Open?, events[s].StartSsh? && events[s].ok);
            && worlds[s + 1].owner == attempt.owner
            && worlds[s + 1].handlers[id] == Replied(attempt.status)
            && worlds[s + 1].opens == worlds[c].opens + (if attempt.unlocked then 1 else 0)
            && worlds[s + 1].started == worlds[c].started + (if attempt.started then [line] else [])
  {
    EveryRunKeepsInv(worlds, events, c);
    EveryRunKeepsInv(worlds, events, s);
    EveryRunKeepsInv(worlds, events, s + 1);
    if c < s {
      RankGrows(worlds, events, id, c + 1, s);
      LineIsKept(worlds, events, id, c, s);
    }
  }

  // Handlers stay, and one that has replied does not get a line again.
  lemma {:induction false} LineIsKept(worlds: seq<World>, events: seq<Event>, id: Id, i: nat, j: nat)
    requires IsRun(worlds, events) && i <= j < |worlds|
    requires id in worlds[i].handlers && HasLine(worlds[i].handlers[id])
    requires id in worlds[j].handlers && HasLine(worlds[j].handlers[id])
    ensures worlds[j].handlers[id].line == worlds[i].handlers[id].line
    decreases j - i
  {
    if i < j {
      Stays(worlds, events, id, i, j - 1);
      assert worlds[j] == Step(worlds[j - 1], events[j - 1]);
      LineIsKept(worlds, events, id, i, j - 1);
    }
  }

  lemma {:induction false} Stays(worlds: seq<World>, events: seq<Event>, id: Id, i: nat, j: nat)
    requires IsRun(worlds, events) && i <= j < |worlds| && id in worlds[i].handlers
    ensures id in worlds[j].handlers
    decreases j - i
  {
    if i < j {
      Stays(worlds, events, id, i, j - 1);
      assert worlds[j] == Step(worlds[j - 1], events[j - 1]);
    }
  }
}
