/** Cancelling game supervisors: launch, rollback and shutdown requests exchange stop flags
    through one mutex-guarded slot while supervisor threads poll their own flag. Requests and
    threads interleave at every lock, slot and flag operation. What they do to the settings on
    the way is the subject of SupervisedSettings. */
module Supervisor {
  import opened Options

  /** A request inside or around its critical section. `Took` holds what was in the slot;
      a rollback recovers after it has released the lock. */
  datatype Stage = WantLock | Locked | Took(previous: Option<nat>) | Stored | Put | Released | Recovering | Finished

  /** A launch applies and brings a new flag, named like the request; rollback and shutdown only
      empty the slot; an apply request does nothing else. */
  datatype Kind = Launch | ApplyOnly | Rollback | Shutdown

  datatype Request = Request(kind: Kind, stage: Stage)

  datatype Phase = Polling | Optimizing | Waiting | Exited | Restoring | Complete | Cancelled

  datatype State = State(
    slot: Option<nat>,              // ACTIVE_SUPERVISOR_STOP
    lock: Option<nat>,              // the request that holds its mutex
    flags: map<nat, bool>,          // stop flags; true means stop
    requests: map<nat, Request>,
    threads: map<nat, Phase>)       // spawned supervisors, named like their launch

  const INIT: State := State(None, None, map[], map[], map[])

  /** `good`: the process was found, could be opened, has exited. */
  datatype Event =
    | Begin(id: nat, kind: Kind)
    | Proceed(id: nat)
    | ThreadStep(id: nat, good: bool)

  function To(st: State, id: nat, s: Stage): State
    requires id in st.requests
  {
    st.(requests := st.requests[id := st.requests[id].(stage := s)])
  }

  /** One step of a request: lock, take, set the taken flag, put the new one, unlock, spawn;
      or, for a rollback, unlock and recover. */
  function ProceedFrom(st: State, id: nat): State
    requires id in st.requests
  {
    match st.requests[id].stage
    case WantLock => if st.lock.None? then To(st, id, Locked).(lock := Some(id)) else st
    case Locked => To(st, id, Took(st.slot)).(slot := None)
    case Took(previous) =>
      To(st, id, Stored).(flags := if previous.Some? then st.flags[previous.value := true] else st.flags)
    case Stored => (
      if st.requests[id].kind.Launch? then To(st, id, Put).(slot := Some(id))
      else To(st, id, if st.requests[id].kind.Rollback? then Recovering else Finished).(lock := None)
    )
    case Put => To(st, id, Released).(lock := None)
    case Released => To(st, id, Finished).(threads := st.threads[id := Polling])
    case Recovering => To(st, id, Finished)
    case Finished => st
  }

  /** A request begins: launch and apply requests have applied, and a launch has its flag. */
  function BeginWith(st: State, id: nat, kind: Kind): State {
    st.(requests := st.requests[id := Request(kind, if kind.ApplyOnly? then Finished else WantLock)],
        flags := if kind.Launch? then st.flags[id := false] else st.flags)
  }

  /** One step of a supervisor thread; every look at the flag is a step of its own. */
  function ThreadNext(stop: bool, p: Phase, good: bool): Phase {
    match p
    case Polling => if stop then Cancelled else if good then Optimizing else Polling
    case Optimizing => if good then Waiting else Cancelled
    case Waiting => if stop then Cancelled else if good then Exited else Waiting
    case Exited => if stop then Cancelled else Restoring
    case Restoring => Complete
    case _ => p
  }

  function Step(st: State, e: Event): State {
    match e
    case Begin(id, kind) => if id in st.requests then st else BeginWith(st, id, kind)
    case Proceed(id) => if id in st.requests then ProceedFrom(st, id) else st
    case ThreadStep(id, good) =>
      if id !in st.threads || id !in st.flags then st
      else
        var p := ThreadNext(st.flags[id], st.threads[id], good);
        st.(threads := st.threads[id := p])
  }

  function Run(st: State, events: seq<Event>): State {
    if events == [] then st else Step(Run(st, events[..|events| - 1]), events[|events| - 1])
  }

  // ----- the invariant -----

  predicate Holds(s: Stage) {
    s.Locked? || s.Took? || s.Stored? || s.Put?
  }

  /** The launch has published its flag. */
  ghost predicate Published(st: State, id: nat) {
    id in st.requests && st.requests[id].kind.Launch? &&
    var s := st.requests[id].stage; s.Put? || s.Released? || s.Finished?
  }

  /** The request inside the critical section has taken the flag but not yet set it. */
  ghost predicate Pending(st: State, id: nat) {
    st.lock.Some? && st.lock.value in st.requests && st.requests[st.lock.value].stage == Took(Some(id))
  }

  ghost predicate LockOk(st: State) {
    && (st.lock.Some? ==> st.lock.value in st.requests)
    && forall id :: id in st.requests ==> (Holds(st.requests[id].stage) <==> st.lock == Some(id))
  }

  /** Exactly the launches have flags. */
  ghost predicate FlagsOk(st: State) {
    forall id :: id in st.flags <==> id in st.requests && st.requests[id].kind.Launch?
  }

  /** Only published launches have threads, and only launches put and spawn. */
  ghost predicate ThreadsOk(st: State) {
    && (forall id :: id in st.threads ==> Published(st, id))
    && forall id :: id in st.requests && !st.requests[id].kind.Launch? ==>
         !st.requests[id].stage.Put? && !st.requests[id].stage.Released?
  }

  /** Only rollbacks recover. */
  ghost predicate RecoveryOk(st: State) {
    forall id :: id in st.requests && st.requests[id].stage.Recovering? ==> st.requests[id].kind.Rollback?
  }

  /** A published flag that is unset is in the slot or in the hands of the lock holder. */
  ghost predicate LiveOk(st: State) {
    forall id :: Published(st, id) && id in st.flags && !st.flags[id] ==> st.slot == Some(id) || Pending(st, id)
  }

  /** What is in the slot or held is published, and the slot is empty once taken. */
  ghost predicate SlotOk(st: State) {
    && (st.slot.Some? ==> Published(st, st.slot.value))
    && (forall id :: Pending(st, id) ==> Published(st, id))
    && (st.lock.Some? && st.lock.value in st.requests ==>
          var s := st.requests[st.lock.value].stage; s.Took? || s.Stored? ==> st.slot.None?)
  }

  ghost predicate Inv(st: State) {
    LockOk(st) && FlagsOk(st) && ThreadsOk(st) && RecoveryOk(st) && LiveOk(st) && SlotOk(st)
  }

  /** A request that begins publishes nothing and changes nobody's place in the protocol. */
  lemma BeginKeepsPlaces(st: State, id: nat, kind: Kind)
    requires LockOk(st) && id !in st.requests
    ensures forall i :: Published(BeginWith(st, id, kind), i) <==> Published(st, i)
    ensures forall i :: Pending(BeginWith(st, id, kind), i) <==> Pending(st, i)
  {
  }

  lemma BeginKeepsRequests(st: State, id: nat, kind: Kind)
    requires LockOk(st) && FlagsOk(st) && RecoveryOk(st) && id !in st.requests
    ensures var st' := BeginWith(st, id, kind); LockOk(st') && FlagsOk(st') && RecoveryOk(st')
  {
  }

  lemma BeginKeepsInv(st: State, id: nat, kind: Kind)
    requires Inv(st) && id !in st.requests
    ensures Inv(BeginWith(st, id, kind))
  {
    BeginKeepsPlaces(st, id, kind);
    BeginKeepsRequests(st, id, kind);
  }

  lemma ProceedKeepsLock(st: State, id: nat)
    requires LockOk(st) && id in st.requests
    ensures LockOk(ProceedFrom(st, id))
  {
  }

  lemma ProceedKeepsFlags(st: State, id: nat)
    requires FlagsOk(st) && LockOk(st) && SlotOk(st) && id in st.requests
    ensures FlagsOk(ProceedFrom(st, id))
  {
    if st.requests[id].stage.Took? && st.requests[id].stage.previous.Some? {
      assert Pending(st, st.requests[id].stage.previous.value);
    }
  }

  lemma ProceedKeepsPublished(st: State, id: nat, i: nat)
    requires Published(st, i) && id in st.requests
    ensures Published(ProceedFrom(st, id), i)
  {
  }

  lemma ProceedKeepsThreads(st: State, id: nat)
    requires ThreadsOk(st) && id in st.requests
    ensures ThreadsOk(ProceedFrom(st, id))
  {
    var st' := ProceedFrom(st, id);
    forall i | i in st'.threads ensures Published(st', i) {
      if i in st.threads {
        ProceedKeepsPublished(st, id, i);
      }
    }
  }

  lemma ProceedKeepsSlot(st: State, id: nat)
    requires SlotOk(st) && LockOk(st) && ThreadsOk(st) && id in st.requests
    ensures SlotOk(ProceedFrom(st, id))
  {
    var st' := ProceedFrom(st, id);
    forall i | Published(st, i) ensures Published(st', i) {
      ProceedKeepsPublished(st, id, i);
    }
    forall i: nat | Pending(st', i) ensures Published(st', i) {
      assert Pending(st, i) || (st.lock == Some(id) && st.slot == Some(i));
    }
  }

  lemma ProceedKeepsLive(st: State, id: nat)
    requires LiveOk(st) && SlotOk(st) && LockOk(st) && RecoveryOk(st) && id in st.requests
    ensures LiveOk(ProceedFrom(st, id))
  {
    var st' := ProceedFrom(st, id);
    forall i | Published(st', i) && i in st'.flags && !st'.flags[i]
      ensures st'.slot == Some(i) || Pending(st', i)
    {
      assert i == id || Published(st, i);
    }
  }

  lemma ProceedKeepsRecovery(st: State, id: nat)
    requires RecoveryOk(st) && id in st.requests
    ensures RecoveryOk(ProceedFrom(st, id))
  {
  }

  lemma ProceedKeepsInv(st: State, id: nat)
    requires Inv(st) && id in st.requests
    ensures Inv(ProceedFrom(st, id))
  {
    ProceedKeepsLock(st, id);
    ProceedKeepsFlags(st, id);
    ProceedKeepsThreads(st, id);
    ProceedKeepsRecovery(st, id);
    ProceedKeepsSlot(st, id);
    ProceedKeepsLive(st, id);
  }

  lemma ThreadKeepsInv(st: State, id: nat, good: bool)
    requires Inv(st)
    ensures Inv(Step(st, ThreadStep(id, good)))
  {
    var st' := Step(st, ThreadStep(id, good));
    assert forall i :: Published(st', i) <==> Published(st, i);
    assert forall i :: Pending(st', i) <==> Pending(st, i);
  }

  lemma StepKeepsInv(st: State, e: Event)
    requires Inv(st)
    ensures Inv(Step(st, e))
  {
    match e
    case Begin(id, kind) =>
      if id !in st.requests {
        BeginKeepsInv(st, id, kind);
      }
    case Proceed(id) =>
      if id in st.requests {
        ProceedKeepsInv(st, id);
      }
    case ThreadStep(id, good) => ThreadKeepsInv(st, id, good);
  }

  lemma {:induction false} RunKeepsInv(st: State, events: seq<Event>)
    requires Inv(st)
    ensures Inv(Run(st, events))
  {
    if events != [] {
      RunKeepsInv(st, events[..|events| - 1]);
      StepKeepsInv(Run(st, events[..|events| - 1]), events[|events| - 1]);
    }
  }

  // ----- what it means -----

  /** In every reachable state at most one spawned supervisor is live, and it is the one in the
      slot or the one that the lock holder is about to stop. */
  lemma {:induction false} OneLiveSupervisor(events: seq<Event>, i: nat, j: nat)
    ensures var st := Run(INIT, events);
            && (Live(st, i) ==> st.slot == Some(i) || Pending(st, i))
            && (Live(st, i) && Live(st, j) ==> i == j)
  {
    RunKeepsInv(INIT, events);
  }

  /** A spawned supervisor that has not been told to stop. */
  ghost predicate Live(st: State, i: nat) {
    i in st.threads && i in st.flags && !st.flags[i]
  }

  /** When a rollback or shutdown is about to release the lock, every spawned supervisor has
      been told to stop. */
  lemma {:induction false} CancelStopsEverybody(events: seq<Event>, c: nat, i: nat)
    requires var st := Run(INIT, events);
             c in st.requests && !st.requests[c].kind.Launch? && st.requests[c].stage.Stored? && i in st.threads
    ensures var st := Run(INIT, events); i in st.flags && st.flags[i]
  {
    RunKeepsInv(INIT, events);
  }

  lemma RequestStays(st: State, e: Event, id: nat)
    requires id in st.requests
    ensures id in Step(st, e).requests
  {
  }

  /** Stop flags only ever go from false to true, in one step and so in any number of them. */
  lemma {:induction false} FlagsOnlyRise(st: State, events: seq<Event>, i: nat)
    requires Inv(st) && i in st.flags
    ensures i in Run(st, events).flags && (st.flags[i] ==> Run(st, events).flags[i])
  {
    if events != [] {
      FlagsOnlyRise(st, events[..|events| - 1], i);
      RunKeepsInv(st, events[..|events| - 1]);
      FlagSurvivesStep(Run(st, events[..|events| - 1]), events[|events| - 1], i);
    }
  }

  lemma FlagSurvivesStep(st: State, e: Event, i: nat)
    requires FlagsOk(st) && i in st.flags
    ensures i in Step(st, e).flags && (st.flags[i] ==> Step(st, e).flags[i])
  {
  }

  /** Post-match restoration has begun or is over. */
  predicate Restores(p: Phase) {
    p.Restoring? || p.Complete?
  }

  /** A supervisor whose flag is set before its final check never starts restoration, whatever
      happens afterwards; the same goes for one that is not even spawned yet. */
  lemma {:induction false} StoppedNeverRestores(st: State, events: seq<Event>, i: nat)
    requires Inv(st) && i in st.flags && st.flags[i]
    requires i in st.threads ==> !Restores(st.threads[i])
    ensures var st' := Run(st, events); i in st'.threads ==> !Restores(st'.threads[i])
  {
    if events != [] {
      var init := events[..|events| - 1];
      StoppedNeverRestores(st, init, i);
      FlagsOnlyRise(st, init, i);
      StoppedStepNeverRestores(Run(st, init), events[|events| - 1], i);
    }
  }

  lemma StoppedStepNeverRestores(st: State, e: Event, i: nat)
    requires i in st.flags && st.flags[i] && (i in st.threads ==> !Restores(st.threads[i]))
    ensures i in Step(st, e).threads ==> !Restores(Step(st, e).threads[i])
  {
  }

  /** A supervisor starts restoration only in a step in which its flag is unset, so only while
      it is the one in the slot or about to be stopped. */
  lemma {:induction false} RestorationNeedsLiveFlag(events: seq<Event>, e: Event, i: nat)
    requires StartsRestoring(Run(INIT, events), e, i)
    ensures var st := Run(INIT, events); Live(st, i) && (st.slot == Some(i) || Pending(st, i))
  {
    RunKeepsInv(INIT, events);
    StartNeedsLive(Run(INIT, events), e, i);
  }

  ghost predicate StartsRestoring(st: State, e: Event, i: nat) {
    && (i in st.threads ==> !Restores(st.threads[i]))
    && var st' := Step(st, e); i in st'.threads && Restores(st'.threads[i])
  }

  lemma StartNeedsLive(st: State, e: Event, i: nat)
    requires Inv(st) && StartsRestoring(st, e, i)
    ensures Live(st, i) && Published(st, i)
  {
  }

  // ----- what a supervisor has seen -----

  /** How far a supervisor has come; one that was cancelled counts as nowhere. */
  function Progress(p: Phase): nat {
    match p
    case Cancelled => 0
    case Polling => 0
    case Optimizing => 1
    case Waiting => 2
    case Exited => 3
    case Restoring => 4
    case Complete => 5
  }

  /** Event `k` is a good step of the supervisor in that phase: the process was found (Polling), it
      could be opened (Optimizing), it had exited (Waiting). */
  ghost predicate Saw(events: seq<Event>, k: int, id: nat, p: Phase) {
    && 0 <= k < |events| && events[k] == ThreadStep(id, true)
    && id in Run(INIT, events[..k]).threads && Run(INIT, events[..k]).threads[id] == p
  }

  /** The phase that a good step leaves for the one at that distance. */
  function Before(n: nat): Phase {
    if n <= 1 then Polling else if n == 2 then Optimizing else Waiting
  }

  lemma SawIsKept(events: seq<Event>, e: Event, k: int, id: nat, p: Phase)
    requires Saw(events, k, id, p)
    ensures Saw(events + [e], k, id, p)
  {
    assert (events + [e])[..k] == events[..k];
  }

  lemma ProgressStep(st: State, e: Event, id: nat, n: nat)
    requires 1 <= n <= 3 && id in Step(st, e).threads && Progress(Step(st, e).threads[id]) >= n
    ensures id in st.threads
    ensures Progress(st.threads[id]) >= n || (e == ThreadStep(id, true) && st.threads[id] == Before(n))
  {
  }

  /** Over every run: a supervisor that has got past looking for the game has found it, one that
      waits has opened it, and one that has exited, restores or is complete has seen it exit. */
  lemma {:induction false} ProgressWasSeen(events: seq<Event>, id: nat, n: nat)
    requires 1 <= n <= 3
    requires var st := Run(INIT, events); id in st.threads && Progress(st.threads[id]) >= n
    ensures exists k :: Saw(events, k, id, Before(n))
  {
    if events != [] {
      var init, e := events[..|events| - 1], events[|events| - 1];
      assert events == init + [e];
      var st := Run(INIT, init);
      ProgressStep(st, e, id, n);
      if Progress(st.threads[id]) >= n {
        ProgressWasSeen(init, id, n);
        var k :| Saw(init, k, id, Before(n));
        SawIsKept(init, e, k, id, Before(n));
      } else {
        assert events[..|init|] == init;
        assert Saw(events, |init|, id, Before(n));
      }
    }
  }

  /** So a supervisor that has not seen its game exit is not restoring, however the run went. */
  lemma {:induction false} NoExitNoRestoration(events: seq<Event>, id: nat)
    requires forall k :: !Saw(events, k, id, Waiting)
    ensures var st := Run(INIT, events); id in st.threads ==> Progress(st.threads[id]) <= 2 && !Restores(st.threads[id])
  {
    var st := Run(INIT, events);
    if id in st.threads && Progress(st.threads[id]) >= 3 {
      ProgressWasSeen(events, id, 3);
    }
  }

  ghost predicate SpawnDone(st: State, id: nat) {
    id in st.threads ==> id in st.requests && st.requests[id].stage.Finished?
  }

  lemma StepKeepsSpawnDone(st: State, e: Event, id: nat)
    requires SpawnDone(st, id)
    ensures SpawnDone(Step(st, e), id)
  {
  }

  lemma {:induction false} SpawnedOnce(events: seq<Event>, id: nat)
    ensures SpawnDone(Run(INIT, events), id)
  {
    if events != [] {
      SpawnedOnce(events[..|events| - 1], id);
      StepKeepsSpawnDone(Run(INIT, events[..|events| - 1]), events[|events| - 1], id);
    }
  }

  /** The phase only advances until the supervisor is cancelled, and cancelled or complete it
      stays. */
  predicate Onward(p: Phase, q: Phase) {
    && (q != Cancelled ==> Progress(p) <= Progress(q))
    && (p == Cancelled || p == Complete ==> q == p)
  }

  ghost predicate GoesOn(st: State, later: State, id: nat) {
    id in st.threads ==> id in later.threads && Onward(st.threads[id], later.threads[id])
  }

  lemma StepGoesOn(st: State, e: Event, id: nat)
    requires SpawnDone(st, id)
    ensures GoesOn(st, Step(st, e), id)
  {
  }

  lemma GoesOnAndOn(a: State, b: State, c: State, id: nat)
    requires GoesOn(a, b, id) && GoesOn(b, c, id)
    ensures GoesOn(a, c, id)
  {
  }

  /** Over every run: a supervisor never goes back, however far the run goes on. */
  lemma {:induction false} NeverGoesBack(events: seq<Event>, more: seq<Event>, id: nat)
    ensures GoesOn(Run(INIT, events), Run(INIT, events + more), id)
  {
    if more == [] {
      assert events + more == events;
    } else {
      var init, e := more[..|more| - 1], more[|more| - 1];
      NeverGoesBack(events, init, id);
      var mid := Run(INIT, events + init);
      LastStep(events + init, e);
      assert events + more == events + init + [e];
      SpawnedOnce(events + init, id);
      StepGoesOn(mid, e, id);
      GoesOnAndOn(Run(INIT, events), mid, Step(mid, e), id);
    }
  }

  lemma {:induction false} LastStep(events: seq<Event>, e: Event)
    ensures Run(INIT, events + [e]) == Step(Run(INIT, events), e)
  {
    assert (events + [e])[..|events|] == events;
  }

  /** A supervisor told to stop before its restoration ends within two steps of its own, and with
      its next one unless it is still on its way to the wait, where it does not look at its flag. */
  lemma StopEndsSupervisor(st: State, id: nat, first: bool, second: bool)
    requires id in st.threads && id in st.flags && st.flags[id] && !Restores(st.threads[id])
    ensures var st' := Step(Step(st, ThreadStep(id, first)), ThreadStep(id, second));
            id in st'.threads && st'.threads[id] == Cancelled
    ensures st.threads[id] != Optimizing ==> Step(st, ThreadStep(id, first)).threads[id] == Cancelled
  {
  }

  /** And one that was not told to stop is cancelled by a step only when the game cannot be
      opened. */
  lemma LiveEndsOnlyUnopened(st: State, e: Event, id: nat)
    requires Live(st, id) && st.threads[id] != Cancelled
    requires id in Step(st, e).threads && Step(st, e).threads[id] == Cancelled
    ensures e == ThreadStep(id, false) && st.threads[id] == Optimizing
  {
  }

  // ----- the window that remains -----

  lemma {:induction false} RunAppend(st: State, a: seq<Event>, b: seq<Event>)
    ensures Run(st, a + b) == Run(Run(st, a), b)
  {
    if b == [] {
      assert a + b == a;
    } else {
      RunAppend(st, a, b[..|b| - 1]);
      assert (a + b)[..|a + b| - 1] == a + b[..|b| - 1];
    }
  }

  lemma {:induction false} RunFour(st: State, a: Event, b: Event, c: Event, d: Event)
    ensures Run(st, [a, b, c, d]) == Step(Step(Step(Step(st, a), b), c), d)
  {
    assert [a, b, c, d][..3] == [a, b, c] && [a, b, c][..2] == [a, b] && [a, b][..1] == [a] && [a][..0] == [];
    assert Run(st, [a]) == Step(st, a);
    assert Run(st, [a, b]) == Step(Run(st, [a]), b);
    assert Run(st, [a, b, c]) == Step(Run(st, [a, b]), c);
  }

  function Begun(id: nat): seq<Event> {
    [Begin(id, Launch), Proceed(id), Proceed(id), Proceed(id)]
  }

  function Ended(id: nat): seq<Event> {
    [Proceed(id), Proceed(id), Proceed(id), ThreadStep(id, false)]
  }

  /** A launch with nobody in between, up to having set its predecessor's flag. */
  lemma {:induction false} LaunchBegins(st: State, id: nat)
    requires id !in st.requests && st.lock.None?
    ensures var flags := st.flags[id := false];
            Run(st, Begun(id)) ==
            State(None, Some(id), if st.slot.Some? then flags[st.slot.value := true] else flags,
                  st.requests[id := Request(Launch, Stored)], st.threads)
  {
    var e := Begun(id);
    RunFour(st, e[0], e[1], e[2], e[3]);
  }

  /** The rest of it: put, unlock, spawn, and the first look for the game. */
  lemma {:induction false} LaunchEnds(st: State, id: nat)
    requires id in st.requests && st.requests[id] == Request(Launch, Stored) && id in st.flags && !st.flags[id]
    ensures Run(st, Ended(id)) ==
            st.(slot := Some(id), lock := None, requests := st.requests[id := Request(Launch, Finished)],
                threads := st.threads[id := Polling])
  {
    var e := Ended(id);
    RunFour(st, e[0], e[1], e[2], e[3]);
  }

  function Launched(id: nat): seq<Event> {
    Begun(id) + Ended(id)
  }

  /** A whole launch with nobody in between: its predecessor is stopped, its own flag is in the
      slot, its supervisor polls and its transaction is on record. */
  lemma {:induction false} LaunchRuns(st: State, id: nat)
    requires id !in st.requests && st.lock.None? && st.slot != Some(id)
    ensures var flags := st.flags[id := false];
            Run(st, Launched(id)) ==
            State(Some(id), None, if st.slot.Some? then flags[st.slot.value := true] else flags,
                  st.requests[id := Request(Launch, Finished)], st.threads[id := Polling])
  {
    RunAppend(st, Begun(id), Ended(id));
    LaunchBegins(st, id);
    LaunchEnds(Run(st, Begun(id)), id);
  }

  function GameRuns(id: nat): seq<Event> {
    [ThreadStep(id, true), ThreadStep(id, true), ThreadStep(id, true), ThreadStep(id, true)]
  }

  /** The game is found, optimized, waited for and exits: a live supervisor passes its check. */
  lemma {:induction false} GameRunsToRestoration(st: State, id: nat)
    requires id in st.threads && st.threads[id] == Polling && id in st.flags && !st.flags[id]
    ensures Run(st, GameRuns(id)) == st.(threads := st.threads[id := Restoring])
  {
    var e := GameRuns(id);
    RunFour(st, e[0], e[1], e[2], e[3]);
  }

  /** A rollback stops the supervisors under the lock but recovers after it has released it. */
  function RollbackUnlocks(id: nat): seq<Event> {
    [Begin(id, Rollback), Proceed(id), Proceed(id), Proceed(id)]
  }

  lemma {:induction false} RollbackReachesRecovery(st: State, id: nat)
    requires id !in st.requests && st.lock.None?
    ensures var after := Step(Run(st, RollbackUnlocks(id)), Proceed(id));
            && after.slot.None? && after.lock.None?
            && after.requests == st.requests[id := Request(Rollback, Recovering)]
            && Step(after, Proceed(id)) == after.(requests := st.requests[id := Request(Rollback, Finished)])
  {
    var e := RollbackUnlocks(id);
    RunFour(st, e[0], e[1], e[2], e[3]);
  }

  // ----- one request at a time -----

  ghost predicate AllFinished(st: State) {
    forall r :: r in st.requests ==> st.requests[r].stage.Finished?
  }

  /** A listener that handles one request to its end before it takes the next: a request begins
      only when every earlier one is finished. Supervisor threads run on beside it. */
  ghost predicate Serial(st: State, events: seq<Event>) {
    forall k :: 0 <= k < |events| && events[k].Begin? ==> AllFinished(Run(st, events[..k]))
  }

  ghost predicate Open(st: State, r: nat) {
    r in st.requests && !st.requests[r].stage.Finished?
  }

  /** At most one request is under way. */
  ghost predicate OneOpen(st: State) {
    forall q, r :: Open(st, q) && Open(st, r) ==> q == r
  }

  lemma OthersUntouched(st: State, e: Event, q: nat)
    requires q in st.requests && q != e.id
    ensures q in Step(st, e).requests && Step(st, e).requests[q] == st.requests[q]
  {
  }

  lemma SerialStep(st: State, e: Event)
    requires OneOpen(st) && (e.Begin? ==> AllFinished(st))
    ensures OneOpen(Step(st, e))
  {
    var st' := Step(st, e);
    forall q | Open(st', q) ensures Open(st, q) || (e.Begin? && q == e.id) {
      if q in st.requests && q != e.id {
        OthersUntouched(st, e, q);
      }
    }
  }

  lemma {:induction false} SerialRunsOneRequest(st: State, events: seq<Event>)
    requires OneOpen(st) && Serial(st, events)
    ensures OneOpen(Run(st, events))
  {
    if events != [] {
      var init, e := events[..|events| - 1], events[|events| - 1];
      assert events == init + [e];
      SerialPrefix(st, init, e);
      SerialRunsOneRequest(st, init);
      SerialStep(Run(st, init), e);
    }
  }

  /** So no request begins while a rollback is between its unlocking and its recovery: if one is,
      it is the only one under way, and nothing begins until it has recovered. */
  lemma {:induction false} SerialRollbackAlone(st: State, events: seq<Event>, e: Event, rollback: nat)
    requires OneOpen(st) && Serial(st, events + [e])
    requires var mid := Run(st, events); rollback in mid.requests && mid.requests[rollback].stage.Recovering?
    ensures !e.Begin? && forall r :: Open(Run(st, events), r) ==> r == rollback
  {
    SerialPrefix(st, events, e);
    SerialRunsOneRequest(st, events);
    assert Open(Run(st, events), rollback);
  }

  lemma {:induction false} SerialPrefix(st: State, init: seq<Event>, e: Event)
    ensures Serial(st, init + [e]) <==> Serial(st, init) && (e.Begin? ==> AllFinished(Run(st, init)))
  {
    var events := init + [e];
    assert events[..|init|] == init && events[|init|] == e;
    forall k | 0 <= k < |init| ensures events[..k] == init[..k] && events[k] == init[k] {
    }
  }

  lemma {:induction false} SerialAppend(st: State, a: seq<Event>, b: seq<Event>)
    requires Serial(st, a) && Serial(Run(st, a), b)
    ensures Serial(st, a + b)
  {
    if b == [] {
      assert a + b == a;
    } else {
      var init, e := b[..|b| - 1], b[|b| - 1];
      assert b == init + [e];
      SerialPrefix(Run(st, a), init, e);
      SerialAppend(st, a, init);
      RunAppend(st, a, init);
      assert a + b == (a + init) + [e];
      SerialPrefix(st, a + init, e);
    }
  }

  /** A launch with nobody in between is such a run, and so is a game. */
  lemma {:induction false} LaunchIsSerial(st: State, id: nat)
    requires AllFinished(st) && id !in st.requests && st.lock.None? && st.slot != Some(id)
    ensures Serial(st, Launched(id)) && AllFinished(Run(st, Launched(id)))
  {
    LaunchRuns(st, id);
    assert Launched(id)[..0] == [];
  }

  lemma {:induction false} ThreadsAreSerial(st: State, events: seq<Event>)
    requires forall k :: 0 <= k < |events| ==> !events[k].Begin?
    ensures Serial(st, events)
  {
  }

  /** A launch, the game, and a second launch that begins while the first one's supervisor is past
      its final check and about to restore: one request at a time is enough to get there. */
  lemma {:induction false} RestorationReachable(id: nat, next: nat)
    requires id != next
    ensures var events := Launched(id) + GameRuns(id);
            var st := Run(INIT, events);
            && Inv(st) && AllFinished(st) && st.lock.None? && st.slot == Some(id) && next !in st.requests
            && id in st.threads && st.threads[id] == Restoring
            && Serial(INIT, events + Launched(next))
  {
    var events := Launched(id) + GameRuns(id);
    RunKeepsInv(INIT, events);
    LaunchRuns(INIT, id);
    LaunchIsSerial(INIT, id);
    RunAppend(INIT, Launched(id), GameRuns(id));
    GameRunsToRestoration(Run(INIT, Launched(id)), id);
    ThreadsAreSerial(Run(INIT, Launched(id)), GameRuns(id));
    SerialAppend(INIT, Launched(id), GameRuns(id));
    LaunchIsSerial(Run(INIT, events), next);
    SerialAppend(INIT, events, Launched(next));
  }
}
