/** The daemon as a whole: the requests and supervisor threads of Supervisor, and the settings and
    transaction record that their applies and recoveries change on the way. */
module SupervisedSettings {
  import opened Options
  import M = OptimizationModel
  import P = OptimizationProofs
  import R = OptimizationRuns
  import S = Supervisor

  /** The settings with the record on disk; and as history, which request wrote that record and
      what the settings were when it applied. */
  datatype World = World(settings: M.Settings, owner: Option<nat>, before: M.Settings)

  datatype Daemon = Daemon(st: S.State, world: World)

  /** An event with the outcomes of the calls that it makes, if it applies or recovers. */
  datatype Input = Input(event: S.Event, order: seq<string>, apply: M.ApplyCalls, rollback: M.RollbackCalls)

  /** A launch or an apply request begins. */
  predicate Applies(st: S.State, e: S.Event) {
    e.Begin? && e.id !in st.requests && (e.kind.Launch? || e.kind.ApplyOnly?)
  }

  /** A rollback that has released the lock, or a supervisor past its final check. */
  predicate Recovers(st: S.State, e: S.Event) {
    || (e.Proceed? && e.id in st.requests && st.requests[e.id].stage.Recovering?)
    || (e.ThreadStep? && e.id in st.threads && e.id in st.flags && st.threads[e.id].Restoring?)
  }

  function AfterApply(w: World, id: nat, order: seq<string>, c: M.ApplyCalls): World {
    var (t, tx) := M.Apply(w.settings, order, c);
    if tx.Some? && c.recordOk then World(t, Some(id), w.settings)
    else World(t, if tx.None? && c.removeOk then None else w.owner, w.before)
  }

  /** Recovery rolls back the record that it finds, whoever wrote it. */
  function AfterRecovery(w: World, c: M.RollbackCalls): World {
    if w.settings.record.None? then w
    else World(M.Recover(w.settings, c).0, if c.removeOk then None else w.owner, w.before)
  }

  function WorldStep(st: S.State, w: World, i: Input): World {
    if Applies(st, i.event) then AfterApply(w, i.event.id, i.order, i.apply)
    else if Recovers(st, i.event) then AfterRecovery(w, i.rollback)
    else w
  }

  function Step(d: Daemon, i: Input): Daemon {
    Daemon(S.Step(d.st, i.event), WorldStep(d.st, d.world, i))
  }

  function Run(d: Daemon, inputs: seq<Input>): Daemon {
    if inputs == [] then d else Step(Run(d, inputs[..|inputs| - 1]), inputs[|inputs| - 1])
  }

  lemma {:induction false} RunOneMore(d: Daemon, inputs: seq<Input>, i: Input)
    ensures Run(d, inputs + [i]) == Step(Run(d, inputs), i)
  {
    assert (inputs + [i])[..|inputs|] == inputs;
  }

  lemma {:induction false} RunKeepsInv(d: Daemon, inputs: seq<Input>)
    requires S.Inv(d.st)
    ensures S.Inv(Run(d, inputs).st)
  {
    if inputs != [] {
      RunKeepsInv(d, inputs[..|inputs| - 1]);
      S.StepKeepsInv(Run(d, inputs[..|inputs| - 1]).st, inputs[|inputs| - 1].event);
    }
  }

  function Events(inputs: seq<Input>): seq<S.Event> {
    seq(|inputs|, k requires 0 <= k < |inputs| => inputs[k].event)
  }

  lemma {:induction false} RunControl(d: Daemon, inputs: seq<Input>)
    ensures Run(d, inputs).st == S.Run(d.st, Events(inputs))
  {
    if inputs != [] {
      var init := inputs[..|inputs| - 1];
      RunControl(d, init);
      assert Events(inputs)[..|inputs| - 1] == Events(init);
    }
  }

  /** In a run in which a supervisor never sees its game exit, it never recovers the settings: no
      step of it is a recovery, however the run interleaves. */
  lemma {:induction false} NoExitNoRecovery(d: Daemon, inputs: seq<Input>, i: Input)
    requires d.st == S.INIT && i.event.ThreadStep?
    requires forall k :: !S.Saw(Events(inputs), k, i.event.id, S.Waiting)
    ensures !Recovers(Run(d, inputs).st, i.event)
  {
    RunControl(d, inputs);
    S.NoExitNoRestoration(Events(inputs), i.event.id);
  }

  // ----- the settings follow the applies and recoveries -----

  function OperationOf(st: S.State, i: Input): seq<R.Op> {
    if Applies(st, i.event) then [R.DoApply(i.order, i.apply)]
    else if Recovers(st, i.event) then [R.DoRecover(i.rollback)]
    else []
  }

  /** The applies and recoveries of a run, in the order in which they happen. */
  function Operations(d: Daemon, inputs: seq<Input>): seq<R.Op> {
    if inputs == [] then []
    else
      var init := inputs[..|inputs| - 1];
      Operations(d, init) + OperationOf(Run(d, init).st, inputs[|inputs| - 1])
  }

  lemma OneOperation(d: Daemon, i: Input)
    ensures Step(d, i).world.settings == R.RunOps(d.world.settings, OperationOf(d.st, i))
  {
    if Applies(d.st, i.event) {
      R.RunOpsOneMore(d.world.settings, [], R.DoApply(i.order, i.apply));
      assert [] + [R.DoApply(i.order, i.apply)] == OperationOf(d.st, i);
    } else if Recovers(d.st, i.event) {
      R.RunOpsOneMore(d.world.settings, [], R.DoRecover(i.rollback));
      assert [] + [R.DoRecover(i.rollback)] == OperationOf(d.st, i);
    }
  }

  /** However requests and threads interleave, the settings are those that the applies and
      recoveries of the run leave one after the other. */
  lemma {:induction false} SettingsFollowOperations(d: Daemon, inputs: seq<Input>)
    ensures Run(d, inputs).world.settings == R.RunOps(d.world.settings, Operations(d, inputs))
  {
    if inputs != [] {
      var init, last := inputs[..|inputs| - 1], inputs[|inputs| - 1];
      SettingsFollowOperations(d, init);
      OneOperation(Run(d, init), last);
      RunOpsAppend(d.world.settings, Operations(d, init), OperationOf(Run(d, init).st, last));
    }
  }

  lemma {:induction false} RunOpsAppend(s: M.Settings, a: seq<R.Op>, b: seq<R.Op>)
    requires |b| <= 1
    ensures R.RunOps(s, a + b) == R.RunOps(R.RunOps(s, a), b)
  {
    if b == [] {
      assert a + b == a;
    } else {
      assert b == [b[0]] && b[..0] == [];
      R.RunOpsOneMore(s, a, b[0]);
    }
  }

  /** Once some part of a baseline is neither in force nor on record, no run of the daemon
      restores it: no interleaving of launches, applies, rollbacks and supervisors. */
  lemma {:induction false} BaselineGoneForGood(d: Daemon, base: M.Settings, inputs: seq<Input>)
    requires R.Gone(d.world.settings, base)
    ensures R.Gone(Run(d, inputs).world.settings, base)
    ensures !P.SameObservables(Run(d, inputs).world.settings, base)
  {
    SettingsFollowOperations(d, inputs);
    R.GoneForGood(d.world.settings, base, Operations(d, inputs));
  }

  // ----- what the record restores -----

  /** The calls that restore observable settings succeed. */
  ghost predicate Restores(r: M.RollbackCalls) {
    && r.game.createOk && r.game.writeAllowOk && r.powerOk
    && forall id :: r.endpoint(id).openOk && r.endpoint(id).writeOk
  }

  /** The record on disk restores the settings that were there when its request applied. */
  ghost predicate Honest(w: World) {
    w.owner.Some? ==>
      && w.settings.record.Some?
      && forall r :: Restores(r) ==> P.SameObservables(M.Rollback(w.settings, w.settings.record.value, r), w.before)
  }

  /** Apply reads what it remembers and gets its record written. */
  ghost predicate Remembers(i: Input) {
    && P.NoDuplicates(i.order) && i.apply.game.readOk && i.apply.recordOk
    && forall id :: i.apply.endpoint(id).queryOk
  }

  lemma ApplyKeepsHonest(w: World, id: nat, i: Input)
    requires Honest(w) && Remembers(i)
    ensures Honest(AfterApply(w, id, i.order, i.apply))
  {
    var (t, tx) := M.Apply(w.settings, i.order, i.apply);
    if tx.Some? {
      forall r | Restores(r) ensures P.SameObservables(M.Rollback(t, t.record.value, r), w.settings) {
        P.RecoveryAfterApply(w.settings, i.order, i.apply, r);
      }
    } else if w.owner.Some? && !i.apply.removeOk {
      P.FailedApplyChangesNothing(w.settings, i.order, i.apply);
      forall r | Restores(r) ensures P.SameObservables(M.Rollback(t, t.record.value, r), w.before) {
        SameAfterRollback(t, w.settings, w.settings.record.value, r);
      }
    }
  }

  lemma SameAfterRollback(t: M.Settings, s: M.Settings, tx: M.Transaction, r: M.RollbackCalls)
    requires P.SameObservables(t, s) && t.endpoints == s.endpoints && Restores(r)
    ensures P.SameObservables(M.Rollback(t, tx, r), M.Rollback(s, tx, r))
  {
  }

  lemma RecoveryKeepsHonest(w: World, c: M.RollbackCalls)
    requires Honest(w)
    ensures Honest(AfterRecovery(w, c))
  {
    if w.owner.Some? && !c.removeOk {
      var tx := w.settings.record.value;
      forall r | Restores(r)
        ensures P.SameObservables(M.Rollback(M.Rollback(w.settings, tx, c), tx, r), w.before)
      {
        P.RollbackTwice(w.settings, tx, c, r);
        assert Restores(P.Either(c, r));
      }
    }
  }

  /** In every run in which applies read what they remember and get their records written,
      whatever other calls fail and however the run interleaves, the record on disk restores
      exactly the observable settings that its request found. */
  lemma {:induction false} RecordRestoresItsBaseline(d: Daemon, inputs: seq<Input>)
    requires Honest(d.world) && forall k :: 0 <= k < |inputs| ==> Remembers(inputs[k])
    ensures Honest(Run(d, inputs).world)
  {
    if inputs != [] {
      var init, last := inputs[..|inputs| - 1], inputs[|inputs| - 1];
      forall k | 0 <= k < |init| ensures Remembers(init[k]) {
        assert init[k] == inputs[k];
      }
      RecordRestoresItsBaseline(d, init);
      var mid := Run(d, init);
      if Applies(mid.st, last.event) {
        ApplyKeepsHonest(mid.world, last.event.id, last);
      } else if Recovers(mid.st, last.event) {
        RecoveryKeepsHonest(mid.world, last.rollback);
      }
    }
  }

  /** So a recovery whose writes succeed, by whatever supervisor or rollback, returns to the
      settings that the owner of the record found: what was in force before that apply. */
  lemma {:induction false} RecoveryReturnsToBaseline(d: Daemon, inputs: seq<Input>, i: Input)
    requires Honest(d.world) && forall k :: 0 <= k < |inputs| ==> Remembers(inputs[k])
    requires var mid := Run(d, inputs);
             Recovers(mid.st, i.event) && mid.world.owner.Some? && Restores(i.rollback)
    ensures var mid := Run(d, inputs); P.SameObservables(Step(mid, i).world.settings, mid.world.before)
  {
    RecordRestoresItsBaseline(d, inputs);
  }

  // ----- when a record survives -----

  /** The input takes the record away: an apply that replaces it or, failing, deletes it, or a
      recovery that deletes it. */
  ghost predicate Takes(d: Daemon, i: Input) {
    || (Applies(d.st, i.event) && if P.GameModeFails(i.apply.game) then i.apply.removeOk else i.apply.recordOk)
    || (Recovers(d.st, i.event) && i.rollback.removeOk)
  }

  ghost predicate OwnerOk(w: World) {
    w.owner.Some? ==> w.settings.record.Some?
  }

  lemma RecordStepIff(d: Daemon, i: Input, id: nat)
    requires OwnerOk(d.world) && id in d.st.requests
    ensures OwnerOk(Step(d, i).world)
    ensures Step(d, i).world.owner == Some(id) <==> d.world.owner == Some(id) && !Takes(d, i)
  {
    if Applies(d.st, i.event) {
      P.ApplySucceedsIff(d.world.settings, i.order, i.apply);
    }
  }

  ghost predicate Untaken(d: Daemon, inputs: seq<Input>) {
    forall k :: 0 <= k < |inputs| ==> !Takes(Run(d, inputs[..k]), inputs[k])
  }

  lemma {:induction false} UntakenOneMore(d: Daemon, init: seq<Input>, i: Input)
    ensures Untaken(d, init + [i]) <==> Untaken(d, init) && !Takes(Run(d, init), i)
  {
    var inputs := init + [i];
    assert inputs[..|init|] == init && inputs[|init|] == i;
    forall k | 0 <= k < |init| ensures inputs[..k] == init[..k] && inputs[k] == init[k] {
    }
  }

  lemma {:induction false} OwnerStaysKnown(d: Daemon, inputs: seq<Input>, id: nat)
    requires OwnerOk(d.world) && id in d.st.requests
    ensures OwnerOk(Run(d, inputs).world) && id in Run(d, inputs).st.requests
  {
    if inputs != [] {
      var init, i := inputs[..|inputs| - 1], inputs[|inputs| - 1];
      OwnerStaysKnown(d, init, id);
      RecordStepIff(Run(d, init), i, id);
      S.RequestStays(Run(d, init).st, i.event, id);
    }
  }

  /** Over any run, the record of a request is still there at the end if and only if no step
      took it: nothing ever brings it back. */
  lemma {:induction false} RecordSurvivesIff(d: Daemon, inputs: seq<Input>, id: nat)
    requires OwnerOk(d.world) && d.world.owner == Some(id) && id in d.st.requests
    ensures Run(d, inputs).world.owner == Some(id) <==> Untaken(d, inputs)
  {
    if inputs != [] {
      var init, i := inputs[..|inputs| - 1], inputs[|inputs| - 1];
      assert inputs == init + [i];
      RecordSurvivesIff(d, init, id);
      OwnerStaysKnown(d, init, id);
      RecordStepIff(Run(d, init), i, id);
      UntakenOneMore(d, init, i);
    }
  }

  // ----- when the newest launch is safe -----

  /** The supervisor is over, or told to stop before its final check. */
  ghost predicate Harmless(st: S.State, i: nat) {
    && i in st.threads && i in st.flags && !st.threads[i].Restoring?
    && (st.flags[i] || st.threads[i].Complete? || st.threads[i].Cancelled?)
  }

  /** No launch or rollback but `id` is under way, and no supervisor but its own can still
      restore. */
  ghost predicate OthersOver(st: S.State, id: nat) {
    && id in st.requests && st.requests[id].kind.Launch?
    && (id in st.threads ==> st.requests[id].stage.Finished?)
    && (forall r :: r in st.requests && r != id && !st.requests[r].kind.Shutdown? ==> st.requests[r].stage.Finished?)
    && forall i :: i in st.threads && i != id ==> Harmless(st, i)
  }

  ghost predicate Restored(st: S.State, id: nat) {
    id in st.threads && st.threads[id].Complete?
  }

  /** The input begins no apply and no rollback; shutdowns may come. */
  predicate Quiet(i: Input) {
    i.event.Begin? ==> i.event.kind.Shutdown?
  }

  lemma ProceedKeepsOthersOver(st: S.State, r: nat, id: nat)
    requires S.RecoveryOk(st) && S.ThreadsOk(st) && OthersOver(st, id) && r in st.requests
    ensures OthersOver(S.ProceedFrom(st, r), id) && !st.requests[r].stage.Recovering?
    ensures Restored(st, id) ==> Restored(S.ProceedFrom(st, r), id)
  {
    var st' := S.ProceedFrom(st, r);
    assert st.requests[r].stage.Released? ==> r == id;
    forall i | i in st'.threads && i != id ensures Harmless(st', i) {
      assert Harmless(st, i);
    }
  }

  lemma ThreadKeepsOthersOver(st: S.State, e: S.Event, id: nat)
    requires OthersOver(st, id) && e.ThreadStep?
    ensures OthersOver(S.Step(st, e), id)
    ensures Recovers(st, e) ==> e.id == id && Restored(S.Step(st, e), id)
    ensures Restored(st, id) ==> Restored(S.Step(st, e), id)
  {
  }

  /** Nothing has happened to the settings or the record since, unless the launch's own
      supervisor has restored. */
  ghost predicate Kept(d: Daemon, w: World, id: nat) {
    d.world == w || Restored(d.st, id)
  }

  lemma QuietStepKeeps(d: Daemon, i: Input, w: World, id: nat)
    requires S.Inv(d.st) && OthersOver(d.st, id) && Kept(d, w, id) && Quiet(i)
    ensures OthersOver(Step(d, i).st, id) && Kept(Step(d, i), w, id)
  {
    match i.event
    case Begin(r, kind) =>
    case Proceed(r) =>
      if r in d.st.requests {
        ProceedKeepsOthersOver(d.st, r, id);
      }
    case ThreadStep(t, good) => ThreadKeepsOthersOver(d.st, i.event, id);
  }

  lemma {:induction false} QuietRunKeeps(d: Daemon, inputs: seq<Input>, w: World, id: nat)
    requires S.Inv(d.st) && OthersOver(d.st, id) && Kept(d, w, id)
    requires forall k :: 0 <= k < |inputs| ==> Quiet(inputs[k])
    ensures OthersOver(Run(d, inputs).st, id) && Kept(Run(d, inputs), w, id)
  {
    if inputs != [] {
      var init := inputs[..|inputs| - 1];
      forall k | 0 <= k < |init| ensures Quiet(init[k]) {
        assert init[k] == inputs[k];
      }
      QuietRunKeeps(d, init, w, id);
      RunKeepsInv(d, init);
      QuietStepKeeps(Run(d, init), inputs[|inputs| - 1], w, id);
    }
  }

  // ----- a supervisor that can still restore does -----

  /** How many good steps lead from a phase through restoration, as long as the flag is unset. */
  function Distance(p: S.Phase): nat {
    match p
    case Polling => 5
    case Optimizing => 4
    case Waiting => 3
    case Exited => 2
    case Restoring => 1
    case _ => 0
  }

  ghost predicate CanRestore(st: S.State, i: nat) {
    && i in st.threads && i in st.flags
    && (st.threads[i].Restoring? || (!st.flags[i] && Distance(st.threads[i]) > 0))
  }

  lemma CanRestoreUnlessHarmless(st: S.State, i: nat)
    requires i in st.threads && i in st.flags
    ensures CanRestore(st, i) <==> !Harmless(st, i)
  {
  }

  function Advance(i: nat): Input {
    Input(S.ThreadStep(i, true), [], P.APPLY_OK, P.ROLLBACK_OK)
  }

  function Advances(i: nat, n: nat): seq<Input> {
    if n == 0 then [] else Advances(i, n - 1) + [Advance(i)]
  }

  /** The supervisor has come `n` steps closer, and nothing else has changed. */
  ghost predicate Closer(d: Daemon, d': Daemon, i: nat, n: nat) {
    && CanRestore(d.st, i) && CanRestore(d'.st, i) && Distance(d'.st.threads[i]) + n == Distance(d.st.threads[i])
    && d'.world == d.world && d'.st.threads.Keys == d.st.threads.Keys
  }

  lemma OneAdvance(d: Daemon, d': Daemon, i: nat, n: nat)
    requires Closer(d, d', i, n) && Distance(d'.st.threads[i]) > 1
    ensures Closer(d, Step(d', Advance(i)), i, n + 1)
  {
  }

  /** Good steps of one supervisor bring it to its restoration. */
  lemma {:induction false} AdvanceToRestoration(d: Daemon, i: nat, n: nat)
    requires CanRestore(d.st, i) && n < Distance(d.st.threads[i])
    ensures Closer(d, Run(d, Advances(i, n)), i, n)
  {
    if n > 0 {
      AdvanceToRestoration(d, i, n - 1);
      RunOneMore(d, Advances(i, n - 1), Advance(i));
      OneAdvance(d, Run(d, Advances(i, n - 1)), i, n - 1);
    }
  }

  /** The supervisor has used up the record. */
  ghost predicate UsedUp(d: Daemon, d': Daemon) {
    d'.world.owner.None? && d'.world.settings.record.None? && d'.st.threads.Keys == d.st.threads.Keys
  }

  lemma LastAdvance(d: Daemon, d': Daemon, i: nat, n: nat)
    requires Closer(d, d', i, n) && Distance(d'.st.threads[i]) == 1 && d.world.settings.record.Some?
    ensures UsedUp(d, Step(d', Advance(i)))
  {
  }

  lemma {:induction false} RestorationTakes(d: Daemon, i: nat)
    requires CanRestore(d.st, i) && d.world.settings.record.Some?
    ensures UsedUp(d, Run(d, Advances(i, Distance(d.st.threads[i]))))
  {
    var n := Distance(d.st.threads[i]);
    AdvanceToRestoration(d, i, n - 1);
    RunOneMore(d, Advances(i, n - 1), Advance(i));
    LastAdvance(d, Run(d, Advances(i, n - 1)), i, n - 1);
  }

  lemma {:induction false} AdvancesAreQuiet(i: nat, n: nat)
    ensures forall k :: 0 <= k < |Advances(i, n)| ==> Quiet(Advances(i, n)[k])
  {
    if n > 0 {
      AdvancesAreQuiet(i, n - 1);
    }
  }

  // ----- the exact condition -----

  /** The launch begins with every request before it finished, and its apply is recorded. */
  ghost predicate RecordedLaunch(d: Daemon, i: Input) {
    && S.Inv(d.st) && S.AllFinished(d.st) && i.event.Begin? && i.event.kind.Launch? && i.event.id !in d.st.requests
    && !P.GameModeFails(i.apply.game) && i.apply.recordOk
  }

  lemma LaunchBegun(d: Daemon, i: Input)
    requires RecordedLaunch(d, i)
    ensures var d1 := Step(d, i);
            && d1.world.owner == Some(i.event.id) && d1.world.settings.record.Some?
            && S.Inv(d1.st) && i.event.id !in d1.st.threads && d1.st.threads == d.st.threads
            && forall t :: t in d.st.threads ==> (Harmless(d1.st, t) <==> Harmless(d.st, t))
  {
    P.ApplySucceedsIff(d.world.settings, i.order, i.apply);
    S.StepKeepsInv(d.st, i.event);
    forall t | t in d.st.threads ensures t != i.event.id {
      assert S.Published(d.st, t);
    }
  }

  ghost predicate AlwaysKept(d: Daemon, w: World, id: nat) {
    forall inputs :: (forall k :: 0 <= k < |inputs| ==> Quiet(inputs[k])) ==> Kept(Run(d, inputs), w, id)
  }

  /** From the moment a launch begins, with all requests before it finished: every interleaving
      of its own steps, of supervisor threads and of shutdowns leaves its optimizations and its
      record alone until its own supervisor has restored, if and only if no other supervisor
      is restoring or still live and unfinished at that moment. A live one can pass its final
      check before the launch sets its flag. */
  lemma {:induction false} NewestLaunchSafeIff(d: Daemon, i: Input)
    requires RecordedLaunch(d, i)
    ensures var d1 := Step(d, i);
            AlwaysKept(d1, d1.world, i.event.id) <==> forall t :: t in d.st.threads ==> Harmless(d.st, t)
  {
    var d1, id := Step(d, i), i.event.id;
    LaunchBegun(d, i);
    if forall t :: t in d.st.threads ==> Harmless(d.st, t) {
      assert OthersOver(d1.st, id);
      forall inputs | forall k :: 0 <= k < |inputs| ==> Quiet(inputs[k]) ensures Kept(Run(d1, inputs), d1.world, id) {
        QuietRunKeeps(d1, inputs, d1.world, id);
      }
    } else {
      var t :| t in d.st.threads && !Harmless(d.st, t);
      StillRestores(d1, t, id);
    }
  }

  lemma {:induction false} StillRestores(d: Daemon, t: nat, id: nat)
    requires S.Inv(d.st) && t in d.st.threads && !Harmless(d.st, t) && id !in d.st.threads
    requires d.world.owner == Some(id) && d.world.settings.record.Some?
    ensures !AlwaysKept(d, d.world, id)
  {
    assert S.Published(d.st, t);
    CanRestoreUnlessHarmless(d.st, t);
    RestorationTakes(d, t);
    var inputs := Advances(t, Distance(d.st.threads[t]));
    AdvancesAreQuiet(t, Distance(d.st.threads[t]));
    assert !Kept(Run(d, inputs), d.world, id);
  }

  // ----- what a late recovery leaves -----

  /** The same outcomes for every event of a list. */
  function With(events: seq<S.Event>, order: seq<string>, a: M.ApplyCalls, r: M.RollbackCalls): seq<Input> {
    seq(|events|, k requires 0 <= k < |events| => Input(events[k], order, a, r))
  }

  lemma {:induction false} RunWith(d: Daemon, events: seq<S.Event>, order: seq<string>, a: M.ApplyCalls,
                                   r: M.RollbackCalls)
    ensures Run(d, With(events, order, a, r)).st == S.Run(d.st, events)
  {
    if events != [] {
      var init, e := events[..|events| - 1], events[|events| - 1];
      assert events == init + [e];
      RunWith(d, init, order, a, r);
      WithOneMore(d, init, e, order, a, r);
    }
  }

  /** The launch's own steps after its apply change no setting. */
  ghost predicate OwnStep(e: S.Event, id: nat) {
    e == S.Proceed(id) || e == S.ThreadStep(id, false)
  }

  ghost predicate Starting(st: S.State, id: nat) {
    && id in st.requests && st.requests[id].kind.Launch?
    && (id in st.threads ==> st.threads[id].Polling? || st.threads[id].Cancelled?)
  }

  lemma OwnStepKeeps(d: Daemon, i: Input, id: nat)
    requires S.Inv(d.st) && Starting(d.st, id) && OwnStep(i.event, id)
    ensures Starting(Step(d, i).st, id) && Step(d, i).world == d.world
  {
  }

  lemma {:induction false} WithOneMore(d: Daemon, events: seq<S.Event>, e: S.Event, order: seq<string>,
                                       a: M.ApplyCalls, r: M.RollbackCalls)
    ensures Run(d, With(events + [e], order, a, r))
            == Step(Run(d, With(events, order, a, r)), Input(e, order, a, r))
  {
    assert With(events + [e], order, a, r) == With(events, order, a, r) + [Input(e, order, a, r)];
    RunOneMore(d, With(events, order, a, r), Input(e, order, a, r));
  }

  /** The first step of a launch applies. */
  lemma LaunchApplies(d: Daemon, id: nat, i: Input)
    requires S.Inv(d.st) && id !in d.st.requests && i.event == S.Begin(id, S.Launch)
    ensures Starting(Step(d, i).st, id) && Step(d, i).world == AfterApply(d.world, id, i.order, i.apply)
  {
    assert id in d.st.threads ==> S.Published(d.st, id);
  }

  lemma {:induction false} LaunchWorld(d: Daemon, id: nat, order: seq<string>, a: M.ApplyCalls, r: M.RollbackCalls,
                                       n: nat)
    requires S.Inv(d.st) && id !in d.st.requests && 1 <= n <= |S.Launched(id)|
    ensures var d' := Run(d, With(S.Launched(id)[..n], order, a, r));
            Starting(d'.st, id) && d'.world == AfterApply(d.world, id, order, a)
  {
    var init, e := S.Launched(id)[..n - 1], S.Launched(id)[n - 1];
    assert S.Launched(id)[..n] == init + [e];
    WithOneMore(d, init, e, order, a, r);
    if n == 1 {
      assert With(init, order, a, r) == [];
      LaunchApplies(d, id, Input(e, order, a, r));
    } else {
      LaunchWorld(d, id, order, a, r, n - 1);
      RunKeepsInv(d, With(init, order, a, r));
      OwnStepKeeps(Run(d, With(init, order, a, r)), Input(e, order, a, r), id);
    }
  }

  /** A whole launch with nobody in between. */
  lemma {:induction false} LaunchRuns(d: Daemon, id: nat, order: seq<string>, a: M.ApplyCalls, r: M.RollbackCalls)
    requires S.Inv(d.st) && id !in d.st.requests && d.st.lock.None?
    ensures var d' := Run(d, With(S.Launched(id), order, a, r));
            d'.st == S.Run(d.st, S.Launched(id)) && d'.world == AfterApply(d.world, id, order, a)
  {
    var n := |S.Launched(id)|;
    assert S.Launched(id)[..n] == S.Launched(id);
    LaunchWorld(d, id, order, a, r, n);
    RunWith(d, S.Launched(id), order, a, r);
  }

  /** Apply and recovery with nothing in between: the settings before the apply are in force
      again and the record is gone. */
  lemma ApplyThenRecover(w: World, id: nat, order: seq<string>, a: M.ApplyCalls, r: M.RollbackCalls)
    requires P.NoDuplicates(order) && P.CallsSucceed(a, r) && !P.GameModeFails(a.game) && a.recordOk && r.removeOk
    ensures var w' := AfterRecovery(AfterApply(w, id, order, a), r);
            P.SameObservables(w'.settings, w.settings) && w'.settings.record.None? && w'.owner.None?
  {
    P.ApplySucceedsIff(w.settings, order, a);
    P.RecoveryAfterApply(w.settings, order, a, r);
  }

  /** The final check and the restoration are separate steps. A supervisor that passed its final
      check just before a new launch still recovers, and uses up the new launch's record:
      afterwards the new supervisor is live, no record is left, and the settings are those
      that were in force before the launch. They are any given baseline, such as the one
      before the earlier launch, if and only if they already were when the launch applied. */
  lemma {:induction false} LateRestoration(d: Daemon, earlier: nat, id: nat, order: seq<string>, a: M.ApplyCalls,
                                           r: M.RollbackCalls, base: M.Settings)
    requires S.Inv(d.st) && d.st.lock.None? && id !in d.st.requests
    requires earlier in d.st.threads && d.st.threads[earlier].Restoring? && d.st.slot == Some(earlier)
    requires P.NoDuplicates(order) && P.CallsSucceed(a, r) && !P.GameModeFails(a.game) && a.recordOk && r.removeOk
    ensures var mid := Run(d, With(S.Launched(id), order, a, r));
            var end := Step(mid, Input(S.ThreadStep(earlier, true), order, a, r));
            && S.Live(end.st, id) && end.st.slot == Some(id) && end.world.settings.record.None?
            && P.SameObservables(end.world.settings, d.world.settings)
            && (P.SameObservables(end.world.settings, base) <==> P.SameObservables(d.world.settings, base))
  {
    assert S.Published(d.st, earlier);
    LaunchRuns(d, id, order, a, r);
    S.LaunchRuns(d.st, id);
    ApplyThenRecover(d.world, id, order, a, r);
  }

  /** The usual case: the earlier launch's optimizations are in force. They stay in force with no
      record to undo them by, unless its apply had found nothing to change. */
  lemma {:induction false} LateRestorationStrands(d: Daemon, earlier: nat, id: nat, order: seq<string>,
                                                  a: M.ApplyCalls, r: M.RollbackCalls, s: M.Settings, a1: M.ApplyCalls)
    requires S.Inv(d.st) && d.st.lock.None? && id !in d.st.requests
    requires earlier in d.st.threads && d.st.threads[earlier].Restoring? && d.st.slot == Some(earlier)
    requires P.NoDuplicates(order) && P.CallsSucceed(a, r) && !P.GameModeFails(a.game) && a.recordOk && r.removeOk
    requires d.world.settings == M.Apply(s, order, a1).0
    ensures var mid := Run(d, With(S.Launched(id), order, a, r));
            var end := Step(mid, Input(S.ThreadStep(earlier, true), order, a, r));
            P.SameObservables(end.world.settings, s) <==> P.Unchanged(s, order, a1)
  {
    LateRestoration(d, earlier, id, order, a, r, s);
    P.UnchangedIff(s, order, a1);
  }

  /** Callers that run requests concurrently in one process can do the same with a rollback: one
      that has released the lock but not yet recovered uses up the record of a launch that
      comes in between. A listener that takes one request at a time cannot. */
  lemma {:induction false} LateRollback(d: Daemon, rollback: nat, id: nat, order: seq<string>, a: M.ApplyCalls,
                                        r: M.RollbackCalls)
    requires S.Inv(d.st) && d.st.lock.None? && id !in d.st.requests
    requires rollback in d.st.requests && d.st.requests[rollback] == S.Request(S.Rollback, S.Recovering)
    requires P.NoDuplicates(order) && P.CallsSucceed(a, r) && !P.GameModeFails(a.game) && a.recordOk && r.removeOk
    ensures var mid := Run(d, With(S.Launched(id), order, a, r));
            var end := Step(mid, Input(S.Proceed(rollback), order, a, r));
            && S.Live(end.st, id) && end.st.slot == Some(id) && end.world.settings.record.None?
            && P.SameObservables(end.world.settings, d.world.settings)
  {
    LaunchRuns(d, id, order, a, r);
    S.LaunchRuns(d.st, id);
    ApplyThenRecover(d.world, id, order, a, r);
  }
}
