/** Recovery after an ungraceful exit: load the snapshot, restore every setting it records,
    then delete it. */
module CrashRecovery {
  import opened Options
  import opened Guids
  import M = OptimizationModel
  import C = OptimizationCoordinator
  import P = OptimizationProofs
  import opened SnapshotSigning
  import opened SnapshotStore

  predicate EnhancementsDisabled(fx: M.Fx) {
    fx.Raw() == Some(1)
  }

  /** What disabling writes is what capturing sees. */
  lemma DisabledIsSeen(fx: M.Fx, c: M.EndpointCalls)
    ensures M.DisableOne(fx, c).1.Some? ==> EnhancementsDisabled(M.DisableOne(fx, c).0)
    ensures M.DisableOne(fx, c).1.None? ==>
              (EnhancementsDisabled(M.DisableOne(fx, c).0) <==> EnhancementsDisabled(fx))
  {
  }

  /** The baseline as it is captured: audio values as 0 or 1, also where none is stored. */
  function CaptureAudio(endpoints: map<string, M.Fx>, order: seq<string>): seq<M.Backup> {
    if order == [] then []
    else
      var init, last := order[..|order| - 1], order[|order| - 1];
      CaptureAudio(endpoints, init) +
      if last in endpoints then [M.Backup(last, Some(if EnhancementsDisabled(endpoints[last]) then 1 else 0))] else []
  }

  function CaptureBaseline(s: M.Settings, order: seq<string>): M.Transaction {
    M.Transaction(Some(s.gameBar.Observed()), Some(Print(s.scheme)), CaptureAudio(s.endpoints, order), false)
  }

  function RollbackSnapshot(s: M.Settings, body: Body, c: M.RollbackCalls): M.Settings {
    M.Rollback(s, body.backup, c).(record := s.record)
  }

  /** What recovery says it did: the number of audio backups it went through and whether the
      calls for the power scheme and Game Mode succeeded. */
  datatype Report =
    | NothingToDo
    | Recovered(body: Body, audioRestored: nat, powerRestored: bool, gameModeRestored: bool)
    | Failed

  function ReportOf(body: Body, c: M.RollbackCalls): Report {
    var tx := body.backup;
    Recovered(body, |tx.audio|, tx.powerScheme.Some? && Parse(tx.powerScheme.value).Some? && c.powerOk,
              tx.gameMode.Some? && c.game.createOk && (c.game.writeAllowOk || c.game.writeEnabledOk))
  }

  /** One attempt at recovery: whether the key and the snapshot could be read, and which of the
      restoring calls succeed. */
  datatype Attempt = Attempt(readOk: bool, calls: M.RollbackCalls)

  /** The settings and the report once recovery has reached the deletion of the snapshot. */
  function CheckAndRecover(f: Foreign, d: Directory, s: M.Settings, a: Attempt): (M.Settings, Report) {
    if d.target.None? then (s, NothingToDo)
    else if !a.readOk || !Load(f, d).Loaded? then (s, Failed)
    else
      var body := Load(f, d).snapshot.body;
      (RollbackSnapshot(s, body, a.calls), ReportOf(body, a.calls))
  }

  /** The restore steps in their order, filling in the report. */
  method RestoreSnapshot(m: C.Machine, body: Body, c: M.RollbackCalls) returns (report: Report)
    modifies m
    ensures m.Settings() == RollbackSnapshot(old(m.Settings()), body, c) && report == ReportOf(body, c)
  {
    report := Recovered(body, 0, false, false);
    var tx := body.backup;
    if tx.audio != [] {
      m.RestoreAudio(tx.audio, c.endpoint);
      report := report.(audioRestored := |tx.audio|);
    }
    var restored := m.RestorePower(tx.powerScheme, c.powerOk);
    report := report.(powerRestored := restored);
    if tx.gameMode.Some? {
      var previous := m.SetGameMode(tx.gameMode.value, c.game);
      if previous.Some? {
        report := report.(gameModeRestored := true);
      }
    }
  }

  /** Load, restore, report. An authentic snapshot is restored and reported; on any other directory,
      whatever it holds, no setting changes. */
  method Recover(f: Foreign, d: Directory, m: C.Machine, a: Attempt) returns (report: Report)
    modifies m
    ensures (m.Settings(), report) == CheckAndRecover(f, d, old(m.Settings()), a)
    ensures forall s :: a.readOk && Authentic(f, d, s) ==>
              report == ReportOf(s.body, a.calls)
              && m.Settings() == RollbackSnapshot(old(m.Settings()), s.body, a.calls)
    ensures !a.readOk || (forall s :: !Authentic(f, d, s)) ==>
              m.Settings() == old(m.Settings()) && report == if d.target.None? then NothingToDo else Failed
  {
    forall s ensures Load(f, d) == Loaded(s) <==> Authentic(f, d, s) {
      LoadedIff(f, d, s);
    }
    if d.target.None? {
      return NothingToDo;
    }
    if !a.readOk {
      return Failed;
    }
    var loaded := Load(f, d);
    if !loaded.Loaded? {
      return Failed;
    }
    report := RestoreSnapshot(m, loaded.snapshot.body, a.calls);
  }

  /** The report: the power flag is never wrong. The Game Mode flag can be, and the observable
      mode is the saved one if and only if its first value was written or it was that mode
      already. The audio count is that of all backups, though each endpoint whose calls fail
      keeps its value. */
  lemma ReportedIsRestored(f: Foreign, d: Directory, s: M.Settings, a: Attempt)
    requires CheckAndRecover(f, d, s, a).1.Recovered?
    ensures var (after, report) := CheckAndRecover(f, d, s, a);
            var tx := report.body.backup;
            && (report.powerRestored ==> Parse(tx.powerScheme.value).value == after.scheme)
            && (!report.powerRestored ==> after.scheme == s.scheme)
            && (report.gameModeRestored ==>
                  (after.gameBar.Observed() == tx.gameMode.value <==>
                     a.calls.game.writeAllowOk || s.gameBar.Observed() == tx.gameMode.value))
            && (!report.gameModeRestored ==> after.gameBar.Observed() == s.gameBar.Observed())
            && report.audioRestored == |tx.audio| && after.endpoints.Keys == s.endpoints.Keys
            && forall id :: id in s.endpoints && !P.Succeeds(a.calls.endpoint(id)) ==>
                 after.endpoints[id] == s.endpoints[id]
  {
    var tx := CheckAndRecover(f, d, s, a).1.body.backup;
    P.RestoreKeepsKeys(s.endpoints, tx.audio, a.calls.endpoint);
    forall id | id in s.endpoints && !P.Succeeds(a.calls.endpoint(id))
      ensures M.RestoreAll(s.endpoints, tx.audio, a.calls.endpoint)[id] == s.endpoints[id]
    {
      SkippedEndpointStays(s.endpoints, tx.audio, a.calls.endpoint, id);
    }
  }

  lemma {:induction false} SkippedEndpointStays(m: map<string, M.Fx>, backups: seq<M.Backup>,
                                                c: string -> M.RestoreCalls, id: string)
    requires id in m && !P.Succeeds(c(id))
    ensures var m' := M.RestoreAll(m, backups, c); id in m' && m'[id] == m[id]
  {
    if backups != [] {
      SkippedEndpointStays(m, backups[..|backups| - 1], c, id);
    }
  }

  lemma {:induction false} CapturedAudio(endpoints: map<string, M.Fx>, order: seq<string>, id: string)
    ensures P.Saved(CaptureAudio(endpoints, order), id) ==
            if id in order && id in endpoints
            then Some(Some(if EnhancementsDisabled(endpoints[id]) then 1 else 0)) else None
  {
    if order != [] {
      var init, last := order[..|order| - 1], order[|order| - 1];
      CapturedAudio(endpoints, init, id);
      assert id in order <==> id in init || id == last by { assert order == init + [last]; }
      var all, before := CaptureAudio(endpoints, order), CaptureAudio(endpoints, init);
      if last in endpoints {
        SavedOneMore(before, all[|all| - 1], id);
      } else {
        assert all == before;
      }
    }
  }

  lemma {:induction false} SavedOneMore(backups: seq<M.Backup>, b: M.Backup, id: string)
    ensures P.Saved(backups + [b], id) == if b.endpoint == id then Some(b.original) else P.Saved(backups, id)
  {
    assert (backups + [b])[..|backups|] == backups;
  }

  ghost predicate WritesSucceed(c: M.RollbackCalls) {
    && c.game.createOk && c.game.writeAllowOk && c.powerOk
    && forall id :: c.endpoint(id).openOk && c.endpoint(id).writeOk
  }

  /** Whatever happened to the settings since the baseline was captured, a recovery whose
      writes succeed brings back the observable Game Mode and the power scheme. */
  lemma RecoveryRestoresModeAndScheme(base: M.Settings, now: M.Settings, name: string, order: seq<string>,
                                      c: M.RollbackCalls)
    requires WritesSucceed(c)
    ensures var after := RollbackSnapshot(now, Body(name, CaptureBaseline(base, order)), c);
            after.gameBar.Observed() == base.gameBar.Observed() && after.scheme == base.scheme
  {
    SchemeComesBack(base.scheme, now.scheme);
  }

  lemma SchemeComesBack(scheme: ValidGuid, now: ValidGuid)
    ensures M.RestorePower(now, Some(Print(scheme)), true) == scheme
  {
    RoundTrip(scheme, "", "", "", "", "", "");
  }

  /** A captured endpoint gets its disabled flag back if and only if its key still exists or
      the flag was off, and its raw value back if and only if that value was 0 or 1, or the
      key is gone and there was none. */
  lemma RecoveryRestoresEndpoint(base: M.Settings, now: M.Settings, name: string, order: seq<string>, id: string,
                                 c: M.RollbackCalls)
    requires P.NoDuplicates(order) && WritesSucceed(c)
    requires id in order && id in base.endpoints && id in now.endpoints
    ensures var after := RollbackSnapshot(now, Body(name, CaptureBaseline(base, order)), c);
            id in after.endpoints && CapturedBack(base.endpoints[id], now.endpoints[id], after.endpoints[id])
  {
    CapturedAudio(base.endpoints, order, id);
    var audio := CaptureAudio(base.endpoints, order);
    P.RestoredEndpoint(now.endpoints, audio, c.endpoint, id);
    assert P.Saved(audio, id) == Some(Some(if EnhancementsDisabled(base.endpoints[id]) then 1 else 0));
  }

  ghost predicate CapturedBack(base: M.Fx, now: M.Fx, after: M.Fx) {
    && (EnhancementsDisabled(after) == EnhancementsDisabled(base) <==> now.FxKey? || !EnhancementsDisabled(base))
    && (after.Raw() == base.Raw() <==> if now.FxKey? then base.Raw() in {Some(0), Some(1)} else base.Raw().None?)
  }

  // ----- attempts that meet their own failures -----

  function EitherAttempt(a: Attempt, b: Attempt): Attempt {
    if !a.readOk then b else if !b.readOk then a else Attempt(true, P.Either(a.calls, b.calls))
  }

  /** A recovery that ends before its deletion, in a crash or because the deletion fails, and a
      second one with outcomes of its own: together they are one recovery in which each call succeeded that succeeded in
      either. */
  lemma RecoveryTwice(f: Foreign, d: Directory, s: M.Settings, a: Attempt, b: Attempt)
    ensures CheckAndRecover(f, d, CheckAndRecover(f, d, s, a).0, b).0
            == CheckAndRecover(f, d, s, EitherAttempt(a, b)).0
  {
    if Load(f, d).Loaded? && a.readOk && b.readOk {
      var tx := Load(f, d).snapshot.body.backup;
      P.RollbackTwice(s, tx, a.calls, b.calls);
      var once := RollbackSnapshot(s, Load(f, d).snapshot.body, a.calls);
      assert M.Rollback(once, tx, b.calls).(record := s.record)
             == M.Rollback(M.Rollback(s, tx, a.calls), tx, b.calls).(record := s.record);
    }
  }

  /** In particular the same outcomes again change nothing and report the same. */
  lemma RecoveryCanBeRepeated(f: Foreign, d: Directory, s: M.Settings, a: Attempt)
    ensures var (once, report) := CheckAndRecover(f, d, s, a);
            CheckAndRecover(f, d, once, a) == (once, report)
  {
    if Load(f, d).Loaded? && a.readOk {
      var tx := Load(f, d).snapshot.body.backup;
      P.RollbackIdempotent(s, tx, a.calls);
      var once := CheckAndRecover(f, d, s, a).0;
      assert M.Rollback(once, tx, a.calls).(record := once.record)
             == M.Rollback(M.Rollback(s, tx, a.calls), tx, a.calls).(record := s.record);
    }
  }

  // ----- attempts and the deletion that ends them -----

  /** A recovery with the file calls of its deletion: first the snapshot, then the key. */
  datatype Try = Try(attempt: Attempt, deletion: seq<Event>)

  predicate IsOutcome(e: Event) {
    e.Succeed? || e.Fail? || e.Crash?
  }

  ghost predicate IsDeletion(t: Try) {
    forall k :: 0 <= k < |t.deletion| ==> IsOutcome(t.deletion[k])
  }

  /** The try got as far as removing the snapshot. */
  predicate Removes(t: Try) {
    t.attempt.readOk && t.deletion != [] && t.deletion[0].Succeed?
  }

  /** One recovery to its end or to the crash that ends it. It deletes the snapshot whatever its
      restoring calls did. */
  function TryRecover(f: Foreign, st: State, s: M.Settings, t: Try): (State, M.Settings) {
    var (after, report) := CheckAndRecover(f, st.dir, s, t.attempt);
    if !report.Recovered? then (st, after)
    else (Run(f, Step(f, st, BeginRecover), t.deletion).(next := Idle), after)
  }

  function TryAll(f: Foreign, st: State, s: M.Settings, tries: seq<Try>): (State, M.Settings) {
    if tries == [] then (st, s)
    else
      var (st1, s1) := TryAll(f, st, s, tries[..|tries| - 1]);
      TryRecover(f, st1, s1, tries[|tries| - 1])
  }

  /** The deletion once the snapshot is gone, and before it is. */
  lemma {:induction false} DeletionRuns(f: Foreign, st: State, steps: seq<Event>)
    requires forall k :: 0 <= k < |steps| ==> IsOutcome(steps[k])
    ensures st.dir.target.None? && (st.next.Idle? || st.next.ZeroKey? || st.next.RemoveKey?) ==>
              var st' := Run(f, st, steps);
              st'.dir.target.None? && (st'.next.Idle? || st'.next.ZeroKey? || st'.next.RemoveKey?)
    ensures st.next.RemoveTarget? ==>
              var st' := Run(f, st, steps);
              if steps == [] then st' == st
              else if steps[0].Succeed? then
                st'.dir.target.None? && (st'.next.Idle? || st'.next.ZeroKey? || st'.next.RemoveKey?)
              else st'.dir == st.dir && st'.next.Idle?
  {
    if steps != [] {
      DeletionRuns(f, st, steps[..|steps| - 1]);
      assert |steps| > 1 ==> steps[..|steps| - 1][0] == steps[0];
      assert IsOutcome(steps[|steps| - 1]);
    }
  }

  /** A try leaves the directory as it was or removes the snapshot. */
  lemma {:induction false} TryEnds(f: Foreign, st: State, s: M.Settings, t: Try)
    requires st.next.Idle? && Load(f, st.dir).Loaded? && IsDeletion(t)
    ensures var st' := TryRecover(f, st, s, t).0;
            st'.next.Idle? && if Removes(t) then st'.dir.target.None? else st'.dir == st.dir
  {
    DeletionRuns(f, Step(f, st, BeginRecover), t.deletion);
  }

  ghost predicate Removed(tries: seq<Try>) {
    exists k :: 0 <= k < |tries| && Removes(tries[k])
  }

  /** The restoring calls that count: those of the tries that could read, up to and including the
      first that removed the snapshot. */
  ghost function Effective(tries: seq<Try>): seq<M.RollbackCalls> {
    if tries == [] then []
    else
      var init, last := tries[..|tries| - 1], tries[|tries| - 1];
      Effective(init) + if Removed(init) || !last.attempt.readOk then [] else [last.attempt.calls]
  }

  function Joined(s: M.Settings, body: Body, cs: seq<M.RollbackCalls>): M.Settings {
    if cs == [] then s else RollbackSnapshot(s, body, P.EitherAll(cs))
  }

  lemma {:induction false} JoinedOneMore(s: M.Settings, body: Body, cs: seq<M.RollbackCalls>, c: M.RollbackCalls)
    ensures RollbackSnapshot(Joined(s, body, cs), body, c) == Joined(s, body, cs + [c])
  {
    assert (cs + [c])[..|cs|] == cs;
    if cs != [] {
      var tx, e := body.backup, P.EitherAll(cs);
      P.RollbackTwice(s, tx, e, c);
      assert M.Rollback(M.Rollback(s, tx, e).(record := s.record), tx, c).(record := s.record)
             == M.Rollback(M.Rollback(s, tx, e), tx, c).(record := s.record);
    }
  }

  lemma RemovedOneMore(tries: seq<Try>)
    requires tries != []
    ensures Removed(tries) <==> Removed(tries[..|tries| - 1]) || Removes(tries[|tries| - 1])
  {
  }

  /** The state of the directory between tries. */
  ghost predicate Between(d: Directory, st: State, removed: bool) {
    st.next.Idle? && if removed then st.dir.target.None? else st.dir == d
  }

  lemma {:induction false} OneMoreTry(f: Foreign, d: Directory, st: State, s: M.Settings, removed: bool,
                                      cs: seq<M.RollbackCalls>, t: Try)
    requires Load(f, d).Loaded? && Between(d, st, removed) && IsDeletion(t)
    ensures var body := Load(f, d).snapshot.body;
            var (st', s') := TryRecover(f, st, Joined(s, body, cs), t);
            && Between(d, st', removed || Removes(t))
            && s' == Joined(s, body, cs + if removed || !t.attempt.readOk then [] else [t.attempt.calls])
  {
    var body := Load(f, d).snapshot.body;
    if removed || !t.attempt.readOk {
      assert cs + [] == cs;
    } else {
      TryEnds(f, st, Joined(s, body, cs), t);
      JoinedOneMore(s, body, cs, t.attempt.calls);
    }
  }

  /** Any number of recoveries, each with failures of its own, is one recovery in which each call
      succeeded that succeeded in a try that counts. */
  lemma {:induction false} TriesAreOne(f: Foreign, st: State, s: M.Settings, tries: seq<Try>)
    requires st.next.Idle? && Load(f, st.dir).Loaded? && forall k :: 0 <= k < |tries| ==> IsDeletion(tries[k])
    ensures var (st', s') := TryAll(f, st, s, tries);
            Between(st.dir, st', Removed(tries)) && s' == Joined(s, Load(f, st.dir).snapshot.body, Effective(tries))
  {
    if tries != [] {
      var init, last := tries[..|tries| - 1], tries[|tries| - 1];
      TriesAreOne(f, st, s, init);
      RemovedOneMore(tries);
      OneMoreTry(f, st.dir, TryAll(f, st, s, init).0, s, Removed(init), Effective(init), last);
    }
  }

  predicate WritesMode(c: M.RollbackCalls) {
    c.game.createOk && c.game.writeAllowOk
  }

  lemma JoinedMode(base: M.Settings, now: M.Settings, name: string, order: seq<string>, cs: seq<M.RollbackCalls>)
    ensures var after := Joined(now, Body(name, CaptureBaseline(base, order)), cs);
            after.gameBar.Observed() == base.gameBar.Observed() <==>
            now.gameBar.Observed() == base.gameBar.Observed() || exists k :: 0 <= k < |cs| && WritesMode(cs[k])
  {
    if cs != [] {
      EitherAllMode(cs);
    }
  }

  lemma {:induction false} EitherAllMode(cs: seq<M.RollbackCalls>)
    requires cs != []
    ensures WritesMode(P.EitherAll(cs)) <==> exists k :: 0 <= k < |cs| && WritesMode(cs[k])
  {
    if |cs| > 1 {
      EitherAllMode(cs[..|cs| - 1]);
    }
  }

  lemma JoinedScheme(base: M.Settings, now: M.Settings, name: string, order: seq<string>, cs: seq<M.RollbackCalls>)
    ensures var after := Joined(now, Body(name, CaptureBaseline(base, order)), cs);
            after.scheme == base.scheme <==> now.scheme == base.scheme || exists k :: 0 <= k < |cs| && cs[k].powerOk
  {
    if cs != [] {
      EitherAllPower(cs);
      SchemeComesBack(base.scheme, now.scheme);
    }
  }

  lemma {:induction false} EitherAllPower(cs: seq<M.RollbackCalls>)
    requires cs != []
    ensures P.EitherAll(cs).powerOk <==> exists k :: 0 <= k < |cs| && cs[k].powerOk
  {
    if |cs| > 1 {
      EitherAllPower(cs[..|cs| - 1]);
    }
  }

  lemma {:induction false} EitherAllEndpoint(cs: seq<M.RollbackCalls>, id: string)
    requires cs != []
    ensures P.Succeeds(P.EitherAll(cs).endpoint(id)) <==>
            exists k :: 0 <= k < |cs| && P.Succeeds(cs[k].endpoint(id))
  {
    if |cs| > 1 {
      EitherAllEndpoint(cs[..|cs| - 1], id);
    }
  }

  /** The endpoint's disabled flag is the captured one: it is anyway, or some call wrote it. */
  ghost predicate FlagBackIff(base: M.Fx, now: M.Fx, after: M.Fx, id: string, cs: seq<M.RollbackCalls>) {
    EnhancementsDisabled(after) == EnhancementsDisabled(base) <==>
    || EnhancementsDisabled(now) == EnhancementsDisabled(base)
    || (now.FxKey? && exists k :: 0 <= k < |cs| && P.Succeeds(cs[k].endpoint(id)))
  }

  lemma {:induction false} JoinedEndpoint(base: M.Settings, now: M.Settings, name: string, order: seq<string>,
                                          cs: seq<M.RollbackCalls>, id: string)
    requires P.NoDuplicates(order) && id in order && id in base.endpoints && id in now.endpoints
    ensures var after := Joined(now, Body(name, CaptureBaseline(base, order)), cs);
            id in after.endpoints && FlagBackIff(base.endpoints[id], now.endpoints[id], after.endpoints[id], id, cs)
  {
    if cs != [] {
      var audio := CaptureAudio(base.endpoints, order);
      CapturedAudio(base.endpoints, order, id);
      assert P.Saved(audio, id) == Some(Some(if EnhancementsDisabled(base.endpoints[id]) then 1 else 0));
      P.RestoredEndpoint(now.endpoints, audio, P.EitherAll(cs).endpoint, id);
      EitherAllEndpoint(cs, id);
    }
  }

  /** The captured baseline after any number of recoveries: each part of it is back if and only
      if it was never away or its calls succeeded in some try up to and including the first
      that removed the snapshot. */
  lemma {:induction false} BaselineBackIff(f: Foreign, st: State, now: M.Settings, tries: seq<Try>,
                                           base: M.Settings, name: string, order: seq<string>)
    requires st.next.Idle? && Load(f, st.dir).Loaded? && forall k :: 0 <= k < |tries| ==> IsDeletion(tries[k])
    requires Load(f, st.dir).snapshot.body == Body(name, CaptureBaseline(base, order)) && P.NoDuplicates(order)
    ensures var after, cs := TryAll(f, st, now, tries).1, Effective(tries);
            && (after.gameBar.Observed() == base.gameBar.Observed() <==>
                  now.gameBar.Observed() == base.gameBar.Observed() || exists k :: 0 <= k < |cs| && WritesMode(cs[k]))
            && (after.scheme == base.scheme <==>
                  now.scheme == base.scheme || exists k :: 0 <= k < |cs| && cs[k].powerOk)
            && forall id :: id in order && id in base.endpoints && id in now.endpoints ==>
                 id in after.endpoints
                 && FlagBackIff(base.endpoints[id], now.endpoints[id], after.endpoints[id], id, cs)
  {
    var cs := Effective(tries);
    TriesAreOne(f, st, now, tries);
    JoinedMode(base, now, name, order, cs);
    JoinedScheme(base, now, name, order, cs);
    forall id | id in order && id in base.endpoints && id in now.endpoints
      ensures var after := Joined(now, Body(name, CaptureBaseline(base, order)), cs);
              id in after.endpoints
              && FlagBackIff(base.endpoints[id], now.endpoints[id], after.endpoints[id], id, cs)
    {
      JoinedEndpoint(base, now, name, order, cs, id);
    }
  }

  lemma {:induction false} NothingCountsAfter(first: Try, more: seq<Try>)
    requires Removes(first)
    ensures Effective([first] + more) == [first.attempt.calls] && Removed([first] + more)
  {
    var tries := [first] + more;
    assert Removes(tries[0]);
    if more == [] {
      assert tries[..0] == [];
    } else {
      assert tries[..|tries| - 1] == [first] + more[..|more| - 1];
      NothingCountsAfter(first, more[..|more| - 1]);
    }
  }

  /** A recovery whose call for the power scheme fails and whose deletion succeeds loses the
      captured scheme: no later recovery brings it back. */
  lemma {:induction false} DeletionLosesScheme(f: Foreign, st: State, now: M.Settings, first: Try, more: seq<Try>,
                                               base: M.Settings, name: string, order: seq<string>)
    requires st.next.Idle? && Load(f, st.dir).Loaded? && P.NoDuplicates(order)
    requires Load(f, st.dir).snapshot.body == Body(name, CaptureBaseline(base, order))
    requires IsDeletion(first) && forall k :: 0 <= k < |more| ==> IsDeletion(more[k])
    requires Removes(first) && !first.attempt.calls.powerOk && now.scheme != base.scheme
    ensures TryAll(f, st, now, [first] + more).1.scheme != base.scheme
  {
    BaselineBackIff(f, st, now, [first] + more, base, name, order);
    NothingCountsAfter(first, more);
  }

  /** In every reachable state of the directory, recovery ends in an error if and only if a
      snapshot is there and cannot be read; otherwise it restores a body that was saved, or
      finds nothing because nothing is there. */
  lemma {:induction false} RecoveryFailsOnlyOnReads(f: Foreign, events: seq<Event>, s: M.Settings, a: Attempt)
    requires f.Lawful()
    ensures var st := Run(f, EMPTY, events);
            var report := CheckAndRecover(f, st.dir, s, a).1;
            && (report == NothingToDo <==> st.dir.target.None?)
            && (report == Failed <==> st.dir.target.Some? && !a.readOk)
            && (report.Recovered? ==> report.body in st.saved)
  {
    PresentSnapshotLoads(f, events);
  }
}
