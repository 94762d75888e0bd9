/** What apply followed by rollback does to every setting, for every pattern of failing calls. */
module OptimizationProofs {
  import opened Options
  import opened Guids
  import opened OptimizationModel

  ghost predicate NoDuplicates(order: seq<string>) {
    forall i, j :: 0 <= i < j < |order| ==> order[i] != order[j]
  }

  /** The saved original of an endpoint, if the backups hold one. */
  function Saved(backups: seq<Backup>, id: string): Option<Option<nat>> {
    if backups == [] then None
    else
      var last := backups[|backups| - 1];
      if last.endpoint == id then Some(last.original) else Saved(backups[..|backups| - 1], id)
  }

  /** The disabling loop: what it leaves in every endpoint and what it saves. */
  lemma {:induction false} DisabledEndpoint(m: map<string, Fx>, order: seq<string>, c: string -> EndpointCalls,
                                            id: string)
    requires NoDuplicates(order) && id in m
    ensures var (m', backups) := DisableAll(m, order, c);
            && m'.Keys == m.Keys
            && m'[id] == (if id in order then DisableOne(m[id], c(id)).0 else m[id])
            && Saved(backups, id) == (if id in order then DisableOne(m[id], c(id)).1 else None)
  {
    if order != [] {
      var init, last := order[..|order| - 1], order[|order| - 1];
      DisabledEndpoint(m, init, c, id);
      assert order == init + [last];
      assert id in order <==> id in init || id == last;
      var (m1, b1) := DisableAll(m, init, c);
      var (m2, b2) := DisableNext(m1, b1, last, c);
      if last in m1 && DisableOne(m1[last], c(last)).1.Some? {
        assert b2[..|b2| - 1] == b1;
      }
    }
  }

  lemma {:induction false} DisableKeepsKeys(m: map<string, Fx>, order: seq<string>, c: string -> EndpointCalls)
    ensures DisableAll(m, order, c).0.Keys == m.Keys
  {
    if order != [] {
      DisableKeepsKeys(m, order[..|order| - 1], c);
    }
  }

  /** The restoring loop: each backed-up endpoint gets its last backup, the others nothing. */
  lemma {:induction false} RestoredEndpoint(m: map<string, Fx>, backups: seq<Backup>, c: string -> RestoreCalls,
                                            id: string)
    requires id in m
    ensures var m' := RestoreAll(m, backups, c);
            && m'.Keys == m.Keys
            && m'[id] == match Saved(backups, id)
                         case Some(original) => RestoreOne(m[id], original, c(id))
                         case None => m[id]
  {
    if backups != [] {
      RestoredEndpoint(m, backups[..|backups| - 1], c, id);
    }
  }

  /** One endpoint through apply and rollback. */
  function ThereAndBack(fx: Fx, c: EndpointCalls, r: RestoreCalls): Fx {
    var (fx', saved) := DisableOne(fx, c);
    if saved.Some? then RestoreOne(fx', saved.value, r) else fx'
  }

  lemma {:induction false} EndpointThereAndBack(m: map<string, Fx>, order: seq<string>, c: string -> EndpointCalls,
                             r: string -> RestoreCalls, id: string)
    requires NoDuplicates(order) && id in m
    ensures var (m1, backups) := DisableAll(m, order, c);
            var m2 := RestoreAll(m1, backups, r);
            && m2.Keys == m.Keys
            && m2[id] == if id in order then ThereAndBack(m[id], c(id), r(id)) else m[id]
  {
    DisabledEndpoint(m, order, c, id);
    RestoredEndpoint(DisableAll(m, order, c).0, DisableAll(m, order, c).1, r, id);
  }

  /** Exactly when an endpoint's raw value comes back: it was never written; or it was
      restored from a record that is right, which a failed query makes it only if there was
      no value; or it was 1 already. */
  ghost predicate EndpointRecovers(fx: Fx, c: EndpointCalls, r: RestoreCalls) {
    if !(c.openOk && c.writeOk) then true
    else if r.openOk && r.writeOk then c.queryOk || fx.Raw().None?
    else fx.Raw() == Some(1)
  }

  lemma EndpointRecoversIff(fx: Fx, c: EndpointCalls, r: RestoreCalls)
    ensures ThereAndBack(fx, c, r).Raw() == fx.Raw() <==> EndpointRecovers(fx, c, r)
    ensures ThereAndBack(fx, c, r).NoFxKey? <==> fx.NoFxKey? && !c.openOk
  {
  }

  /** Exactly when the observable Game Mode comes back. */
  ghost predicate GameModeRecovers(bar: GameBar, c: GameCalls, r: GameCalls) {
    if !c.createOk || (!c.writeAllowOk && !c.writeEnabledOk) then true
    else if r.createOk && r.writeAllowOk then c.readOk || bar.Observed()
    else bar.Observed() || !c.writeAllowOk
  }

  lemma GameModeRecoversIff(bar: GameBar, c: GameCalls, r: GameCalls)
    ensures var (bar', previous) := SetGameMode(bar, true, c);
            var bar'' := if previous.Some? then SetGameMode(bar', previous.value, r).0 else bar';
            bar''.Observed() == bar.Observed() <==> GameModeRecovers(bar, c, r)
  {
  }

  /** The second registry value, which nothing observable depends on: apply and rollback write it
      like the first, and the exact calls under which it comes back. */
  lemma SecondValue(bar: GameBar, c: GameCalls, r: GameCalls)
    ensures bar.Observed() <==> bar.Allow() != Some(0)
    ensures var (bar', previous) := SetGameMode(bar, true, c);
            var bar'' := if previous.Some? then SetGameMode(bar', previous.value, r).0 else bar';
            var wrote := c.createOk && c.writeEnabledOk;
            var rewrote := previous.Some? && r.createOk && r.writeEnabledOk;
            var saved := if bar.Observed() || !c.readOk then 1 else 0;
            && bar'.Enabled() == (if wrote then Some(1) else bar.Enabled())
            && bar''.Enabled() == (if rewrote then Some(saved) else bar'.Enabled())
            && (bar''.Enabled() == bar.Enabled() <==>
                  if rewrote then bar.Enabled() == Some(saved) else !wrote || bar.Enabled() == Some(1))
  {
  }

  function Target(c: PowerCalls): ValidGuid {
    if c.ultimateOk then ULTIMATE else HIGH
  }

  /** Exactly when the power scheme comes back. */
  ghost predicate PowerRecovers(scheme: ValidGuid, c: PowerCalls, ok: bool) {
    || !c.readOk || c.laptop || (!c.ultimateOk && !c.highOk)
    || ok || scheme == Target(c)
  }

  lemma PowerRecoversIff(scheme: ValidGuid, c: PowerCalls, ok: bool)
    ensures var (scheme', previous) := ApplyPower(scheme, c);
            var saved := if previous.Some? then Some(Print(previous.value)) else None;
            RestorePower(scheme', saved, ok) == scheme <==> PowerRecovers(scheme, c, ok)
  {
    RoundTrip(scheme, "", "", "", "", "", "");
  }

  // ----- the whole transaction -----

  /** The same Game Mode reading, power scheme and raw endpoint values. */
  ghost predicate SameObservables(s: Settings, t: Settings) {
    && s.gameBar.Observed() == t.gameBar.Observed()
    && s.scheme == t.scheme
    && s.endpoints.Keys == t.endpoints.Keys
    && forall id :: id in s.endpoints ==> s.endpoints[id].Raw() == t.endpoints[id].Raw()
  }

  /** The calls up to a point of apply, with the ones after it treated as not made. */
  function PowerUpTo(c: ApplyCalls, p: Progress): PowerCalls {
    if p.AfterGameMode? then c.power.(readOk := false) else c.power
  }

  function OrderUpTo(order: seq<string>, p: Progress): seq<string>
    requires p.InAudio? ==> p.k <= |order|
  {
    if p.InAudio? then order[..p.k] else []
  }

  lemma {:induction false} BackupsGrow(m: map<string, Fx>, order: seq<string>, c: string -> EndpointCalls, k: nat)
    requires k <= |order|
    ensures DisableAll(m, order[..k], c).1 <= DisableAll(m, order, c).1
  {
    if k < |order| {
      BackupsGrow(m, order[..|order| - 1], c, k);
      assert order[..|order| - 1][..k] == order[..k];
    } else {
      assert order[..k] == order;
    }
  }

  /** What apply has remembered at a point: something if and only if Game Mode did not fail, and
      then what the finished transaction says of the parts done so far. */
  lemma {:induction false} RememberedSoFar(s: Settings, order: seq<string>, c: ApplyCalls, p: Progress)
    requires p.InAudio? ==> p.k <= |order|
    ensures At(s, order, c, p).1.Some? <==> !GameModeFails(c.game)
    ensures Apply(s, order, c).1.Some? <==> !GameModeFails(c.game)
    ensures !GameModeFails(c.game) ==>
              var tx, last := At(s, order, c, p).1.value, Apply(s, order, c).1.value;
              && tx.gameMode == last.gameMode && tx.gameMode.Some?
              && tx.powerScheme == (if p.AfterGameMode? then None else last.powerScheme)
              && tx.audio <= last.audio && (!p.InAudio? ==> tx.audio == [])
              && last.isApplied && !tx.isApplied
  {
    assert order[..|order|] == order;
    if p.InAudio? {
      BackupsGrow(s.endpoints, order, c.endpoint, p.k);
    }
  }

  /** Exactly when rolling back from a point of apply restores every observable setting. */
  ghost predicate Recovers(s: Settings, order: seq<string>, c: ApplyCalls, p: Progress, r: RollbackCalls)
    requires p.InAudio? ==> p.k <= |order|
  {
    && GameModeRecovers(s.gameBar, c.game, r.game)
    && PowerRecovers(s.scheme, PowerUpTo(c, p), r.powerOk)
    && forall id :: id in s.endpoints && id in OrderUpTo(order, p) ==>
         EndpointRecovers(s.endpoints[id], c.endpoint(id), r.endpoint(id))
  }

  /** At every point of apply, inside the endpoint loop too, what it has remembered determines
      the settings before it: rolling back from there restores every observable setting if and
      only if each setting meets its own condition. */
  lemma RollbackFromAnyPoint(s: Settings, order: seq<string>, c: ApplyCalls, p: Progress, r: RollbackCalls)
    requires NoDuplicates(order) && (p.InAudio? ==> p.k <= |order|)
    requires At(s, order, c, p).1.Some?
    ensures var (t, tx) := At(s, order, c, p);
            SameObservables(Rollback(t, tx.value, r), s) <==> Recovers(s, order, c, p, r)
  {
    var (t, tx) := At(s, order, c, p);
    var done := OrderUpTo(order, p);
    var back := Rollback(t, tx.value, r);
    GameModeRecoversIff(s.gameBar, c.game, r.game);
    PowerRecoversIff(s.scheme, PowerUpTo(c, p), r.powerOk);
    assert NoDuplicates(done);
    assert (t.endpoints, tx.value.audio) == DisableAll(s.endpoints, done, c.endpoint);
    forall id | id in s.endpoints
      ensures back.endpoints.Keys == s.endpoints.Keys
      ensures back.endpoints[id].Raw() == s.endpoints[id].Raw()
              <==> (id in done ==> EndpointRecovers(s.endpoints[id], c.endpoint(id), r.endpoint(id)))
    {
      EndpointThereAndBack(s.endpoints, done, c.endpoint, r.endpoint, id);
      EndpointRecoversIff(s.endpoints[id], c.endpoint(id), r.endpoint(id));
    }
    RollbackKeepsKeys(s.endpoints, done, c.endpoint, r.endpoint);
  }

  lemma {:induction false} RollbackKeepsKeys(m: map<string, Fx>, order: seq<string>, c: string -> EndpointCalls,
                                             r: string -> RestoreCalls)
    ensures var (m1, backups) := DisableAll(m, order, c); RestoreAll(m1, backups, r).Keys == m.Keys
  {
    DisableKeepsKeys(m, order, c);
    RestoreKeepsKeys(DisableAll(m, order, c).0, DisableAll(m, order, c).1, r);
  }

  lemma {:induction false} RestoreKeepsKeys(m: map<string, Fx>, backups: seq<Backup>, r: string -> RestoreCalls)
    ensures RestoreAll(m, backups, r).Keys == m.Keys
  {
    if backups != [] {
      RestoreKeepsKeys(m, backups[..|backups| - 1], r);
    }
  }

  /** All reads of apply and all writes of rollback succeed. */
  ghost predicate CallsSucceed(c: ApplyCalls, r: RollbackCalls) {
    && c.game.readOk && (forall id :: c.endpoint(id).queryOk)
    && r.game.createOk && r.game.writeAllowOk && r.powerOk
    && forall id :: r.endpoint(id).openOk && r.endpoint(id).writeOk
  }

  /** For every pattern of failing writes of apply, a rollback whose writes succeed restores
      every observable setting, from any point of apply. */
  lemma RollbackRestores(s: Settings, order: seq<string>, c: ApplyCalls, p: Progress, r: RollbackCalls)
    requires NoDuplicates(order) && (p.InAudio? ==> p.k <= |order|)
    requires At(s, order, c, p).1.Some? && CallsSucceed(c, r)
    ensures var (t, tx) := At(s, order, c, p); SameObservables(Rollback(t, tx.value, r), s)
  {
    RollbackFromAnyPoint(s, order, c, p, r);
  }

  /** A failed apply changes nothing observable; its only lasting effect is that it removes
      an older record of an outstanding transaction. */
  lemma FailedApplyChangesNothing(s: Settings, order: seq<string>, c: ApplyCalls)
    requires Apply(s, order, c).1.None?
    ensures var t := Apply(s, order, c).0;
            && SameObservables(t, s) && t.gameBar.Allow() == s.gameBar.Allow()
            && t.gameBar.Enabled() == s.gameBar.Enabled() && t.endpoints == s.endpoints
            && t.record == if c.removeOk then None else s.record
  {
  }

  /** After a crash, recovery from the written record does what rolling back would have
      done; without a written record the optimizations simply stay. */
  lemma RecoveryAfterApply(s: Settings, order: seq<string>, c: ApplyCalls, r: RollbackCalls)
    requires NoDuplicates(order) && Apply(s, order, c).1.Some?
    ensures var (t, tx) := Apply(s, order, c);
            && (c.recordOk ==> Recover(t, r) == (Rollback(t, tx.value, r), true))
            && (c.recordOk && CallsSucceed(c, r) ==> SameObservables(Recover(t, r).0, s))
            && (!c.recordOk && s.record.None? ==> Recover(t, r) == (t, false))
  {
    var p := InAudio(|order|);
    var (t, tx) := Apply(s, order, c);
    var (u, ux) := At(s, order, c, p);
    if c.recordOk && CallsSucceed(c, r) {
      RollbackRestores(s, order, c, p, r);
      assert SameObservables(Rollback(t, tx.value, r), Rollback(u, ux.value, r));
    }
  }

  // ----- what apply changes -----

  predicate Switches(c: PowerCalls) {
    c.readOk && !c.laptop && (c.ultimateOk || c.highOk)
  }

  predicate GameModeFails(c: GameCalls) {
    !c.createOk || (!c.writeAllowOk && !c.writeEnabledOk)
  }

  /** Exactly when apply changes no observable setting: it fails at once; or Game Mode was on or
      not written, the scheme was the new one or not switched, and every endpoint written held
      1 already. */
  ghost predicate Unchanged(s: Settings, order: seq<string>, c: ApplyCalls) {
    || GameModeFails(c.game)
    || (&& (s.gameBar.Observed() || !c.game.writeAllowOk)
        && (!Switches(c.power) || s.scheme == Target(c.power))
        && forall id :: id in s.endpoints && id in order && c.endpoint(id).openOk && c.endpoint(id).writeOk ==>
             s.endpoints[id].Raw() == Some(1))
  }

  lemma UnchangedIff(s: Settings, order: seq<string>, c: ApplyCalls)
    requires NoDuplicates(order)
    ensures SameObservables(Apply(s, order, c).0, s) <==> Unchanged(s, order, c)
  {
    var t := Apply(s, order, c).0;
    assert order[..|order|] == order;
    DisableKeepsKeys(s.endpoints, order, c.endpoint);
    if !GameModeFails(c.game) {
      assert t.endpoints == DisableAll(s.endpoints, order, c.endpoint).0;
      forall id | id in s.endpoints
        ensures t.endpoints[id].Raw() == s.endpoints[id].Raw() <==>
                (id in order && c.endpoint(id).openOk && c.endpoint(id).writeOk ==> s.endpoints[id].Raw() == Some(1))
      {
        DisabledEndpoint(s.endpoints, order, c.endpoint, id);
      }
    }
  }

  /** A second apply overwrites the record of the first: recovery then restores the settings
      between the two, which are the original ones if and only if the first apply found
      nothing to change. */
  lemma SecondApplyForgetsBaseline(s: Settings, order: seq<string>, c1: ApplyCalls, c2: ApplyCalls, r: RollbackCalls)
    requires NoDuplicates(order) && c2.recordOk && CallsSucceed(c2, r)
    requires Apply(s, order, c1).1.Some? && Apply(Apply(s, order, c1).0, order, c2).1.Some?
    ensures var mid := Apply(s, order, c1).0;
            var back := Recover(Apply(mid, order, c2).0, r).0;
            && SameObservables(back, mid)
            && (SameObservables(back, s) <==> Unchanged(s, order, c1))
  {
    RecoveryAfterApply(Apply(s, order, c1).0, order, c2, r);
    UnchangedIff(s, order, c1);
  }

  lemma ApplySucceedsIff(s: Settings, order: seq<string>, c: ApplyCalls)
    ensures Apply(s, order, c).1.Some? <==> !GameModeFails(c.game)
  {
  }

  /** A baseline that is really lost: Game Mode was off, two applies and the recovery succeed,
      and Game Mode stays on. */
  lemma GameModeLost(s: Settings, order: seq<string>, c1: ApplyCalls, c2: ApplyCalls, r: RollbackCalls)
    requires NoDuplicates(order) && c2.recordOk && CallsSucceed(c2, r)
    requires !s.gameBar.Observed() && c1.game.createOk && c1.game.writeAllowOk && !GameModeFails(c2.game)
    ensures var back := Recover(Apply(Apply(s, order, c1).0, order, c2).0, r).0;
            back.gameBar.Observed() && !SameObservables(back, s)
  {
    ApplySucceedsIff(s, order, c1);
    ApplySucceedsIff(Apply(s, order, c1).0, order, c2);
    SecondApplyForgetsBaseline(s, order, c1, c2, r);
  }

  const APPLY_OK: ApplyCalls :=
    ApplyCalls(GameCalls(true, true, true, true), PowerCalls(true, true, true, true),
               (_: string) => EndpointCalls(true, true, true), true, true)

  const ROLLBACK_OK: RollbackCalls :=
    RollbackCalls(GameCalls(true, true, true, true), true, (_: string) => RestoreCalls(true, true), true)

  /** Such an input: a laptop, on any scheme and with any endpoints, where every call succeeds. */
  lemma BaselineLost(scheme: ValidGuid, endpoints: map<string, Fx>, order: seq<string>)
    requires NoDuplicates(order)
    ensures var s := Settings(GameBar(Some(0), None), scheme, endpoints, None);
            var back := Recover(Apply(Apply(s, order, APPLY_OK).0, order, APPLY_OK).0, ROLLBACK_OK).0;
            back.gameBar.Observed() && !SameObservables(back, s)
  {
    GameModeLost(Settings(GameBar(Some(0), None), scheme, endpoints, None), order, APPLY_OK, APPLY_OK, ROLLBACK_OK);
  }

  // ----- repeated rollbacks -----

  predicate Succeeds(c: RestoreCalls) {
    c.openOk && c.writeOk
  }

  /** The outcomes of two attempts as those of one: a write that succeeded in either. */
  function EitherRestore(c: RestoreCalls, d: RestoreCalls): RestoreCalls {
    var ok := Succeeds(c) || Succeeds(d);
    RestoreCalls(ok, ok)
  }

  function EitherGame(c: GameCalls, d: GameCalls): GameCalls {
    GameCalls(c.readOk, c.createOk || d.createOk,
              (c.createOk && c.writeAllowOk) || (d.createOk && d.writeAllowOk),
              (c.createOk && c.writeEnabledOk) || (d.createOk && d.writeEnabledOk))
  }

  function Either(c: RollbackCalls, d: RollbackCalls): RollbackCalls {
    RollbackCalls(EitherGame(c.game, d.game), c.powerOk || d.powerOk,
                  id => EitherRestore(c.endpoint(id), d.endpoint(id)), c.removeOk || d.removeOk)
  }

  lemma GameModeTwice(bar: GameBar, mode: bool, c: GameCalls, d: GameCalls)
    ensures SetGameMode(SetGameMode(bar, mode, c).0, mode, d).0 == SetGameMode(bar, mode, EitherGame(c, d)).0
  {
  }

  lemma {:induction false} EndpointsTwice(m: map<string, Fx>, backups: seq<Backup>, c: string -> RestoreCalls,
                                          d: string -> RestoreCalls)
    ensures RestoreAll(RestoreAll(m, backups, c), backups, d)
            == RestoreAll(m, backups, id => EitherRestore(c(id), d(id)))
  {
    var e := id => EitherRestore(c(id), d(id));
    var once := RestoreAll(m, backups, c);
    RestoreKeepsKeys(m, backups, c);
    RestoreKeepsKeys(once, backups, d);
    RestoreKeepsKeys(m, backups, e);
    forall id | id in m ensures RestoreAll(once, backups, d)[id] == RestoreAll(m, backups, e)[id] {
      RestoredEndpoint(m, backups, c, id);
      RestoredEndpoint(once, backups, d, id);
      RestoredEndpoint(m, backups, e, id);
    }
  }

  /** Rolling back with outcomes c and then again with outcomes d is one rollback in which each
      call succeeded that succeeded in either. */
  lemma RollbackTwice(s: Settings, tx: Transaction, c: RollbackCalls, d: RollbackCalls)
    ensures Rollback(Rollback(s, tx, c), tx, d) == Rollback(s, tx, Either(c, d))
  {
    EndpointsTwice(s.endpoints, tx.audio, c.endpoint, d.endpoint);
    if tx.gameMode.Some? {
      GameModeTwice(s.gameBar, tx.gameMode.value, c.game, d.game);
    }
  }

  /** In particular restoring twice with the same outcomes is restoring once. */
  lemma RollbackIdempotent(s: Settings, tx: Transaction, r: RollbackCalls)
    ensures var once := Rollback(s, tx, r); Rollback(once, tx, r) == once
  {
    var once := Rollback(s, tx, r);
    var twice := Rollback(once, tx, r);
    RestoreKeepsKeys(s.endpoints, tx.audio, r.endpoint);
    RestoreKeepsKeys(once.endpoints, tx.audio, r.endpoint);
    forall id | id in s.endpoints ensures twice.endpoints[id] == once.endpoints[id] {
      RestoredEndpoint(s.endpoints, tx.audio, r.endpoint, id);
      RestoredEndpoint(once.endpoints, tx.audio, r.endpoint, id);
    }
    assert twice.endpoints == once.endpoints;
  }

  /** Any number of attempts, one after the other. */
  function RollbackAll(s: Settings, tx: Transaction, rs: seq<RollbackCalls>): Settings {
    if rs == [] then s else Rollback(RollbackAll(s, tx, rs[..|rs| - 1]), tx, rs[|rs| - 1])
  }

  function EitherAll(rs: seq<RollbackCalls>): RollbackCalls
    requires rs != []
  {
    if |rs| == 1 then rs[0] else Either(EitherAll(rs[..|rs| - 1]), rs[|rs| - 1])
  }

  lemma {:induction false} RollbackAttempts(s: Settings, tx: Transaction, rs: seq<RollbackCalls>)
    requires rs != []
    ensures RollbackAll(s, tx, rs) == Rollback(s, tx, EitherAll(rs))
  {
    if |rs| == 1 {
      assert rs[..0] == [];
    } else {
      RollbackAttempts(s, tx, rs[..|rs| - 1]);
      RollbackTwice(s, tx, EitherAll(rs[..|rs| - 1]), rs[|rs| - 1]);
    }
  }

  /** Rolling back again and again from any point of apply, each attempt meeting its own
      failures (a crash in an attempt is the failure of the calls it did not make), restores
      every observable setting if and only if each setting's condition holds for the calls
      that succeeded in some attempt. */
  lemma {:induction false} RetriedRollbackIff(s: Settings, order: seq<string>, c: ApplyCalls, p: Progress,
                                              rs: seq<RollbackCalls>)
    requires NoDuplicates(order) && (p.InAudio? ==> p.k <= |order|)
    requires At(s, order, c, p).1.Some? && rs != []
    ensures var (t, tx) := At(s, order, c, p);
            SameObservables(RollbackAll(t, tx.value, rs), s) <==> Recovers(s, order, c, p, EitherAll(rs))
  {
    var (t, tx) := At(s, order, c, p);
    RollbackAttempts(t, tx.value, rs);
    RollbackFromAnyPoint(s, order, c, p, EitherAll(rs));
  }

  /** So one attempt whose calls succeed is enough, however the earlier ones ended. */
  lemma {:induction false} RetriedRollbackRestores(s: Settings, order: seq<string>, c: ApplyCalls, p: Progress,
                                                   rs: seq<RollbackCalls>)
    requires NoDuplicates(order) && (p.InAudio? ==> p.k <= |order|)
    requires At(s, order, c, p).1.Some? && rs != [] && CallsSucceed(c, rs[|rs| - 1])
    ensures var (t, tx) := At(s, order, c, p); SameObservables(RollbackAll(t, tx.value, rs), s)
  {
    RetriedRollbackIff(s, order, c, p, rs);
    LastAttemptCounts(c, rs);
    SuccessRecovers(s, order, c, p, EitherAll(rs));
  }

  lemma {:induction false} LastAttemptCounts(c: ApplyCalls, rs: seq<RollbackCalls>)
    requires rs != [] && CallsSucceed(c, rs[|rs| - 1])
    ensures CallsSucceed(c, EitherAll(rs))
  {
  }

  lemma SuccessRecovers(s: Settings, order: seq<string>, c: ApplyCalls, p: Progress, r: RollbackCalls)
    requires (p.InAudio? ==> p.k <= |order|) && CallsSucceed(c, r)
    ensures Recovers(s, order, c, p, r)
  {
  }

  /** Recovery from the record on disk gets a second chance if and only if the record could not
      be deleted: it is deleted even when restoring failed. */
  lemma SecondRecovery(s: Settings, c: RollbackCalls, d: RollbackCalls)
    requires s.record.Some?
    ensures var once := Recover(s, c).0;
            Recover(once, d) == if c.removeOk then (once, false) else (Rollback(s, s.record.value, Either(c, d)), true)
  {
    RollbackTwice(s, s.record.value, c, d);
  }
}
