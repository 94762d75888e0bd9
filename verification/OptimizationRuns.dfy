/** Runs of applies and recoveries over one machine and its one transaction record: which of the
    earlier settings can still come back. */
module OptimizationRuns {
  import opened Options
  import opened Guids
  import opened OptimizationModel
  import opened OptimizationProofs

  datatype Op = DoApply(order: seq<string>, apply: ApplyCalls) | DoRecover(rollback: RollbackCalls)

  function RunOp(s: Settings, op: Op): Settings {
    match op
    case DoApply(order, c) => Apply(s, order, c).0
    case DoRecover(c) => Recover(s, c).0
  }

  function RunOps(s: Settings, ops: seq<Op>): Settings {
    if ops == [] then s else RunOp(RunOps(s, ops[..|ops| - 1]), ops[|ops| - 1])
  }

  lemma {:induction false} RunOpsOneMore(s: Settings, ops: seq<Op>, op: Op)
    ensures RunOps(s, ops + [op]) == RunOp(RunOps(s, ops), op)
  {
    assert (ops + [op])[..|ops|] == ops;
  }

  lemma {:induction false} RunTwoOps(s: Settings, first: Op, second: Op)
    ensures RunOps(s, [first, second]) == RunOp(RunOp(s, first), second)
  {
    assert [first, second][..1] == [first] && [first][..0] == [];
    assert RunOps(s, [first]) == RunOp(RunOps(s, []), first);
  }

  // ----- Game Mode -----

  /** The record on disk says that Game Mode was off. */
  predicate ModeHeld(s: Settings) {
    s.record.Some? && s.record.value.gameMode == Some(false)
  }

  predicate ModeGone(s: Settings) {
    s.gameBar.Observed() && !ModeHeld(s)
  }

  lemma ModeStaysGone(s: Settings, op: Op)
    requires ModeGone(s)
    ensures ModeGone(RunOp(s, op))
  {
  }

  lemma {:induction false} ModeGoneForGood(s: Settings, ops: seq<Op>)
    requires ModeGone(s)
    ensures ModeGone(RunOps(s, ops))
  {
    if ops != [] {
      ModeGoneForGood(s, ops[..|ops| - 1]);
      ModeStaysGone(RunOps(s, ops[..|ops| - 1]), ops[|ops| - 1]);
    }
  }

  /** While Game Mode is on, some run of applies and recoveries turns it off again if and only if
      the record on disk says that it was off. */
  lemma {:induction false} ModeComesBackIff(s: Settings)
    requires s.gameBar.Observed()
    ensures (exists ops :: !RunOps(s, ops).gameBar.Observed()) <==> ModeHeld(s)
  {
    if ModeHeld(s) {
      RunOpsOneMore(s, [], DoRecover(ROLLBACK_OK));
      assert !RunOps(s, [] + [DoRecover(ROLLBACK_OK)]).gameBar.Observed();
    } else {
      forall ops ensures RunOps(s, ops).gameBar.Observed() {
        ModeGoneForGood(s, ops);
      }
    }
  }

  // ----- power scheme -----

  predicate SchemeHeld(s: Settings, g: ValidGuid) {
    s.record.Some? && s.record.value.powerScheme.Some? &&
    var parsed := Parse(s.record.value.powerScheme.value); parsed.Some? && parsed.value == g
  }

  predicate SchemeGone(s: Settings, g: ValidGuid) {
    s.scheme != g && !SchemeHeld(s, g)
  }

  /** Apply writes one of the two gaming schemes and remembers the scheme that was active. */
  lemma ApplyOnSchemes(s: Settings, order: seq<string>, c: ApplyCalls)
    ensures var t := Apply(s, order, c).0;
            && (t.scheme == s.scheme || t.scheme == ULTIMATE || t.scheme == HIGH)
            && (t.record == s.record || t.record.None? || t.record.value.powerScheme.None?
                || t.record.value.powerScheme.value == Print(s.scheme))
  {
  }

  lemma PrintedParses(g: ValidGuid)
    ensures var parsed := Parse(Print(g)); parsed.Some? && parsed.value == g
  {
    RoundTrip(g, "", "", "", "", "", "");
  }

  lemma ApplyKeepsSchemeGone(s: Settings, t: Settings, g: ValidGuid)
    requires SchemeGone(s, g) && t.scheme != g
    requires t.record == s.record || t.record.None? || t.record.value.powerScheme.None?
             || t.record.value.powerScheme.value == Print(s.scheme)
    ensures SchemeGone(t, g)
  {
    PrintedParses(s.scheme);
  }

  lemma RecoverKeepsSchemeGone(s: Settings, c: RollbackCalls, g: ValidGuid)
    requires SchemeGone(s, g)
    ensures SchemeGone(Recover(s, c).0, g)
  {
  }

  lemma SchemeStaysGone(s: Settings, op: Op, g: ValidGuid)
    requires SchemeGone(s, g) && g != ULTIMATE && g != HIGH
    ensures SchemeGone(RunOp(s, op), g)
  {
    match op
    case DoApply(order, c) =>
      ApplyOnSchemes(s, order, c);
      ApplyKeepsSchemeGone(s, Apply(s, order, c).0, g);
    case DoRecover(c) => RecoverKeepsSchemeGone(s, c, g);
  }

  lemma {:induction false} SchemeGoneForGood(s: Settings, ops: seq<Op>, g: ValidGuid)
    requires SchemeGone(s, g) && g != ULTIMATE && g != HIGH
    ensures SchemeGone(RunOps(s, ops), g)
  {
    if ops != [] {
      SchemeGoneForGood(s, ops[..|ops| - 1], g);
      SchemeStaysGone(RunOps(s, ops[..|ops| - 1]), ops[|ops| - 1], g);
    }
  }

  /** A scheme that is neither active nor one of the two gaming schemes becomes active in some
      run if and only if the record on disk names it. */
  lemma {:induction false} SchemeComesBackIff(s: Settings, g: ValidGuid)
    requires s.scheme != g && g != ULTIMATE && g != HIGH
    ensures (exists ops :: RunOps(s, ops).scheme == g) <==> SchemeHeld(s, g)
  {
    if SchemeHeld(s, g) {
      RunOpsOneMore(s, [], DoRecover(ROLLBACK_OK));
      assert RunOps(s, [] + [DoRecover(ROLLBACK_OK)]).scheme == g;
    } else {
      forall ops ensures RunOps(s, ops).scheme != g {
        SchemeGoneForGood(s, ops, g);
      }
    }
  }

  // ----- endpoints -----

  predicate ValueHeld(s: Settings, id: string, v: nat) {
    s.record.Some? && Saved(s.record.value.audio, id) == Some(Some(v))
  }

  predicate ValueGone(s: Settings, id: string, v: nat) {
    id in s.endpoints && s.endpoints[id].Raw() != Some(v) && !ValueHeld(s, id, v)
  }

  lemma {:induction false} DisablingNeverBringsBack(m: map<string, Fx>, order: seq<string>, c: string -> EndpointCalls,
                                                    id: string, v: nat)
    requires id in m && m[id].Raw() != Some(v) && v != 1
    ensures var (m', backups) := DisableAll(m, order, c);
            id in m' && m'[id].Raw() != Some(v) && Saved(backups, id) != Some(Some(v))
  {
    if order != [] {
      var init, last := order[..|order| - 1], order[|order| - 1];
      DisablingNeverBringsBack(m, init, c, id, v);
      var (m1, b1) := DisableAll(m, init, c);
      var b2 := DisableNext(m1, b1, last, c).1;
      assert |b2| > |b1| ==> b2[..|b2| - 1] == b1;
    }
  }

  lemma ValueStaysGone(s: Settings, op: Op, id: string, v: nat)
    requires ValueGone(s, id, v) && v != 1
    ensures ValueGone(RunOp(s, op), id, v)
  {
    match op
    case DoApply(order, c) =>
      assert order[..|order|] == order;
      DisablingNeverBringsBack(s.endpoints, order, c.endpoint, id, v);
    case DoRecover(c) =>
      if s.record.Some? {
        RestoredEndpoint(s.endpoints, s.record.value.audio, c.endpoint, id);
      }
  }

  lemma {:induction false} ValueGoneForGood(s: Settings, ops: seq<Op>, id: string, v: nat)
    requires ValueGone(s, id, v) && v != 1
    ensures ValueGone(RunOps(s, ops), id, v)
  {
    if ops != [] {
      ValueGoneForGood(s, ops[..|ops| - 1], id, v);
      ValueStaysGone(RunOps(s, ops[..|ops| - 1]), ops[|ops| - 1], id, v);
    }
  }

  /** Apply that only creates the key of each endpoint: every later call of it fails. */
  const KEYS_ONLY: ApplyCalls :=
    ApplyCalls(GameCalls(true, true, true, true), PowerCalls(false, false, false, false),
               (_: string) => EndpointCalls(true, true, false), false, false)

  lemma {:induction false} HeldValueRestored(s: Settings, id: string, v: nat)
    requires id in s.endpoints && ValueHeld(s, id, v)
    ensures var t := RunOp(RunOp(s, DoApply([id], KEYS_ONLY)), DoRecover(ROLLBACK_OK));
            id in t.endpoints && t.endpoints[id].Raw() == Some(v)
  {
    var mid := RunOp(s, DoApply([id], KEYS_ONLY));
    assert [id][..1] == [id];
    DisabledEndpoint(s.endpoints, [id], KEYS_ONLY.endpoint, id);
    assert mid.record == s.record && mid.endpoints[id].FxKey?;
    RestoredEndpoint(mid.endpoints, mid.record.value.audio, ROLLBACK_OK.endpoint, id);
  }

  /** A raw value other than 1 that an endpoint does not hold comes back in some run if and only
      if the record on disk holds it. */
  lemma {:induction false} ValueComesBackIff(s: Settings, id: string, v: nat)
    requires id in s.endpoints && s.endpoints[id].Raw() != Some(v) && v != 1
    ensures (exists ops :: id in RunOps(s, ops).endpoints && RunOps(s, ops).endpoints[id].Raw() == Some(v))
            <==> ValueHeld(s, id, v)
  {
    if ValueHeld(s, id, v) {
      HeldValueRestored(s, id, v);
      var ops := [DoApply([id], KEYS_ONLY), DoRecover(ROLLBACK_OK)];
      RunTwoOps(s, ops[0], ops[1]);
      assert id in RunOps(s, ops).endpoints && RunOps(s, ops).endpoints[id].Raw() == Some(v);
    } else {
      forall ops ensures id in RunOps(s, ops).endpoints && RunOps(s, ops).endpoints[id].Raw() != Some(v) {
        ValueGoneForGood(s, ops, id, v);
      }
    }
  }

  // ----- the baseline as a whole -----

  /** Some part of the baseline is neither in force nor on record, and is nothing that apply
      itself writes. */
  ghost predicate Gone(s: Settings, base: Settings) {
    || (!base.gameBar.Observed() && ModeGone(s))
    || (base.scheme != ULTIMATE && base.scheme != HIGH && SchemeGone(s, base.scheme))
    || exists id, v :: id in base.endpoints && base.endpoints[id].Raw() == Some(v) && v != 1 && ValueGone(s, id, v)
  }

  /** What is gone never comes back, in no run of applies and recoveries, whatever calls fail. */
  lemma {:induction false} GoneForGood(s: Settings, base: Settings, ops: seq<Op>)
    requires Gone(s, base)
    ensures Gone(RunOps(s, ops), base) && !SameObservables(RunOps(s, ops), base)
  {
    if !base.gameBar.Observed() && ModeGone(s) {
      ModeGoneForGood(s, ops);
    } else if base.scheme != ULTIMATE && base.scheme != HIGH && SchemeGone(s, base.scheme) {
      SchemeGoneForGood(s, ops, base.scheme);
    } else {
      var id, v :| id in base.endpoints && base.endpoints[id].Raw() == Some(v) && v != 1 && ValueGone(s, id, v);
      ValueGoneForGood(s, ops, id, v);
    }
  }

  /** The record of the first apply is overwritten by a second one, or deleted by one that fails:
      a Game Mode that was off, and that the first apply switched on, is gone. */
  lemma SecondApplyLosesMode(s: Settings, order: seq<string>, c1: ApplyCalls, c2: ApplyCalls)
    requires !s.gameBar.Observed() && c1.game.createOk && c1.game.writeAllowOk
    requires if GameModeFails(c2.game) then c2.removeOk else c2.recordOk
    ensures Gone(Apply(Apply(s, order, c1).0, order, c2).0, s)
  {
  }
}
