/** The settings that the optimizer changes, the failures that a call can meet, and each
    operation as a function from the settings before to the settings after. */
module OptimizationModel {
  import opened Options
  import opened Guids

  /** HKCU\Software\Microsoft\GameBar: the key and its two values. */
  datatype GameBar = NoGameBar | GameBar(allow: Option<nat>, enabled: Option<nat>) {
    function Allow(): Option<nat> { if NoGameBar? then None else allow }
    function Enabled(): Option<nat> { if NoGameBar? then None else enabled }
    /** What the Game Mode query reports: on unless explicitly zero. */
    predicate Observed() { Allow().Some? ==> Allow().value != 0 }
  }

  /** An endpoint's FxProperties key and the raw disable-SysFx value in it. */
  datatype Fx = NoFxKey | FxKey(value: Option<nat>) {
    function Raw(): Option<nat> { if NoFxKey? then None else value }
  }

  datatype Backup = Backup(endpoint: string, original: Option<nat>)

  datatype Transaction = Transaction(
    gameMode: Option<bool>, powerScheme: Option<string>, audio: seq<Backup>, isApplied: bool)

  const EMPTY: Transaction := Transaction(None, None, [], false)

  datatype Settings = Settings(
    gameBar: GameBar, scheme: ValidGuid, endpoints: map<string, Fx>, record: Option<Transaction>)

  const ULTIMATE: ValidGuid := Guid(0xe9a42b02, 0xd5df, 0x448d, [0xaa, 0x00, 0x03, 0xf1, 0x47, 0x49, 0xeb, 0x61])
  const HIGH: ValidGuid := Guid(0x8c5e7fda, 0xe8bf, 0x4a96, [0x9a, 0x85, 0xa6, 0xe2, 0x3a, 0x8c, 0x63, 0x5c])

  // ----- which calls succeed -----

  datatype GameCalls = GameCalls(readOk: bool, createOk: bool, writeAllowOk: bool, writeEnabledOk: bool)
  datatype PowerCalls = PowerCalls(readOk: bool, laptop: bool, ultimateOk: bool, highOk: bool)
  datatype EndpointCalls = EndpointCalls(openOk: bool, queryOk: bool, writeOk: bool)
  datatype RestoreCalls = RestoreCalls(openOk: bool, writeOk: bool)

  datatype ApplyCalls = ApplyCalls(
    game: GameCalls, power: PowerCalls, endpoint: string -> EndpointCalls, recordOk: bool, removeOk: bool)

  datatype RollbackCalls = RollbackCalls(
    game: GameCalls, powerOk: bool, endpoint: string -> RestoreCalls, removeOk: bool)

  // ----- game mode -----

  function SetGameMode(bar: GameBar, enable: bool, c: GameCalls): (GameBar, Option<bool>) {
    var previous := if c.readOk then bar.Observed() else true;
    if !c.createOk then (bar, None)
    else
      var val := if enable then 1 else 0;
      var bar' := GameBar(if c.writeAllowOk then Some(val) else bar.Allow(),
                          if c.writeEnabledOk then Some(val) else bar.Enabled());
      (bar', if !c.writeAllowOk && !c.writeEnabledOk then None else Some(previous))
  }

  // ----- power scheme -----

  function ApplyPower(scheme: ValidGuid, c: PowerCalls): (ValidGuid, Option<ValidGuid>) {
    if !c.readOk then (scheme, None)
    else if c.laptop then (scheme, Some(scheme))
    else if c.ultimateOk then (ULTIMATE, Some(scheme))
    else if c.highOk then (HIGH, Some(scheme))
    else (scheme, None)
  }

  function RestorePower(scheme: ValidGuid, saved: Option<string>, ok: bool): ValidGuid {
    if saved.Some? && Parse(saved.value).Some? && ok then Parse(saved.value).value else scheme
  }

  // ----- audio endpoints -----

  function DisableOne(fx: Fx, c: EndpointCalls): (Fx, Option<Option<nat>>) {
    if !c.openOk then (fx, None)
    else
      var original := if c.queryOk then fx.Raw() else None;
      if c.writeOk then (FxKey(Some(1)), Some(original)) else (FxKey(fx.Raw()), None)
  }

  function RestoreOne(fx: Fx, original: Option<nat>, c: RestoreCalls): Fx {
    if !c.openOk || fx.NoFxKey? || !c.writeOk then fx else FxKey(original)
  }

  /** Endpoints in `order`, one after the other. */
  function DisableAll(endpoints: map<string, Fx>, order: seq<string>, c: string -> EndpointCalls)
    : (map<string, Fx>, seq<Backup>)
  {
    if order == [] then (endpoints, [])
    else
      var (m, backups) := DisableAll(endpoints, order[..|order| - 1], c);
      DisableNext(m, backups, order[|order| - 1], c)
  }

  function DisableNext(m: map<string, Fx>, backups: seq<Backup>, id: string, c: string -> EndpointCalls)
    : (map<string, Fx>, seq<Backup>)
  {
    if id !in m then (m, backups)
    else
      var (fx, saved) := DisableOne(m[id], c(id));
      (m[id := fx], if saved.Some? then backups + [Backup(id, saved.value)] else backups)
  }

  function RestoreAll(m: map<string, Fx>, backups: seq<Backup>, c: string -> RestoreCalls): map<string, Fx> {
    if backups == [] then m
    else
      RestoreNext(RestoreAll(m, backups[..|backups| - 1], c), backups[|backups| - 1], c)
  }

  function RestoreNext(m: map<string, Fx>, b: Backup, c: string -> RestoreCalls): map<string, Fx> {
    if b.endpoint !in m then m
    else m[b.endpoint := RestoreOne(m[b.endpoint], b.original, c(b.endpoint))]
  }

  // ----- the transaction -----

  function Rollback(s: Settings, tx: Transaction, c: RollbackCalls): Settings {
    Settings(
      if tx.gameMode.Some? then SetGameMode(s.gameBar, tx.gameMode.value, c.game).0 else s.gameBar,
      RestorePower(s.scheme, tx.powerScheme, c.powerOk),
      RestoreAll(s.endpoints, tx.audio, c.endpoint),
      if c.removeOk then None else s.record)
  }

  /** How far apply has got: after Game Mode, after the power scheme, or inside the audio
      loop with the first `k` endpoints of the enumeration done. */
  datatype Progress = AfterGameMode | AfterPower | InAudio(k: nat)

  /** The settings at a point of apply and what it has remembered by then, the backups that the
      endpoint loop has gathered so far included; None if Game Mode failed. */
  function At(s: Settings, order: seq<string>, c: ApplyCalls, p: Progress): (Settings, Option<Transaction>)
    requires p.InAudio? ==> p.k <= |order|
  {
    var (bar, mode) := SetGameMode(s.gameBar, true, c.game);
    var s1 := s.(gameBar := bar);
    if mode.None? then (s1, None)
    else if p.AfterGameMode? then (s1, Some(EMPTY.(gameMode := mode)))
    else
      var (scheme, previous) := ApplyPower(s.scheme, c.power);
      var saved := if previous.Some? then Some(Print(previous.value)) else None;
      var s2 := s1.(scheme := scheme);
      var tx2 := EMPTY.(gameMode := mode, powerScheme := saved);
      if p.AfterPower? then (s2, Some(tx2))
      else
        var (endpoints, backups) := DisableAll(s.endpoints, order[..p.k], c.endpoint);
        (s2.(endpoints := endpoints), Some(tx2.(audio := backups)))
  }

  function Apply(s: Settings, order: seq<string>, c: ApplyCalls): (Settings, Option<Transaction>) {
    var (t, tx) := At(s, order, c, InAudio(|order|));
    if tx.None? then (t.(record := if c.removeOk then None else t.record), None)
    else
      var done := tx.value.(isApplied := true);
      (t.(record := if c.recordOk then Some(done) else t.record), Some(done))
  }

  function Recover(s: Settings, c: RollbackCalls): (Settings, bool) {
    if s.record.None? then (s, false) else (Rollback(s, s.record.value, c), true)
  }
}
