/** The snapshot directory as a machine whose every step is one file call. A call may succeed,
    fail, or be cut short by a crash; an interrupted write may leave anything in its file. */
module SnapshotStore {
  import opened Options
  import opened SnapshotSigning

  const HEADER: Bytes :=
    [0x56, 0x41, 0x4c, 0x4f, 0x50, 0x54, 0x5f, 0x4b, 0x45, 0x59, 0x5f, 0x56, 0x31, 0x00, 0x00, 0x00]

  const ZEROS: Bytes := seq(128, _ => 0)

  /** The secret in a key file, if the file unprotects to a well-formed key. */
  function KeyOf(f: Foreign, file: Bytes): Option<Bytes> {
    var plain := f.unprotect(file);
    if plain.None? || |plain.value| < 48 || plain.value[..16] != HEADER then None
    else Some(plain.value[16..48])
  }

  function KeyFile(f: Foreign, secret: Bytes, stamp: Bytes): Bytes {
    f.protect(HEADER + secret + stamp)
  }

  lemma KeyFileHoldsSecret(f: Foreign, secret: Bytes, stamp: Bytes)
    requires f.Lawful() && |secret| == 32
    ensures KeyOf(f, KeyFile(f, secret, stamp)) == Some(secret)
  {
    var plain := HEADER + secret + stamp;
    assert plain[..16] == HEADER && plain[16..48] == secret;
  }

  /** The directory: the snapshot, the key beside it and the temporary file being written. */
  datatype Directory = Directory(target: Option<Bytes>, key: Option<Bytes>, temp: Option<Bytes>)

  /** The call that comes next. */
  datatype Next =
    | Idle
    | WriteKey(secret: Bytes, stamp: Bytes, body: Body)
    | WriteTemp(secret: Bytes, body: Body)
    | Move(signed: Snapshot)
    | RemoveOld(signed: Snapshot)
    | Rename(signed: Snapshot)
    | RemoveTemp
    | RemoveTarget
    | ZeroKey
    | RemoveKey

  /** `saved` remembers every body that a save was asked to store. */
  datatype State = State(dir: Directory, next: Next, saved: set<Body>)

  const EMPTY: State := State(Directory(None, None, None), Idle, {})

  datatype LoadResult =
    | Loaded(snapshot: Snapshot)
    | NotFound
    | KeyUnavailable
    | Malformed
    | IntegrityViolation

  function Load(f: Foreign, d: Directory): LoadResult {
    if d.target.None? then NotFound
    else if d.key.None? then KeyUnavailable
    else
      var key := KeyOf(f, d.key.value);
      if key.None? then KeyUnavailable
      else
        var snapshot := f.parse(d.target.value);
        if snapshot.None? then Malformed
        else if !VerifyHmac(f, snapshot.value, key.value) then IntegrityViolation
        else if !VerifyHash(f, snapshot.value) then IntegrityViolation
        else Loaded(snapshot.value)
  }

  /** The directory holds a snapshot that its own key vouches for: the key file opens to a
      well-formed secret, and both signature fields of the parsed target are those of its body
      alone, the digest up to letter case. */
  ghost predicate Authentic(f: Foreign, d: Directory, s: Snapshot) {
    && d.target.Some? && f.parse(d.target.value) == Some(s)
    && d.key.Some? && f.unprotect(d.key.value).Some?
    && var plain := f.unprotect(d.key.value).value;
       && |plain| >= 48 && plain[..16] == HEADER
       && var payload := f.compact(Snapshot(s.body, [], []));
          && s.hmacSignature != [] && s.hmacSignature == HexText(Hmac(f, plain[16..48], payload))
          && LowerText(s.shaHash) == LowerText(HexText(f.sha(payload)))
  }

  /** For every directory, whatever it holds: loading returns exactly the authentic snapshot. */
  lemma LoadedIff(f: Foreign, d: Directory, s: Snapshot)
    ensures Load(f, d) == Loaded(s) <==> Authentic(f, d, s)
  {
    assert Canonical(s) == Snapshot(s.body, [], []);
  }

  predicate KeyUsable(f: Foreign, d: Directory) {
    d.key.Some? && f.unprotect(d.key.value).Some? &&
    var plain := f.unprotect(d.key.value).value; |plain| >= 48 && plain[..16] == HEADER
  }

  /** And everything else is refused, each way for its own reason. */
  lemma RefusedIff(f: Foreign, d: Directory)
    ensures var r, there, usable := Load(f, d), d.target.Some?, KeyUsable(f, d);
            && (r == NotFound <==> !there)
            && (r == KeyUnavailable <==> there && !usable)
            && (r == Malformed <==> there && usable && f.parse(d.target.value).None?)
            && (r == IntegrityViolation <==>
                  there && usable && f.parse(d.target.value).Some? && !Authentic(f, d, f.parse(d.target.value).value))
  {
    if d.target.Some? && f.parse(d.target.value).Some? {
      LoadedIff(f, d, f.parse(d.target.value).value);
    }
  }

  /** In particular a snapshot with no code, or with one made with another secret or over another
      body, is refused, however right its digest is. */
  lemma ForgedIsRefused(f: Foreign, d: Directory, s: Snapshot)
    requires d.target.Some? && KeyUsable(f, d) && f.parse(d.target.value) == Some(s)
    requires var secret := f.unprotect(d.key.value).value[16..48];
             s.hmacSignature == [] || s.hmacSignature != HexText(Hmac(f, secret, f.compact(Snapshot(s.body, [], []))))
    ensures Load(f, d) == IntegrityViolation
  {
    RefusedIff(f, d);
  }

  /** What an unfinished write left behind. */
  datatype Residue = Untouched | Left(content: Bytes)

  function After(file: Option<Bytes>, r: Residue): Option<Bytes> {
    if r.Untouched? then file else Some(r.content)
  }

  datatype Event =
    | BeginSave(body: Body, secret: Bytes, stamp: Bytes)
    | BeginDelete
    | BeginRecover
    | Succeed
    | Fail(residue: Residue)
    | Crash(residue: Residue)

  /** The start of an operation; save refuses when there is a key file it cannot use, and
      recovery deletes only after the snapshot loaded. */
  function Begin(f: Foreign, st: State, e: Event): State {
    var d := st.dir;
    match e
    case BeginSave(body, secret, stamp) =>
      if |secret| != 32 then st
      else
        var noted := st.(saved := st.saved + {body});
        if d.key.None? then noted.(next := WriteKey(secret, stamp, body))
        else
          var key := KeyOf(f, d.key.value);
          if key.None? then noted else noted.(next := WriteTemp(key.value, body))
    case BeginDelete => st.(next := if d.target.Some? then RemoveTarget else AfterTarget(d))
    case BeginRecover => if Load(f, d).Loaded? then st.(next := RemoveTarget) else st
    case Succeed => st
    case Fail(_) => st
    case Crash(_) => st
  }

  function AfterTarget(d: Directory): Next {
    if d.key.Some? then ZeroKey else Idle
  }

  /** The next call succeeds. */
  function Advance(f: Foreign, d: Directory, n: Next): (Directory, Next) {
    match n
    case Idle => (d, Idle)
    case WriteKey(secret, stamp, body) =>
      (d.(key := Some(KeyFile(f, secret, stamp))), WriteTemp(secret, body))
    case WriteTemp(secret, body) =>
      var signed := Sign(f, Snapshot(body, [], []), secret);
      (d.(temp := Some(f.pretty(signed))), Move(signed))
    case Move(signed) => (d.(target := d.temp, temp := None), Idle)
    case RemoveOld(signed) => (d.(target := None), Rename(signed))
    case Rename(signed) => (d.(target := d.temp, temp := None), Idle)
    case RemoveTemp => (d.(temp := None), Idle)
    case RemoveTarget => (d.(target := None), AfterTarget(d))
    case ZeroKey => (d.(key := Some(ZEROS)), RemoveKey)
    case RemoveKey => (d.(key := None), Idle)
  }

  /** The file that the next call writes holds the residue of an unfinished write. */
  function Spoil(d: Directory, n: Next, r: Residue): Directory {
    match n
    case WriteKey(_, _, _) => d.(key := After(d.key, r))
    case ZeroKey => d.(key := After(d.key, r))
    case WriteTemp(_, _) => d.(temp := After(d.temp, r))
    case _ => d
  }

  /** Where a failed call leads. A failed move falls back to remove and rename; the removal of
      the old target, the zeroing of the key and the two last removals may fail unnoticed. */
  function OnFailure(n: Next): Next {
    match n
    case Move(signed) => RemoveOld(signed)
    case RemoveOld(signed) => Rename(signed)
    case Rename(signed) => RemoveTemp
    case ZeroKey => RemoveKey
    case _ => Idle
  }

  function Step(f: Foreign, st: State, e: Event): State {
    if st.next.Idle? then Begin(f, st, e)
    else
      match e
      case Succeed =>
        var (d, n) := Advance(f, st.dir, st.next);
        State(d, n, st.saved)
      case Fail(r) => State(Spoil(st.dir, st.next, r), OnFailure(st.next), st.saved)
      case Crash(r) => State(Spoil(st.dir, st.next, r), Idle, st.saved)
      case _ => st
  }

  function Run(f: Foreign, st: State, events: seq<Event>): State {
    if events == [] then st
    else Step(f, Run(f, st, events[..|events| - 1]), events[|events| - 1])
  }

  // ----- the invariant -----

  /** The file is a snapshot of a body that some save was asked for, signed with `key`. */
  ghost predicate HoldsSigned(f: Foreign, file: Option<Bytes>, key: Bytes, saved: set<Body>) {
    exists body :: body in saved && file == Some(f.pretty(Sign(f, Snapshot(body, [], []), key)))
  }

  ghost predicate KeyIs(f: Foreign, d: Directory, secret: Bytes) {
    d.key.Some? && KeyOf(f, d.key.value) == Some(secret)
  }

  /** A present snapshot has a usable key beside it and is signed with it. */
  ghost predicate DirectoryOk(f: Foreign, d: Directory, saved: set<Body>) {
    d.target.Some? ==>
      exists secret :: KeyIs(f, d, secret) && HoldsSigned(f, d.target, secret, saved)
  }

  /** What the operation under way has established. */
  ghost predicate NextOk(f: Foreign, st: State) {
    var d := st.dir;
    match st.next
    case WriteKey(secret, _, body) => d.key.None? && d.target.None? && |secret| == 32 && body in st.saved
    case WriteTemp(secret, body) => KeyIs(f, d, secret) && body in st.saved
    case Move(signed) => TempReady(f, st, signed)
    case RemoveOld(signed) => TempReady(f, st, signed)
    case Rename(signed) => TempReady(f, st, signed)
    case ZeroKey => d.target.None?
    case RemoveKey => d.target.None?
    case _ => true
  }

  ghost predicate TempReady(f: Foreign, st: State, signed: Snapshot) {
    st.dir.temp == Some(f.pretty(signed)) &&
    exists secret :: KeyIs(f, st.dir, secret) && HoldsSigned(f, st.dir.temp, secret, st.saved)
  }

  ghost predicate Inv(f: Foreign, st: State) {
    DirectoryOk(f, st.dir, st.saved) && NextOk(f, st)
  }

  lemma BeginKeepsInv(f: Foreign, st: State, e: Event)
    requires f.Lawful() && Inv(f, st) && st.next.Idle?
    ensures Inv(f, Begin(f, st, e))
  {
    var st' := Begin(f, st, e);
    if st.dir.target.Some? {
      var secret :| KeyIs(f, st.dir, secret) && HoldsSigned(f, st.dir.target, secret, st.saved);
      assert HoldsSigned(f, st'.dir.target, secret, st'.saved);
    }
  }

  lemma AdvanceKeepsInv(f: Foreign, st: State)
    requires f.Lawful() && Inv(f, st)
    ensures var (d, n) := Advance(f, st.dir, st.next); Inv(f, State(d, n, st.saved))
  {
    var (d, n) := Advance(f, st.dir, st.next);
    match st.next
    case WriteKey(secret, stamp, body) => KeyFileHoldsSecret(f, secret, stamp);
    case WriteTemp(secret, body) =>
      assert HoldsSigned(f, d.temp, secret, st.saved);
      assert KeyIs(f, d, secret);
      KeepsDirectory(f, st.dir, d, st.saved);
    case Move(signed) =>
      var secret :| KeyIs(f, st.dir, secret) && HoldsSigned(f, st.dir.temp, secret, st.saved);
      assert KeyIs(f, d, secret);
    case Rename(signed) =>
      var secret :| KeyIs(f, st.dir, secret) && HoldsSigned(f, st.dir.temp, secret, st.saved);
      assert KeyIs(f, d, secret);
    case RemoveOld(signed) => KeepsTemp(f, st, State(d, n, st.saved), signed);
    case _ => KeepsDirectory(f, st.dir, d, st.saved);
  }

  lemma KeepsDirectory(f: Foreign, d: Directory, d': Directory, saved: set<Body>)
    requires DirectoryOk(f, d, saved)
    requires d'.target.None? || (d'.target == d.target && d'.key == d.key)
    ensures DirectoryOk(f, d', saved)
  {
    if d'.target.Some? {
      var secret :| KeyIs(f, d, secret) && HoldsSigned(f, d.target, secret, saved);
      assert KeyIs(f, d', secret);
    }
  }

  lemma KeepsTemp(f: Foreign, st: State, st': State, signed: Snapshot)
    requires TempReady(f, st, signed)
    requires st'.dir.temp == st.dir.temp && st'.dir.key == st.dir.key && st'.saved == st.saved
    ensures TempReady(f, st', signed)
  {
    var secret :| KeyIs(f, st.dir, secret) && HoldsSigned(f, st.dir.temp, secret, st.saved);
    assert KeyIs(f, st'.dir, secret);
  }

  lemma InterruptKeepsInv(f: Foreign, st: State, r: Residue, n: Next)
    requires Inv(f, st) && (n.Idle? || n == OnFailure(st.next)) && !st.next.Idle?
    ensures Inv(f, State(Spoil(st.dir, st.next, r), n, st.saved))
  {
    var st' := State(Spoil(st.dir, st.next, r), n, st.saved);
    KeepsDirectory(f, st.dir, st'.dir, st.saved);
    if n.RemoveOld? || n.Rename? {
      KeepsTemp(f, st, st', n.signed);
    }
  }

  lemma StepKeepsInv(f: Foreign, st: State, e: Event)
    requires f.Lawful() && Inv(f, st)
    ensures Inv(f, Step(f, st, e))
  {
    if st.next.Idle? {
      BeginKeepsInv(f, st, e);
    } else {
      match e
      case Succeed => AdvanceKeepsInv(f, st);
      case Fail(r) => InterruptKeepsInv(f, st, r, OnFailure(st.next));
      case Crash(r) => InterruptKeepsInv(f, st, r, Idle);
      case _ =>
    }
  }

  /** Every run from the empty directory keeps the invariant. */
  lemma {:induction false} RunKeepsInv(f: Foreign, events: seq<Event>)
    requires f.Lawful()
    ensures Inv(f, Run(f, EMPTY, events))
  {
    if events != [] {
      var init := events[..|events| - 1];
      RunKeepsInv(f, init);
      StepKeepsInv(f, Run(f, EMPTY, init), events[|events| - 1]);
    }
  }

  // ----- what the invariant buys -----

  /** Whatever was saved, crashed, failed or deleted, in any order: a snapshot that is there
      loads and verifies, and its body is one that a save was asked to store. */
  lemma {:induction false} PresentSnapshotLoads(f: Foreign, events: seq<Event>)
    requires f.Lawful()
    ensures var st := Run(f, EMPTY, events);
            && (Load(f, st.dir) == NotFound <==> st.dir.target.None?)
            && (st.dir.target.Some? ==>
                  Load(f, st.dir).Loaded? && Load(f, st.dir).snapshot.body in st.saved)
  {
    RunKeepsInv(f, events);
    var st := Run(f, EMPTY, events);
    if st.dir.target.Some? {
      var secret :| KeyIs(f, st.dir, secret) && HoldsSigned(f, st.dir.target, secret, st.saved);
      var body :| body in st.saved && st.dir.target == Some(f.pretty(Sign(f, Snapshot(body, [], []), secret)));
      SignedVerifies(f, Snapshot(body, [], []), secret);
    }
  }

  /** The target changes only by disappearing or by becoming the whole new snapshot. */
  lemma {:induction false} TargetIsOldNewOrAbsent(f: Foreign, events: seq<Event>, e: Event)
    requires f.Lawful()
    ensures var st := Run(f, EMPTY, events);
            var st' := Step(f, st, e);
            || st'.dir.target == st.dir.target
            || st'.dir.target.None?
            || ((st.next.Move? || st.next.Rename?) && st'.dir.target == Some(f.pretty(st.next.signed)))
  {
    RunKeepsInv(f, events);
  }

  /** A save without failures: it stores the body whenever the directory has no key file or a
      usable one, and is refused otherwise. */
  lemma {:induction false} SaveSucceedsIff(f: Foreign, d: Directory, saved: set<Body>, body: Body, secret: Bytes,
                                           stamp: Bytes)
    requires f.Lawful() && |secret| == 32
    ensures var st := State(d, Idle, saved);
            var st' := Run(f, st, [BeginSave(body, secret, stamp), Succeed, Succeed, Succeed]);
            var usable := d.key.None? || KeyOf(f, d.key.value).Some?;
            var key := if d.key.None? then secret else KeyOf(f, d.key.value).GetOr(secret);
            && (usable ==>
                  && st'.next.Idle? && st'.dir.temp.None?
                  && Load(f, st'.dir) == Loaded(Sign(f, Snapshot(body, [], []), key)))
            && (!usable ==> st'.next.Idle? && st'.dir == d)
  {
    var st := State(d, Idle, saved);
    var e := [BeginSave(body, secret, stamp), Succeed, Succeed, Succeed];
    Unroll4(f, st, e);
    var st1 := Step(f, st, e[0]);
    var st2 := Step(f, st1, Succeed);
    var st3 := Step(f, st2, Succeed);
    KeyFileHoldsSecret(f, secret, stamp);
    if d.key.None? {
      SignedVerifies(f, Snapshot(body, [], []), secret);
    } else if KeyOf(f, d.key.value).Some? {
      SignedVerifies(f, Snapshot(body, [], []), KeyOf(f, d.key.value).value);
    }
  }

  lemma {:induction false} Unroll4(f: Foreign, st: State, e: seq<Event>)
    requires |e| == 4
    ensures Run(f, st, e) == Step(f, Step(f, Step(f, Step(f, st, e[0]), e[1]), e[2]), e[3])
  {
    assert e[..3][..2] == e[..2] && e[..2][..1] == e[..1] && e[..1][..0] == [];
    assert e[..3][2] == e[2] && e[..2][1] == e[1] && e[..1][0] == e[0];
    assert Run(f, st, e[..1]) == Step(f, st, e[0]);
    assert Run(f, st, e[..2]) == Step(f, Run(f, st, e[..1]), e[1]);
    assert Run(f, st, e[..3]) == Step(f, Run(f, st, e[..2]), e[2]);
  }

  /** A save whose move fails falls back to removing the old snapshot and renaming, and succeeds all
      the same; if the renaming fails too, the temporary file is removed and there is no new
      snapshot, nor the old one if its removal succeeded. */
  lemma FallbackSaves(f: Foreign, d: Directory, saved: set<Body>, signed: Snapshot, removal: Event)
    requires d.temp == Some(f.pretty(signed)) && (removal.Succeed? || removal.Fail?)
    ensures var mid := Step(f, Step(f, State(d, Move(signed), saved), Fail(Untouched)), removal);
            && Step(f, mid, Succeed) == State(d.(target := d.temp, temp := None), Idle, saved)
            && Step(f, Step(f, mid, Fail(Untouched)), Succeed) ==
               State(d.(target := if removal.Succeed? then None else d.target, temp := None), Idle, saved)
  {
  }

  /** A delete whose zeroing fails still removes the key. */
  lemma UnzeroedKeyIsRemoved(f: Foreign, d: Directory, saved: set<Body>, r: Residue)
    requires d.target.None?
    ensures var st := Step(f, Step(f, State(d, ZeroKey, saved), Fail(r)), Succeed);
            st.next.Idle? && st.dir.key.None?
  {
  }

  /** A write that is cut short, by a failure or a crash, leaves whatever it had written, and any
      other call that is cut short leaves the directory alone. After a crash nothing is under way. */
  lemma TornWrites(f: Foreign, d: Directory, saved: set<Body>, n: Next, content: Bytes)
    requires !n.Idle?
    ensures var failed := Step(f, State(d, n, saved), Fail(Left(content)));
            var crashed := Step(f, State(d, n, saved), Crash(Left(content)));
            && crashed.next.Idle? && failed.dir == crashed.dir
            && failed.dir == if n.WriteTemp? then d.(temp := Some(content))
                             else if n.WriteKey? || n.ZeroKey? then d.(key := Some(content)) else d
  {
  }

  /** A delete or a recovery is under way, or nothing, and a key that is to be zeroed is there. */
  predicate OnlyRemoves(st: State) {
    st.next.Idle? || st.next.RemoveTarget? || st.next.RemoveKey? || (st.next.ZeroKey? && st.dir.key.Some?)
  }

  /** Deletes and recoveries only take away: over any run without a save, whatever fails or
      crashes, no file appears, the snapshot stays as it is until it goes, and a temporary file
      that a save left behind is not touched. */
  lemma {:induction false} NothingAppears(f: Foreign, st: State, events: seq<Event>)
    requires OnlyRemoves(st) && forall k :: 0 <= k < |events| ==> !events[k].BeginSave?
    ensures var st' := Run(f, st, events);
            && OnlyRemoves(st') && st'.dir.temp == st.dir.temp
            && (st'.dir.target.None? || st'.dir.target == st.dir.target)
            && (st.dir.key.None? ==> st'.dir.key.None?)
  {
    if events != [] {
      var init := events[..|events| - 1];
      forall k | 0 <= k < |init| ensures !init[k].BeginSave? {
        assert init[k] == events[k];
      }
      NothingAppears(f, st, init);
      RemovesOnly(f, Run(f, st, init), events[|events| - 1]);
    }
  }

  lemma RemovesOnly(f: Foreign, st: State, e: Event)
    requires OnlyRemoves(st) && !e.BeginSave?
    ensures var st' := Step(f, st, e);
            && OnlyRemoves(st') && st'.dir.temp == st.dir.temp
            && (st'.dir.target.None? || st'.dir.target == st.dir.target)
            && (st.dir.key.None? ==> st'.dir.key.None?)
  {
  }

  /** A delete without failures leaves neither snapshot nor key, whatever was there. */
  lemma {:induction false} DeleteClears(f: Foreign, d: Directory, saved: set<Body>)
    ensures var st := Run(f, State(d, Idle, saved), [BeginDelete, Succeed, Succeed, Succeed]);
            st.next.Idle? && st.dir.target.None? && st.dir.key.None?
  {
    Unroll4(f, State(d, Idle, saved), [BeginDelete, Succeed, Succeed, Succeed]);
  }

  lemma {:induction false} RunAppend(f: Foreign, st: State, a: seq<Event>, b: seq<Event>)
    ensures Run(f, st, a + b) == Run(f, Run(f, st, a), b)
  {
    if b == [] {
      assert a + b == a;
    } else {
      RunAppend(f, st, a, b[..|b| - 1]);
      assert (a + b)[..|a + b| - 1] == a + b[..|b| - 1];
    }
  }

  /** A key file that cannot be used, no snapshot, and nothing under way. */
  ghost predicate JunkKey(f: Foreign, st: State) {
    st.next.Idle? && st.dir.target.None? && st.dir.key.Some? && KeyOf(f, st.dir.key.value).None?
  }

  lemma JunkKeyStep(f: Foreign, st: State, e: Event)
    requires JunkKey(f, st) && !e.BeginDelete?
    ensures Step(f, st, e).dir == st.dir && Step(f, st, e).next.Idle?
  {
  }

  /** With a junk key every save is refused and every recovery finds nothing, over any run until
      a delete begins. */
  lemma {:induction false} JunkKeyStays(f: Foreign, st: State, events: seq<Event>)
    requires JunkKey(f, st) && forall k :: 0 <= k < |events| ==> !events[k].BeginDelete?
    ensures Run(f, st, events).dir == st.dir && JunkKey(f, Run(f, st, events))
  {
    if events != [] {
      var init := events[..|events| - 1];
      forall k | 0 <= k < |init| ensures !init[k].BeginDelete? {
        assert init[k] == events[k];
      }
      JunkKeyStays(f, st, init);
      JunkKeyStep(f, Run(f, st, init), events[|events| - 1]);
    }
  }

  /** A crash between zeroing and removing the key leaves a junk key and no snapshot. From there
      nothing that a run without delete does changes the directory, and a delete clears it. */
  lemma {:induction false} JunkKeyBlocksSaves(f: Foreign, st: State, events: seq<Event>)
    requires f.Lawful() && KeyOf(f, ZEROS).None?
    requires st.next == ZeroKey && st.dir.target.None?
    requires forall k :: 0 <= k < |events| ==> !events[k].BeginDelete?
    ensures var stuck := Step(f, Step(f, st, Succeed), Crash(Untouched));
            var later := Run(f, stuck, events);
            && stuck.dir == st.dir.(key := Some(ZEROS)) && later.dir == stuck.dir && later.next.Idle?
            && Run(f, later, [BeginDelete, Succeed, Succeed, Succeed]).dir == st.dir.(key := None)
  {
    var stuck := Step(f, Step(f, st, Succeed), Crash(Untouched));
    JunkKeyStays(f, stuck, events);
    Unroll4(f, Run(f, stuck, events), [BeginDelete, Succeed, Succeed, Succeed]);
  }

  /** Such a state is reachable: save, delete, and a crash after the key was zeroed. */
  lemma {:induction false} JunkKeyReachable(f: Foreign, body: Body, secret: Bytes, stamp: Bytes)
    requires f.Lawful() && |secret| == 32
    ensures var save := [BeginSave(body, secret, stamp), Succeed, Succeed, Succeed];
            var st := Run(f, EMPTY, save + [BeginDelete, Succeed, Succeed, Crash(Untouched)]);
            st.next.Idle? && st.dir.target.None? && st.dir.key == Some(ZEROS)
  {
    var save := [BeginSave(body, secret, stamp), Succeed, Succeed, Succeed];
    var half := [BeginDelete, Succeed, Succeed, Crash(Untouched)];
    RunAppend(f, EMPTY, save, half);
    Unroll4(f, EMPTY, save);
    Unroll4(f, Run(f, EMPTY, save), half);
  }
}
