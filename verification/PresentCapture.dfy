/** Frame times from presentation events: the event callback and its in-memory collector. */
module PresentCapture {
  import opened Options

  datatype Provider = Dxgi | D3d9 | OtherProvider

  datatype Event = Event(provider: Provider, id: nat, pid: nat, timestamp: int)

  const DXGI_PRESENT_START: nat := 42
  const D3D9_PRESENT_START: nat := 1

  predicate Matches(target: Option<nat>, e: Event) {
    && (target.Some? ==> e.pid == target.value)
    && ((e.provider.Dxgi? && e.id == DXGI_PRESENT_START) || (e.provider.D3d9? && e.id == D3D9_PRESENT_START))
  }

  datatype Frame = Frame(index: nat, timestampUs: nat, frameTimeMs: real)

  function FrameTime(ticks: int, frequency: nat): real
    requires frequency > 0
  {
    (ticks as real * 1000.0) / frequency as real
  }

  /** A performance counter: the milliseconds of an interval in ticks, the microsecond stamp of
      a time in ticks. */
  datatype Clock = Clock(ms: int -> real, us: int -> nat)

  function Qpc(frequency: nat): Clock
    requires frequency > 0
  {
    Clock(t => FrameTime(t, frequency), t => if t < 0 then 0 else t * 1000000 / frequency)
  }

  ghost predicate Adds(clock: Clock, a: int, b: int) {
    clock.ms(a + b) == clock.ms(a) + clock.ms(b)
  }

  ghost predicate Additive(clock: Clock) {
    clock.ms(0) == 0.0 && forall a, b :: Adds(clock, a, b)
  }

  lemma QpcAdditive(frequency: nat)
    requires frequency > 0
    ensures Additive(Qpc(frequency))
  {
    var clock := Qpc(frequency);
    forall a, b ensures Adds(clock, a, b) {
      FrameTimeAdds(a, b, frequency);
    }
  }

  lemma FrameTimeAdds(a: int, b: int, frequency: nat)
    requires frequency > 0
    ensures FrameTime(a + b, frequency) == FrameTime(a, frequency) + FrameTime(b, frequency)
  {
    var f := frequency as real;
    assert ((a + b) as real * 1000.0) / f == (a as real * 1000.0) / f + (b as real * 1000.0) / f;
  }

  /** The sanity filter: strictly between 0.05 ms and 5 s. */
  predicate Sane(ms: real) {
    0.05 < ms < 5000.0
  }

  class Collector {
    var samples: seq<Frame>
    var recording: bool
    var total: nat

    constructor ()
      ensures samples == [] && !recording && total == 0
    {
      samples, recording, total := [], false, 0;
    }

    method Start()
      modifies this`recording
      ensures recording
    {
      recording := true;
    }

    method Stop()
      modifies this`recording
      ensures !recording
    {
      recording := false;
    }

    method Record(f: Frame)
      modifies this`samples, this`total
      ensures samples == (if recording then old(samples) + [f] else old(samples))
      ensures total == old(total) + if recording then 1 else 0
    {
      if !recording {
        return;
      }
      samples := samples + [f];
      total := total + 1;
    }

    method Clear()
      modifies this`samples, this`total
      ensures samples == [] && total == 0
    {
      samples := [];
      total := 0;
    }
  }

  /** The callback's context as a value: the last present, the counters, and what it recorded. */
  datatype State = State(last: int, captured: nat, dropped: nat, frames: seq<Frame>)

  function Step(target: Option<nat>, clock: Clock, st: State, e: Event): State
  {
    if !Matches(target, e) then st
    else
      var now := e.timestamp;
      if !(st.last > 0 && now > st.last) then st.(last := now)
      else
        var ms := clock.ms(now - st.last);
        if Sane(ms) then
          State(now, st.captured + 1, st.dropped,
                st.frames + [Frame(st.captured + 1, clock.us(now), ms)])
        else State(now, st.captured, st.dropped + 1, st.frames)
  }

  function Run(target: Option<nat>, clock: Clock, st: State, events: seq<Event>): State
  {
    if events == [] then st
    else Step(target, clock, Run(target, clock, st, events[..|events| - 1]), events[|events| - 1])
  }

  class Capture {
    const collector: Collector
    const target: Option<nat>
    const frequency: nat
    var last: int
    var captured: nat
    var dropped: nat

    ghost predicate Valid() { frequency > 0 }

    ghost function Value(): State
      reads this, collector
    {
      State(last, captured, dropped, collector.samples)
    }

    /** A new session: the collector is cleared, the counters are carried over. */
    constructor (c: Collector, targetPid: Option<nat>, qpcFrequency: nat, capturedBefore: nat, droppedBefore: nat)
      requires qpcFrequency > 0
      modifies c
      ensures Valid() && collector == c && target == targetPid && frequency == qpcFrequency && c.recording
      ensures Value() == State(0, capturedBefore, droppedBefore, [])
    {
      collector, target, frequency := c, targetPid, qpcFrequency;
      last, captured, dropped := 0, capturedBefore, droppedBefore;
      new;
      c.Clear();
      c.Start();
    }

    method OnEvent(e: Event)
      requires Valid()
      modifies this`last, this`captured, this`dropped, collector`samples, collector`total
      ensures var after := Step(target, Qpc(frequency), old(Value()), e);
              && Value() == after.(frames := collector.samples)
              && collector.samples == if collector.recording then after.frames else old(collector.samples)
    {
      if target.Some? && e.pid != target.value {
        return;
      }
      var isDxgi := e.provider.Dxgi? && e.id == DXGI_PRESENT_START;
      var isD3d9 := e.provider.D3d9? && e.id == D3D9_PRESENT_START;
      if isDxgi || isD3d9 {
        var now := e.timestamp;
        var previous := last;
        last := now;
        if previous > 0 && now > previous {
          var ms := FrameTime(now - previous, frequency);
          if Sane(ms) {
            captured := captured + 1;
            collector.Record(Frame(captured, now * 1000000 / frequency, ms));
          } else {
            dropped := dropped + 1;
          }
        }
      }
    }
  }

  // ----- filtering -----

  function Matching(target: Option<nat>, events: seq<Event>): seq<Event> {
    if events == [] then []
    else
      var init, last := events[..|events| - 1], events[|events| - 1];
      Matching(target, init) + if Matches(target, last) then [last] else []
  }

  /** Events of other processes, providers or kinds make no difference. */
  lemma {:induction false} OnlyMatchingEventsCount(target: Option<nat>, clock: Clock, st: State, events: seq<Event>)
    ensures Run(target, clock, st, events) == Run(target, clock, st, Matching(target, events))
  {
    if events != [] {
      var init, last := events[..|events| - 1], events[|events| - 1];
      OnlyMatchingEventsCount(target, clock, st, init);
      var before := Matching(target, init);
      if Matches(target, last) {
        assert (before + [last])[..|before|] == before;
      } else {
        assert before + [] == before;
      }
    }
  }

  // ----- conservation -----

  /** The timestamps of the matching events. */
  function Times(target: Option<nat>, events: seq<Event>): seq<int> {
    if events == [] then []
    else
      var init, last := events[..|events| - 1], events[|events| - 1];
      Times(target, init) + if Matches(target, last) then [last.timestamp] else []
  }

  /** How many neighbours advance from a positive timestamp, and by how many ticks in all. */
  function Advances(ts: seq<int>): nat {
    if |ts| < 2 then 0
    else
      var init := ts[..|ts| - 1];
      Advances(init) + if init[|init| - 1] > 0 && ts[|ts| - 1] > init[|init| - 1] then 1 else 0
  }

  function AdvancedTicks(ts: seq<int>): nat {
    if |ts| < 2 then 0
    else
      var init := ts[..|ts| - 1];
      var d := ts[|ts| - 1] - init[|init| - 1];
      AdvancedTicks(init) + if init[|init| - 1] > 0 && d > 0 then d else 0
  }

  function TimeOf(frames: seq<Frame>): real {
    if frames == [] then 0.0 else TimeOf(frames[..|frames| - 1]) + frames[|frames| - 1].frameTimeMs
  }

  /** Frame indices follow each other from `first` on. */
  ghost predicate Consecutive(frames: seq<Frame>, first: nat) {
    forall k :: 0 <= k < |frames| ==> frames[k].index == first + k
  }

  /** The event closes an interval: it matches and comes later than a positive last present. */
  predicate Advancing(target: Option<nat>, st: State, e: Event) {
    Matches(target, e) && st.last > 0 && e.timestamp > st.last
  }

  /** The interval that an event closes and the sanity filter drops. */
  function Lost(target: Option<nat>, clock: Clock, st: State, e: Event): real {
    var ms := clock.ms(e.timestamp - st.last);
    if Advancing(target, st, e) && !Sane(ms) then ms else 0.0
  }

  /** The time that the dropped intervals lasted. */
  function DroppedTime(target: Option<nat>, clock: Clock, st: State, events: seq<Event>): real {
    if events == [] then 0.0
    else
      var init := events[..|events| - 1];
      DroppedTime(target, clock, st, init) + Lost(target, clock, Run(target, clock, st, init), events[|events| - 1])
  }

  lemma {:induction false} AdvancesOfPush(ts: seq<int>, t: int)
    requires ts != []
    ensures var last := ts[|ts| - 1];
            && Advances(ts + [t]) == Advances(ts) + (if last > 0 && t > last then 1 else 0)
            && AdvancedTicks(ts + [t]) == AdvancedTicks(ts) + if last > 0 && t > last then t - last else 0
  {
    assert (ts + [t])[..|ts|] == ts;
  }

  lemma {:induction false} LastIsLastTime(target: Option<nat>, clock: Clock, c: nat, d: nat, events: seq<Event>)
    ensures var ts := Times(target, events);
            Run(target, clock, State(0, c, d, []), events).last == if ts == [] then 0 else ts[|ts| - 1]
  {
    if events != [] {
      LastIsLastTime(target, clock, c, d, events[..|events| - 1]);
    }
  }

  lemma {:induction false} TimesAdvance(target: Option<nat>, clock: Clock, c: nat, d: nat, init: seq<Event>, e: Event)
    ensures var st := Run(target, clock, State(0, c, d, []), init);
            var ts, us := Times(target, init), Times(target, init + [e]);
            && Advances(us) == Advances(ts) + (if Advancing(target, st, e) then 1 else 0)
            && AdvancedTicks(us) == AdvancedTicks(ts) + if Advancing(target, st, e) then e.timestamp - st.last else 0
  {
    var ts := Times(target, init);
    LastIsLastTime(target, clock, c, d, init);
    assert (init + [e])[..|init|] == init;
    if !Matches(target, e) {
      assert ts + [] == ts;
    } else if ts == [] {
      assert ts + [e.timestamp] == [e.timestamp];
    } else {
      AdvancesOfPush(ts, e.timestamp);
    }
  }

  /** What one event adds to the counters and the frames. */
  lemma {:induction false} StepCounts(target: Option<nat>, clock: Clock, st: State, e: Event, first: nat)
    ensures var after := Step(target, clock, st, e);
            && after.captured + after.dropped == st.captured + st.dropped + (if Advancing(target, st, e) then 1 else 0)
            && |after.frames| - after.captured == |st.frames| - st.captured
            && (Consecutive(st.frames, first) && first + |st.frames| == st.captured + 1 ==>
                  Consecutive(after.frames, first))
  {
  }

  /** Every advance is recorded or dropped, and the frames recorded carry consecutive indices
      that end at the captured counter. */
  lemma {:induction false} AdvancesCounted(target: Option<nat>, clock: Clock, c: nat, d: nat, events: seq<Event>)
    ensures var st := Run(target, clock, State(0, c, d, []), events);
            && st.captured - c + (st.dropped - d) == Advances(Times(target, events))
            && |st.frames| == st.captured - c
            && Consecutive(st.frames, c + 1)
  {
    if events != [] {
      var init, e := events[..|events| - 1], events[|events| - 1];
      assert events == init + [e];
      AdvancesCounted(target, clock, c, d, init);
      TimesAdvance(target, clock, c, d, init, e);
      StepCounts(target, clock, Run(target, clock, State(0, c, d, []), init), e, c + 1);
    }
  }

  lemma {:induction false} TimeOfPush(frames: seq<Frame>, f: Frame)
    ensures TimeOf(frames + [f]) == TimeOf(frames) + f.frameTimeMs
  {
    assert (frames + [f])[..|frames|] == frames;
  }

  /** What one event adds to the recorded time. */
  lemma {:induction false} StepTime(target: Option<nat>, clock: Clock, st: State, e: Event)
    ensures TimeOf(Step(target, clock, st, e).frames) == TimeOf(st.frames) +
            if Advancing(target, st, e) && Sane(clock.ms(e.timestamp - st.last))
            then clock.ms(e.timestamp - st.last) else 0.0
  {
    var ms := clock.ms(e.timestamp - st.last);
    if Advancing(target, st, e) && Sane(ms) {
      TimeOfPush(st.frames, Frame(st.captured + 1, clock.us(e.timestamp), ms));
    }
  }

  lemma {:induction false} RunPush(target: Option<nat>, clock: Clock, st: State, init: seq<Event>, e: Event)
    ensures var before := Run(target, clock, st, init);
            && Run(target, clock, st, init + [e]) == Step(target, clock, before, e)
            && DroppedTime(target, clock, st, init + [e]) ==
               DroppedTime(target, clock, st, init) + Lost(target, clock, before, e)
  {
    assert (init + [e])[..|init|] == init;
  }

  function TotalTime(target: Option<nat>, clock: Clock, st: State, events: seq<Event>): real {
    TimeOf(Run(target, clock, st, events).frames) + DroppedTime(target, clock, st, events)
  }

  /** An advancing event adds its interval to the recorded or to the dropped time. */
  lemma {:induction false} StepTotal(target: Option<nat>, clock: Clock, st: State, init: seq<Event>, e: Event)
    ensures var before := Run(target, clock, st, init);
            TotalTime(target, clock, st, init + [e]) == TotalTime(target, clock, st, init) +
            if Advancing(target, before, e) then clock.ms(e.timestamp - before.last) else 0.0
  {
    RunPush(target, clock, st, init, e);
    StepTime(target, clock, Run(target, clock, st, init), e);
  }

  ghost predicate Conserved(target: Option<nat>, clock: Clock, st: State, events: seq<Event>) {
    TotalTime(target, clock, st, events) == clock.ms(AdvancedTicks(Times(target, events)))
  }

  lemma TicksAdd(clock: Clock, total: real, total1: real, ticks: int, ticks1: int, step: int)
    requires Additive(clock) && total == clock.ms(ticks)
    requires ticks1 == ticks + step && total1 == total + clock.ms(step)
    ensures total1 == clock.ms(ticks1)
  {
    assert Adds(clock, ticks, step);
  }

  lemma {:induction false} TimeConservedStep(target: Option<nat>, clock: Clock, c: nat, d: nat, init: seq<Event>,
                                             e: Event)
    requires Additive(clock) && Conserved(target, clock, State(0, c, d, []), init)
    ensures Conserved(target, clock, State(0, c, d, []), init + [e])
  {
    var st0 := State(0, c, d, []);
    var before := Run(target, clock, st0, init);
    TimesAdvance(target, clock, c, d, init, e);
    StepTotal(target, clock, st0, init, e);
    TicksAdd(clock, TotalTime(target, clock, st0, init), TotalTime(target, clock, st0, init + [e]),
             AdvancedTicks(Times(target, init)), AdvancedTicks(Times(target, init + [e])),
             if Advancing(target, before, e) then e.timestamp - before.last else 0);
  }

  /** The recorded and the dropped times together are the advanced ticks. */
  lemma {:induction false} TimeConserved(target: Option<nat>, clock: Clock, c: nat, d: nat, events: seq<Event>)
    requires Additive(clock)
    ensures Conserved(target, clock, State(0, c, d, []), events)
  {
    if events != [] {
      var init, e := events[..|events| - 1], events[|events| - 1];
      TimeConserved(target, clock, c, d, init);
      TimeConservedStep(target, clock, c, d, init, e);
      assert events == init + [e];
    }
  }

  ghost predicate StrictlyIncreasing(ts: seq<int>) {
    (forall i :: 0 <= i < |ts| ==> ts[i] > 0) && forall i, j :: 0 <= i < j < |ts| ==> ts[i] < ts[j]
  }

  lemma {:induction false} AdvancesTelescope(ts: seq<int>)
    requires StrictlyIncreasing(ts) && ts != []
    ensures Advances(ts) == |ts| - 1 && AdvancedTicks(ts) == ts[|ts| - 1] - ts[0]
  {
    if |ts| >= 2 {
      AdvancesTelescope(ts[..|ts| - 1]);
    }
  }

  /** For increasing positive timestamps: recorded plus dropped is one less than the matching
      events, and the recorded and dropped times telescope to the span from first to last. */
  lemma {:induction false} IncreasingEventsTelescope(target: Option<nat>, frequency: nat, c: nat, d: nat,
                                                     events: seq<Event>)
    requires frequency > 0
    requires StrictlyIncreasing(Times(target, events)) && Times(target, events) != []
    ensures var st0 := State(0, c, d, []);
            var st := Run(target, Qpc(frequency), st0, events);
            var ts := Times(target, events);
            && st.captured - c + (st.dropped - d) == |ts| - 1
            && TotalTime(target, Qpc(frequency), st0, events) == FrameTime(ts[|ts| - 1] - ts[0], frequency)
  {
    var clock := Qpc(frequency);
    QpcAdditive(frequency);
    AdvancesCounted(target, clock, c, d, events);
    TimeConserved(target, clock, c, d, events);
    AdvancesTelescope(Times(target, events));
  }

  /** An interval is recorded if and only if it is longer than 50 microseconds and shorter than five
      seconds, and lasts its ticks over the frequency. */
  lemma RecordedIff(target: Option<nat>, frequency: nat, st: State, e: Event)
    requires frequency > 0
    ensures var after, ticks := Step(target, Qpc(frequency), st, e), e.timestamp - st.last;
            && (|after.frames| == |st.frames| + 1 <==>
                  Advancing(target, st, e) && frequency < 20000 * ticks && ticks < 5 * frequency)
            && (|after.frames| == |st.frames| + 1 ==>
                  after.frames[|st.frames|].frameTimeMs * frequency as real == 1000.0 * ticks as real)
  {
    FrameTimeLimits(e.timestamp - st.last, frequency);
  }

  lemma FrameTimeLimits(ticks: int, frequency: nat)
    requires frequency > 0
    ensures FrameTime(ticks, frequency) * frequency as real == 1000.0 * ticks as real
    ensures Sane(FrameTime(ticks, frequency)) <==> frequency < 20000 * ticks && ticks < 5 * frequency
  {
    var f, t, ms := frequency as real, ticks as real, FrameTime(ticks, frequency);
    FrameTimeTimes(ticks, frequency);
    LimitsIff(ms, f, t);
    assert (frequency < 20000 * ticks) == (f < 20000.0 * t) && (ticks < 5 * frequency) == (t < 5.0 * f);
  }

  lemma FrameTimeTimes(ticks: int, frequency: nat)
    requires frequency > 0
    ensures FrameTime(ticks, frequency) * frequency as real == 1000.0 * ticks as real
  {
    var x, f := ticks as real * 1000.0, frequency as real;
    var q := x / f;
    assert q * f == x;
  }

  lemma LimitsIff(ms: real, f: real, t: real)
    requires f > 0.0 && ms * f == 1000.0 * t
    ensures 0.05 < ms < 5000.0 <==> f < 20000.0 * t && t < 5.0 * f
  {
    CompareProducts(ms, 0.05, f);
    CompareProducts(5000.0, ms, f);
  }

  lemma CompareProducts(x: real, y: real, f: real)
    requires f > 0.0
    ensures x > y <==> x * f > y * f
  {
  }
}
