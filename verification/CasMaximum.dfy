/** The lock-free counters and maxima of the kernel session: any number of concurrent
    `ingest_sample` calls, interleaved at their atomic operations. A weak compare-exchange may
    fail although nobody interfered. */
module CasMaximum {

  datatype Kind = Dpc | Isr

  /** One kind's atomics, with the number of successful exchanges so far. */
  datatype Register = Register(total: nat, max: nat, wins: nat)

  /** Where a call stands: about to count, about to load, or comparing with the value it last
      saw, which was current after `seen` exchanges; `lost` counts exchanges it lost to others. */
  datatype Point = Counting | Loading | Comparing(current: nat, seen: nat, lost: nat) | Done

  datatype Call = Call(kind: Kind, duration: nat, point: Point)

  datatype State = State(dpc: Register, isr: Register, calls: map<nat, Call>)

  const INIT: State := State(Register(0, 0, 0), Register(0, 0, 0), map[])

  datatype Event = Start(id: nat, kind: Kind, duration: nat) | Act(id: nat, spurious: bool)

  /** One atomic operation of a call on its kind's register. */
  function Act1(r: Register, c: Call, spurious: bool): (Register, Point) {
    match c.point
    case Counting => (r.(total := r.total + 1), Loading)
    case Loading => (r, Comparing(r.max, r.wins, 0))
    case Comparing(current, seen, lost) =>
      if c.duration <= current then (r, Done)
      else if r.max == current && !spurious then (r.(max := c.duration, wins := r.wins + 1), Done)
      else (r, Comparing(r.max, r.wins, if r.max == current then lost else lost + 1))
    case Done => (r, Done)
  }

  function Reg(st: State, k: Kind): Register {
    if k == Dpc then st.dpc else st.isr
  }

  function WithReg(st: State, k: Kind, r: Register): State {
    if k == Dpc then st.(dpc := r) else st.(isr := r)
  }

  function Step(st: State, e: Event): State {
    match e
    case Start(id, kind, duration) =>
      if id in st.calls then st else st.(calls := st.calls[id := Call(kind, duration, Counting)])
    case Act(id, spurious) =>
      if id !in st.calls then st
      else
        var c := st.calls[id];
        var (r, p) := Act1(Reg(st, c.kind), c, spurious);
        WithReg(st, c.kind, r).(calls := st.calls[id := c.(point := p)])
  }

  function Run(events: seq<Event>): State {
    if events == [] then INIT else Step(Run(events[..|events| - 1]), events[|events| - 1])
  }

  /** The calls of a kind that have counted themselves. */
  ghost function Counted(st: State, k: Kind): set<nat> {
    set id | id in st.calls && st.calls[id].kind == k && st.calls[id].point != Counting
  }

  ghost predicate CallOk(r: Register, c: Call) {
    match c.point
    case Comparing(current, seen, lost) =>
      current <= r.max && lost <= seen <= r.wins && (seen == r.wins ==> current == r.max)
    case Done => c.duration <= r.max
    case _ => true
  }

  ghost predicate Ingested(st: State, k: Kind, value: nat) {
    exists id :: id in st.calls && st.calls[id].kind == k && st.calls[id].duration == value
  }

  ghost predicate CountOk(st: State, k: Kind) {
    Reg(st, k).total == |Counted(st, k)|
  }

  /** The maximum is an ingested duration, and every exchange that was won has raised it. */
  ghost predicate MaxOk(st: State, k: Kind) {
    && (Reg(st, k).max == 0 || Ingested(st, k, Reg(st, k).max))
    && Reg(st, k).wins <= Reg(st, k).max
  }

  ghost predicate Inv(st: State) {
    && CountOk(st, Dpc) && CountOk(st, Isr)
    && MaxOk(st, Dpc) && MaxOk(st, Isr)
    && forall id :: id in st.calls ==> CallOk(Reg(st, st.calls[id].kind), st.calls[id])
  }

  lemma StartKeepsInv(st: State, id: nat, k: Kind, duration: nat)
    requires Inv(st) && id !in st.calls
    ensures Inv(Step(st, Start(id, k, duration)))
  {
    var st' := Step(st, Start(id, k, duration));
    forall j: Kind ensures Counted(st', j) == Counted(st, j) && (MaxOk(st, j) ==> MaxOk(st', j)) {
      IngestedStays(st, st', j, Reg(st, j).max);
    }
  }

  lemma IngestedStays(st: State, st': State, k: Kind, value: nat)
    requires forall id :: id in st.calls ==>
               && id in st'.calls && st'.calls[id].kind == st.calls[id].kind
               && st'.calls[id].duration == st.calls[id].duration
    ensures Ingested(st, k, value) ==> Ingested(st', k, value)
  {
    if Ingested(st, k, value) {
      var id :| id in st.calls && st.calls[id].kind == k && st.calls[id].duration == value;
      assert id in st'.calls;
    }
  }

  lemma ActKeepsCount(st: State, id: nat, spurious: bool, k: Kind)
    requires CountOk(st, k) && id in st.calls
    ensures CountOk(Step(st, Act(id, spurious)), k)
  {
    if k == st.calls[id].kind && st.calls[id].point.Counting? {
      CountingJoins(st, id, spurious, k);
    } else {
      OthersKeepCounted(st, id, spurious, k);
    }
  }

  lemma CountingJoins(st: State, id: nat, spurious: bool, k: Kind)
    requires id in st.calls && st.calls[id].kind == k && st.calls[id].point.Counting?
    ensures id !in Counted(st, k) && Counted(Step(st, Act(id, spurious)), k) == Counted(st, k) + {id}
    ensures Reg(Step(st, Act(id, spurious)), k).total == Reg(st, k).total + 1
  {
  }

  lemma OthersKeepCounted(st: State, id: nat, spurious: bool, k: Kind)
    requires id in st.calls && (st.calls[id].kind != k || !st.calls[id].point.Counting?)
    ensures Counted(Step(st, Act(id, spurious)), k) == Counted(st, k)
    ensures Reg(Step(st, Act(id, spurious)), k).total == Reg(st, k).total
  {
  }

  lemma ActKeepsMax(st: State, id: nat, spurious: bool, k: Kind)
    requires MaxOk(st, k) && id in st.calls
    ensures MaxOk(Step(st, Act(id, spurious)), k)
  {
    var st' := Step(st, Act(id, spurious));
    IngestedStays(st, st', k, Reg(st, k).max);
    if Reg(st', k).max != Reg(st, k).max {
      assert id in st'.calls && st'.calls[id].kind == k && st'.calls[id].duration == Reg(st', k).max;
    }
  }

  lemma ActKeepsInv(st: State, id: nat, spurious: bool)
    requires Inv(st) && id in st.calls
    ensures Inv(Step(st, Act(id, spurious)))
  {
    ActKeepsCount(st, id, spurious, Dpc);
    ActKeepsCount(st, id, spurious, Isr);
    ActKeepsMax(st, id, spurious, Dpc);
    ActKeepsMax(st, id, spurious, Isr);
  }

  lemma StepKeepsInv(st: State, e: Event)
    requires Inv(st)
    ensures Inv(Step(st, e))
  {
    match e
    case Start(id, k, duration) => if id !in st.calls { StartKeepsInv(st, id, k, duration); }
    case Act(id, spurious) => if id in st.calls { ActKeepsInv(st, id, spurious); }
  }

  lemma {:induction false} RunKeepsInv(events: seq<Event>)
    ensures Inv(Run(events))
  {
    if events == [] {
      assert Counted(INIT, Dpc) == {} == Counted(INIT, Isr);
    } else {
      RunKeepsInv(events[..|events| - 1]);
      StepKeepsInv(Run(events[..|events| - 1]), events[|events| - 1]);
    }
  }

  lemma StepNeverLowers(st: State, e: Event, k: Kind)
    requires Inv(st)
    ensures Reg(st, k).max <= Reg(Step(st, e), k).max && Reg(st, k).total <= Reg(Step(st, e), k).total
  {
  }

  /** No interleaving ever lowers a maximum or a counter, however far it goes on. */
  lemma {:induction false} MaximumNeverDecreases(events: seq<Event>, more: seq<Event>, k: Kind)
    ensures Reg(Run(events), k).max <= Reg(Run(events + more), k).max
    ensures Reg(Run(events), k).total <= Reg(Run(events + more), k).total
  {
    if more == [] {
      assert events + more == events;
    } else {
      var init := more[..|more| - 1];
      MaximumNeverDecreases(events, init, k);
      RunKeepsInv(events + init);
      assert (events + more)[..|events + more| - 1] == events + init;
      StepNeverLowers(Run(events + init), more[|more| - 1], k);
    }
  }

  lemma StepKeepsCall(st: State, e: Event, id: nat)
    requires id in st.calls
    ensures id in Step(st, e).calls
    ensures Step(st, e).calls[id].kind == st.calls[id].kind && Step(st, e).calls[id].duration == st.calls[id].duration
  {
  }

  /** No sample is forgotten: after any run, every sample whose ingestion has begun is among the
      calls, under its first beginning's kind and duration. */
  lemma {:induction false} StartedIsThere(events: seq<Event>, i: nat)
    requires i < |events| && events[i].Start?
    requires forall j :: 0 <= j < i && events[j].Start? ==> events[j].id != events[i].id
    ensures var st, e := Run(events), events[i];
            e.id in st.calls && st.calls[e.id].kind == e.kind && st.calls[e.id].duration == e.duration
  {
    var init := events[..|events| - 1];
    if i < |events| - 1 {
      assert init[i] == events[i];
      StartedIsThere(init, i);
      StepKeepsCall(Run(init), events[|events| - 1], events[i].id);
    } else {
      NotStartedNotThere(init, events[i].id);
    }
  }

  lemma {:induction false} NotStartedNotThere(events: seq<Event>, id: nat)
    requires forall j :: 0 <= j < |events| && events[j].Start? ==> events[j].id != id
    ensures id !in Run(events).calls
  {
    if events != [] {
      NotStartedNotThere(events[..|events| - 1], id);
      assert events[|events| - 1].Start? ==> events[|events| - 1].id != id;
    }
  }

  /** A call never starts over: what is done stays done, however far the run goes on. */
  lemma {:induction false} DoneStaysDone(events: seq<Event>, more: seq<Event>, id: nat)
    requires id in Run(events).calls && Run(events).calls[id].point.Done?
    ensures id in Run(events + more).calls && Run(events + more).calls[id] == Run(events).calls[id]
  {
    if more == [] {
      assert events + more == events;
    } else {
      var init := more[..|more| - 1];
      DoneStaysDone(events, init, id);
      assert (events + more)[..|events + more| - 1] == events + init;
    }
  }

  /** After any interleaving the maximum is 0 or the duration of some ingested sample of its
      kind, and no finished call exceeds it. */
  lemma {:induction false} MaximumIsSound(events: seq<Event>, k: Kind)
    ensures var st := Run(events);
            && (Reg(st, k).max == 0 || Ingested(st, k, Reg(st, k).max))
            && forall id :: id in st.calls && st.calls[id].kind == k && st.calls[id].point.Done? ==>
                 st.calls[id].duration <= Reg(st, k).max
  {
    RunKeepsInv(events);
  }

  /** Once every call is done the counter is the number of samples of the kind and the maximum
      is exactly the largest of their durations, or 0 if there are none. */
  lemma {:induction false} QuiescentMaximumIsExact(events: seq<Event>, k: Kind)
    requires forall id :: id in Run(events).calls ==> Run(events).calls[id].point.Done?
    ensures var st := Run(events);
            var mine := set id | id in st.calls && st.calls[id].kind == k;
            && Reg(st, k).total == |mine|
            && (forall id :: id in mine ==> st.calls[id].duration <= Reg(st, k).max)
            && (mine != {} ==> exists id :: id in mine && st.calls[id].duration == Reg(st, k).max)
            && (mine == {} ==> Reg(st, k).max == 0)
  {
    RunKeepsInv(events);
    var st := Run(events);
    var mine := set id | id in st.calls && st.calls[id].kind == k;
    assert Counted(st, k) == mine;
    assert MaxOk(st, k);
    if mine != {} && Reg(st, k).max == 0 {
      var id :| id in mine;
      assert st.calls[id].duration == Reg(st, k).max;
    } else if Reg(st, k).max != 0 {
      var id :| id in st.calls && st.calls[id].kind == k && st.calls[id].duration == Reg(st, k).max;
      assert id in mine;
    }
  }

  /** Lock freedom: in any run, a call loses the exchange at most as often as other calls of
      its kind won it, and each win has raised the maximum, so no more often than the maximum. */
  lemma {:induction false} LossesBoundedByWins(events: seq<Event>, id: nat)
    requires id in Run(events).calls && Run(events).calls[id].point.Comparing?
    ensures var c := Run(events).calls[id];
            c.point.lost <= Reg(Run(events), c.kind).wins <= Reg(Run(events), c.kind).max
  {
    RunKeepsInv(events);
  }

  /** How many operations a call left alone has still to make at most. */
  function Remaining(p: Point): nat {
    match p
    case Counting => 4
    case Loading => 3
    case Comparing(_, _, _) => 2
    case Done => 0
  }

  function Alone(st: State, id: nat, n: nat): State
    decreases n
  {
    if n == 0 then st else Alone(Step(st, Act(id, false)), id, n - 1)
  }

  /** An exchange that compares with what is there decides the call. */
  lemma {:induction false} FreshExchangeEnds(st: State, id: nat)
    requires id in st.calls && !st.calls[id].point.Counting? && !st.calls[id].point.Loading?
    requires st.calls[id].point.Comparing? ==> st.calls[id].point.current == Reg(st, st.calls[id].kind).max
    ensures id in Alone(st, id, 1).calls && Alone(st, id, 1).calls[id].point.Done?
  {
    assert Alone(st, id, 1) == Alone(Step(st, Act(id, false)), id, 0);
  }

  /** A call that runs alone finishes, spurious failures aside, within two operations of its load
      and within four from wherever it is: a second exchange cannot miss. */
  lemma {:induction false} UndisturbedCallFinishes(st: State, id: nat)
    requires id in st.calls
    ensures var n := Remaining(st.calls[id].point);
            id in Alone(st, id, n).calls && Alone(st, id, n).calls[id].point.Done?
    ensures st.calls[id].point.Loading? ==> id in Alone(st, id, 2).calls && Alone(st, id, 2).calls[id].point.Done?
    decreases Remaining(st.calls[id].point)
  {
    var p, next := st.calls[id].point, Step(st, Act(id, false));
    if p.Counting? || p.Loading? {
      UndisturbedCallFinishes(next, id);
    }
    if p.Loading? || p.Comparing? {
      FreshExchangeEnds(next, id);
      assert Alone(st, id, 2) == Alone(next, id, 1);
    }
  }
}
