/** A kernel latency session: counters and maxima, driver aggregates and the sample ring all
    describe the same samples since the last reset. One call at a time; interleaved calls are
    the subject of CasMaximum. */
module KernelSession {
  import opened Options
  import opened LatencyMonitor
  import opened DriverIsolator

  function CountKind(h: seq<Sample>, isDpc: bool): nat {
    if h == [] then 0
    else CountKind(h[..|h| - 1], isDpc) + if h[|h| - 1].isDpc == isDpc then 1 else 0
  }

  function MaxKind(h: seq<Sample>, isDpc: bool): nat {
    if h == [] then 0
    else
      var m := MaxKind(h[..|h| - 1], isDpc);
      if h[|h| - 1].isDpc == isDpc then Max(m, h[|h| - 1].duration) else m
  }

  const CAPACITY: nat := 4096

  /** Each sample as it was attributed. */
  ghost predicate Attributed(h: seq<Sample>, e: seq<Execution>) {
    |h| == |e| && forall i :: 0 <= i < |h| ==> h[i].driver == Some(e[i].name) && h[i].duration == e[i].duration
  }

  class Session {
    const isolator: Isolator
    const monitor: Monitor
    var totalDpcs: nat
    var totalIsrs: nat
    var maxDpc: nat
    var maxIsr: nat

    ghost predicate Valid()
      reads this, isolator, monitor, monitor.ring, monitor.ring.samples
    {
      var h := monitor.ring.history;
      && isolator.Valid() && monitor.Valid() && monitor.ring.samples.Length == CAPACITY
      && Attributed(h, isolator.history)
      && totalDpcs == CountKind(h, true) && totalIsrs == CountKind(h, false)
      && maxDpc == MaxKind(h, true) && maxIsr == MaxKind(h, false)
    }

    constructor (drivers: seq<Driver>)
      requires SortedByBase(drivers)
      ensures Valid() && monitor.ring.history == [] && isolator.drivers == drivers
    {
      isolator := new Isolator(drivers);
      monitor := new Monitor(CAPACITY);
      totalDpcs, totalIsrs, maxDpc, maxIsr := 0, 0, 0, 0;
    }

    /** The counter and the maximum of the sample's kind. */
    method Count(duration: nat, isDpc: bool)
      modifies this`totalDpcs, this`totalIsrs, this`maxDpc, this`maxIsr
      ensures totalDpcs == old(totalDpcs) + (if isDpc then 1 else 0)
      ensures totalIsrs == old(totalIsrs) + (if isDpc then 0 else 1)
      ensures maxDpc == if isDpc then Max(old(maxDpc), duration) else old(maxDpc)
      ensures maxIsr == if isDpc then old(maxIsr) else Max(old(maxIsr), duration)
    {
      if isDpc {
        totalDpcs := totalDpcs + 1;
        if duration > maxDpc {
          maxDpc := duration;
        }
      } else {
        totalIsrs := totalIsrs + 1;
        if duration > maxIsr {
          maxIsr := duration;
        }
      }
    }

    /** One sample through all three pipelines; `name` is the driver it was attributed to. */
    method Ingest(timestamp: nat, duration: nat, address: nat, isDpc: bool) returns (name: string)
      requires Valid()
      modifies this, isolator, monitor, monitor.ring, monitor.ring.samples
      ensures Valid() && isolator.drivers == old(isolator.drivers)
      ensures monitor.ring.history
              == old(monitor.ring.history) + [Sample(timestamp, duration, address, isDpc, Some(name))]
    {
      Count(duration, isDpc);
      ghost var h := monitor.ring.history;
      name := isolator.RecordExecution(address, duration);
      var sample := Sample(timestamp, duration, address, isDpc, Some(name));
      KindsOfPush(h, sample);
      var _ := monitor.Ingest(sample);
    }

    /** What starting a new session does to everything measured so far. */
    method Reset()
      requires Valid()
      modifies this, isolator, monitor, monitor.ring, monitor.ring.samples
      ensures Valid() && monitor.ring.history == [] && isolator.drivers == old(isolator.drivers)
      ensures totalDpcs == totalIsrs == maxDpc == maxIsr == 0
    {
      isolator.ClearStats();
      monitor.Clear();
      totalDpcs, totalIsrs, maxDpc, maxIsr := 0, 0, 0, 0;
    }

    /** Session agreement: over any listing of the drivers the stored execution counts add up to
        DPCs plus ISRs, the larger of the two maxima is the largest driver maximum, and a
        driver is offending exactly when one of its samples took 500 microseconds. */
    lemma {:induction false} Agreement(names: seq<string>)
      requires Valid() && Distinct(names) && forall name :: name in isolator.stats <==> name in names
      ensures SumStored(isolator.stats, names) == totalDpcs + totalIsrs
      ensures forall name :: name in names ==> isolator.stats[name].max <= Max(maxDpc, maxIsr)
      ensures names != [] ==> exists name :: name in names && isolator.stats[name].max == Max(maxDpc, maxIsr)
      ensures forall name :: name in names ==> (isolator.stats[name].offending <==>
                exists i :: 0 <= i < |isolator.history| && isolator.history[i].name == name &&
                            isolator.history[i].duration >= OFFENDING_US)
    {
      var h, e := monitor.ring.history, isolator.history;
      KindsAddUp(h, e);
      SeenIsCounted(e);
      CountsAddUp(e, names);
      StoredAreCounts(isolator.stats, e, names);
      forall name | name in names
        ensures isolator.stats[name].offending <==>
                exists i :: 0 <= i < |e| && e[i].name == name && e[i].duration >= OFFENDING_US
      {
        OffendingIff(e, name);
      }
      OverallIsLargestDriver(e);
      if names != [] {
        assert names[0] in names && CountOf(e, names[0]) > 0;
        assert e != [];
        var i :| 0 <= i < |e| && MaxOf(e, e[i].name) == Overall(e);
        assert e[i].name in names;
      }
    }
  }

  lemma {:induction false} KindsOfPush(h: seq<Sample>, s: Sample)
    ensures CountKind(h + [s], true) == CountKind(h, true) + if s.isDpc then 1 else 0
    ensures CountKind(h + [s], false) == CountKind(h, false) + if s.isDpc then 0 else 1
    ensures MaxKind(h + [s], true) == if s.isDpc then Max(MaxKind(h, true), s.duration) else MaxKind(h, true)
    ensures MaxKind(h + [s], false) == if s.isDpc then MaxKind(h, false) else Max(MaxKind(h, false), s.duration)
  {
    assert (h + [s])[..|h + [s]| - 1] == h;
  }

  lemma {:induction false} KindsAddUp(h: seq<Sample>, e: seq<Execution>)
    requires Attributed(h, e)
    ensures CountKind(h, true) + CountKind(h, false) == |h|
    ensures Max(MaxKind(h, true), MaxKind(h, false)) == Overall(e)
  {
    if h != [] {
      KindsAddUp(h[..|h| - 1], e[..|e| - 1]);
    }
  }

  lemma {:induction false} SeenIsCounted(e: seq<Execution>)
    ensures forall i :: 0 <= i < |e| ==> CountOf(e, e[i].name) > 0
  {
    if e != [] {
      SeenIsCounted(e[..|e| - 1]);
      assert forall i :: 0 <= i < |e| - 1 ==> e[i] == e[..|e| - 1][i];
    }
  }
}
