/** The real-time latency monitor: a ring buffer of recent samples and a bounded list of
    warnings, each kept in step with the full history of samples. */
module LatencyMonitor {
  import opened Options
  import opened Modular

  datatype Sample = Sample(timestamp: nat, duration: nat, address: nat, isDpc: bool, driver: Option<string>)

  const WARNING_US: nat := 500
  const CRITICAL_US: nat := 1000
  const MAX_WARNINGS: nat := 1000

  datatype Warning = Warning(timestamp: nat, duration: nat, driver: string, address: nat, isDpc: bool,
                             threshold: nat, critical: bool)

  /** The last `n` elements, or all of them if there are fewer. */
  function Last<T>(s: seq<T>, n: nat): (r: seq<T>)
    ensures |r| == if |s| < n then |s| else n
  {
    if |s| <= n then s else s[|s| - n..]
  }

  lemma LastOfPush<T>(s: seq<T>, x: T, n: nat)
    requires n > 0
    ensures var kept := Last(s, n);
            Last(s + [x], n) == (if |kept| >= n then kept[1..] else kept) + [x]
  {
  }

  lemma LastOfLast<T>(s: seq<T>, n: nat, k: nat)
    ensures Last(Last(s, n), k) == Last(s, if k < n then k else n)
  {
  }

  // ----- ring buffer -----

  lemma ModStep(a: nat, c: nat)
    requires c > 0
    ensures (a % c + 1) % c == (a + 1) % c
  {
    var q, r := a / c, a % c;
    if r == c - 1 {
      NextMultiple(a, c, q);
    } else {
      ModUnique(a + 1, c, q, r + 1);
    }
  }

  lemma NextMultiple(a: nat, c: nat, q: nat)
    requires c > 0 && a == c * q + (c - 1)
    ensures (a + 1) % c == 0
  {
    assert a + 1 == c * (q + 1) + 0;
    ModUnique(a + 1, c, q + 1, 0);
  }

  /** Two indices less than the capacity apart use different slots. */
  lemma SlotsDiffer(a: nat, b: nat, c: nat)
    requires a < b < a + c
    ensures a % c != b % c
  {
    var d := b / c - a / c;
    if a % c == b % c {
      assert b - a == c * d;
      if d >= 1 {
        AtLeastOnce(c, d);
      }
    }
  }

  lemma SlotOf(h: nat, i: nat, c: nat)
    requires c > 0 && h >= c && i < c
    ensures (h % c + i) % c == (h - c + i) % c
  {
    var q, r := h / c, h % c;
    if r + i < c {
      ModUnique(r + i, c, 0, r + i);
      assert h - c + i == c * (q - 1) + (r + i);
      ModUnique(h - c + i, c, q - 1, r + i);
    } else {
      ModUnique(r + i, c, 1, r + i - c);
      assert h - c + i == c * q + (r + i - c);
      ModUnique(h - c + i, c, q, r + i - c);
    }
  }

  class RingBuffer {
    const samples: array<Option<Sample>>
    var head: nat
    var count: nat
    ghost var history: seq<Sample>

    ghost predicate Valid()
      reads this, samples
    {
      var c, n := samples.Length, |history|;
      && (c == 0 ==> n == 0)
      && head == (if c == 0 then 0 else n % c)
      && count == (if n < c then n else c)
      && forall j :: c > 0 && n - count <= j < n ==> samples[j % c] == Some(history[j])
    }

    constructor (capacity: nat)
      ensures Valid() && fresh(samples) && samples.Length == capacity && history == []
    {
      samples := new Option<Sample>[capacity](_ => None);
      head, count, history := 0, 0, [];
    }

    /** A ring without slots accepts no sample: the write would be out of range. */
    method Push(sample: Sample)
      requires Valid() && samples.Length > 0
      modifies this, samples
      ensures Valid() && history == old(history) + [sample]
    {
      var c := samples.Length;
      ghost var n := |history|;
      samples[head] := Some(sample);
      head := (head + 1) % c;
      if count < c {
        count := count + 1;
      }
      history := history + [sample];
      ModStep(n, c);
      forall j | n + 1 - count <= j < n + 1 ensures samples[j % c] == Some(history[j]) {
        if j < n {
          SlotsDiffer(j, n, c);
        }
      }
    }

    /** Oldest first: exactly the last `capacity` samples ever pushed. */
    method ToVec() returns (result: seq<Sample>)
      requires Valid()
      ensures result == Last(history, samples.Length)
    {
      result := [];
      var c := samples.Length;
      ghost var n := |history|;
      var start := if count < c then 0 else head;
      for i := 0 to count
        invariant result == history[n - count..n - count + i]
      {
        if count == c {
          SlotOf(n, i, c);
        }
        var slot := samples[(start + i) % c];
        assert slot == Some(history[n - count + i]);
        if slot.Some? {
          result := result + [slot.value];
        }
      }
    }

    method Clear()
      requires Valid()
      modifies this, samples
      ensures Valid() && history == []
    {
      for i := 0 to samples.Length
        invariant i <= samples.Length
      {
        samples[i] := None;
      }
      head, count, history := 0, 0, [];
    }
  }

  // ----- warnings -----

  function Slow(history: seq<Sample>): seq<Sample> {
    if history == [] then []
    else
      var init, last := history[..|history| - 1], history[|history| - 1];
      if last.duration >= WARNING_US then Slow(init) + [last] else Slow(init)
  }

  function WarningOf(s: Sample): Warning {
    var critical := s.duration >= CRITICAL_US;
    Warning(s.timestamp, s.duration, s.driver.GetOr("Unknown"), s.address, s.isDpc,
            if critical then CRITICAL_US else WARNING_US, critical)
  }

  function WarningsOf(s: seq<Sample>): seq<Warning> {
    seq(|s|, i requires 0 <= i < |s| => WarningOf(s[i]))
  }

  class Monitor {
    const ring: RingBuffer
    var warnings: seq<Warning>

    ghost predicate Valid()
      reads this, ring, ring.samples
    {
      ring.Valid() && warnings == Last(WarningsOf(Slow(ring.history)), MAX_WARNINGS)
    }

    constructor (capacity: nat)
      ensures Valid() && fresh(ring) && fresh(ring.samples)
      ensures ring.samples.Length == capacity && ring.history == []
    {
      ring := new RingBuffer(capacity);
      warnings := [];
    }

    /** Returns the warning raised, if the sample is slow. */
    method Ingest(sample: Sample) returns (raised: Option<Warning>)
      requires Valid() && ring.samples.Length > 0
      modifies this, ring, ring.samples
      ensures Valid() && ring.history == old(ring.history) + [sample]
      ensures raised == if sample.duration >= WARNING_US then Some(WarningOf(sample)) else None
    {
      ghost var before := Slow(ring.history);
      ghost var after := ring.history + [sample];
      assert after[..|after| - 1] == ring.history;
      raised := None;
      if sample.duration >= WARNING_US {
        var critical := sample.duration >= 1000;
        var event := Warning(sample.timestamp, sample.duration,
                             if sample.driver.Some? then sample.driver.value else "Unknown",
                             sample.address, sample.isDpc, if critical then 1000 else 500, critical);
        LastOfPush(WarningsOf(before), event, MAX_WARNINGS);
        assert WarningsOf(before + [sample]) == WarningsOf(before) + [event];
        if |warnings| >= MAX_WARNINGS {
          warnings := warnings[1..];
        }
        warnings := warnings + [event];
        raised := Some(event);
      }
      ring.Push(sample);
    }

    method RecentSamples(maxCount: nat) returns (recent: seq<Sample>)
      requires Valid()
      ensures recent == Last(ring.history, if maxCount < ring.samples.Length then maxCount else ring.samples.Length)
    {
      var all := ring.ToVec();
      recent := if |all| > maxCount then all[|all| - maxCount..] else all;
      LastOfLast(ring.history, ring.samples.Length, maxCount);
    }

    method Clear()
      requires Valid()
      modifies this, ring, ring.samples
      ensures Valid() && ring.history == []
    {
      ring.Clear();
      warnings := [];
    }
  }
}
