/** Attributing kernel routine addresses to drivers and aggregating their execution times. */
module DriverIsolator {
  import opened Options

  const U64: nat := 0x1_0000_0000_0000_0000
  const WINDOW: nat := 0x400_0000
  const OFFENDING_US: nat := 500

  datatype Driver = Driver(base: nat, name: string, path: string, verified: bool)

  datatype Stat = Stat(
    name: string, path: string, base: nat, max: nat, total: nat, count: nat, avg: real, offending: bool)

  // ----- resolving -----

  predicate Usable(d: Driver) {
    d.verified && d.base > 0
  }

  function Verified(drivers: seq<Driver>): seq<Driver> {
    if drivers == [] then []
    else
      var rest := Verified(drivers[1..]);
      if Usable(drivers[0]) then [drivers[0]] + rest else rest
  }

  lemma {:induction false} VerifiedMembers(drivers: seq<Driver>)
    ensures forall d :: d in Verified(drivers) <==> d in drivers && Usable(d)
  {
    if drivers != [] {
      VerifiedMembers(drivers[1..]);
      assert forall d :: d in drivers <==> d == drivers[0] || d in drivers[1..];
    }
  }

  ghost predicate SortedByBase(drivers: seq<Driver>) {
    forall i, j :: 0 <= i < j < |drivers| ==> drivers[i].base <= drivers[j].base
  }

  lemma {:induction false} VerifiedSorted(drivers: seq<Driver>)
    requires SortedByBase(drivers)
    ensures SortedByBase(Verified(drivers))
  {
    if drivers != [] {
      VerifiedSorted(drivers[1..]);
      VerifiedMembers(drivers[1..]);
      var rest := Verified(drivers[1..]);
      forall j | 0 <= j < |rest| ensures drivers[0].base <= rest[j].base {
        assert rest[j] in rest;
      }
    }
  }

  datatype Found = At(index: nat) | InsertAt(index: nat)

  /** `binary_search_by_key`: some index with the key, or where it would go. */
  method BinarySearch(v: seq<Driver>, key: nat) returns (r: Found)
    requires SortedByBase(v)
    ensures r.At? ==> r.index < |v| && v[r.index].base == key
    ensures r.InsertAt? ==> r.index <= |v|
    ensures r.InsertAt? ==> forall i :: 0 <= i < r.index ==> v[i].base < key
    ensures r.InsertAt? ==> forall i :: r.index <= i < |v| ==> v[i].base > key
  {
    var lo, hi := 0, |v|;
    while lo < hi
      invariant 0 <= lo <= hi <= |v|
      invariant forall i :: 0 <= i < lo ==> v[i].base < key
      invariant forall i :: hi <= i < |v| ==> v[i].base > key
    {
      var mid := lo + (hi - lo) / 2;
      if v[mid].base < key {
        lo := mid + 1;
      } else if v[mid].base > key {
        hi := mid;
      } else {
        return At(mid);
      }
    }
    return InsertAt(lo);
  }

  /** The code's window test: the 64-bit sum wraps around. */
  predicate InWindow(base: nat, address: nat) {
    base == address || address < (base + WINDOW) % U64
  }

  /** The rule as intended: less than 64 MB above the base. */
  predicate Near(base: nat, address: nat) {
    base <= address < base + WINDOW
  }

  /** The window test is the intended rule except where the base lies so close to the top of
      the address space that the sum wraps. */
  lemma WindowIsNearIff(base: nat, address: nat)
    requires base <= address < U64
    ensures (InWindow(base, address) <==> Near(base, address)) <==> base + WINDOW < U64 || base == address
  {
    if base + WINDOW >= U64 {
      assert (base + WINDOW) % U64 == base + WINDOW - U64;
    }
  }

  /** `d` has the greatest usable base that is not above the address. */
  ghost predicate Nearest(drivers: seq<Driver>, address: nat, d: Driver) {
    && d in drivers && d.verified && 0 < d.base <= address
    && forall e :: e in drivers && e.verified && 0 < e.base <= address ==> e.base <= d.base
  }

  /** The linear rule: the driver with the greatest usable base at or below the address, if
      the address lies in its window. */
  ghost predicate Attributes(drivers: seq<Driver>, address: nat, r: Option<Driver>) {
    match r
    case Some(d) => address != 0 && Nearest(drivers, address, d) && InWindow(d.base, address)
    case None => address == 0 || forall d :: Nearest(drivers, address, d) ==> !InWindow(d.base, address)
  }

  /** The same with the rule as intended. */
  ghost predicate AttributesNear(drivers: seq<Driver>, address: nat, r: Option<Driver>) {
    match r
    case Some(d) => address != 0 && Nearest(drivers, address, d) && Near(d.base, address)
    case None => address == 0 || forall d :: Nearest(drivers, address, d) ==> !Near(d.base, address)
  }

  /** What the code attributes is the intended attribution if and only if the window of the
      nearest base does not wrap or the address is that base. */
  lemma AttributionIsNearIff(drivers: seq<Driver>, address: nat, r: Option<Driver>)
    requires Attributes(drivers, address, r) && address < U64
    ensures AttributesNear(drivers, address, r) <==>
            address == 0 || forall d :: Nearest(drivers, address, d) ==> d.base + WINDOW < U64 || d.base == address
  {
    forall d | Nearest(drivers, address, d)
      ensures (InWindow(d.base, address) <==> Near(d.base, address)) <==> d.base + WINDOW < U64 || d.base == address
    {
      WindowIsNearIff(d.base, address);
    }
  }

  /** A driver in the last 64 MB of the address space loses all addresses but its base. */
  lemma WrappedDriverMissed(d: Driver, address: nat)
    requires Usable(d) && U64 - WINDOW <= d.base < address < U64
    ensures Attributes([d], address, None) && Near(d.base, address) && !AttributesNear([d], address, None)
  {
    assert d in [d];
    assert (d.base + WINDOW) % U64 == d.base + WINDOW - U64;
    assert Nearest([d], address, d);
  }

  method Resolve(drivers: seq<Driver>, address: nat) returns (r: Option<Driver>)
    requires SortedByBase(drivers)
    ensures Attributes(drivers, address, r)
  {
    var v := Verified(drivers);
    VerifiedSorted(drivers);
    if address == 0 || v == [] {
      r := None;
      NothingBelow(drivers, v, address);
    } else {
      var found := BinarySearch(v, address);
      r := Pick(v, found, address);
      PickAttributes(drivers, v, found, address);
    }
  }

  /** What the search result leads to. */
  function Pick(v: seq<Driver>, found: Found, address: nat): Option<Driver>
    requires found.index <= |v| && (found.At? ==> found.index < |v|)
  {
    if found.At? then Some(v[found.index])
    else if found.index == 0 then None
    else InsideWindow(v[found.index - 1], address)
  }

  function InsideWindow(candidate: Driver, address: nat): Option<Driver> {
    if address < (candidate.base + WINDOW) % U64 then Some(candidate) else None
  }

  lemma {:induction false} PickAttributes(drivers: seq<Driver>, v: seq<Driver>, found: Found, address: nat)
    requires v == Verified(drivers) && SortedByBase(v) && address != 0 && found.index <= |v|
    requires found.At? ==> found.index < |v| && v[found.index].base == address
    requires found.InsertAt? ==> forall i :: 0 <= i < found.index ==> v[i].base < address
    requires found.InsertAt? ==> forall i :: found.index <= i < |v| ==> v[i].base > address
    ensures Attributes(drivers, address, Pick(v, found, address))
  {
    if found.At? {
      ExactHit(drivers, v, address, found.index);
    } else if found.index == 0 {
      NothingBelow(drivers, v, address);
    } else {
      CandidateIsNearest(drivers, v, address, found.index);
    }
  }

  lemma {:induction false} ExactHit(drivers: seq<Driver>, v: seq<Driver>, address: nat, index: nat)
    requires v == Verified(drivers) && index < |v| && v[index].base == address != 0
    ensures Attributes(drivers, address, Some(v[index]))
  {
    VerifiedMembers(drivers);
    assert v[index] in v;
  }

  lemma {:induction false} NothingBelow(drivers: seq<Driver>, v: seq<Driver>, address: nat)
    requires v == Verified(drivers) && (address == 0 || forall i :: 0 <= i < |v| ==> v[i].base > address)
    ensures Attributes(drivers, address, None)
  {
    VerifiedMembers(drivers);
    forall d | d in drivers && Usable(d) ensures address == 0 || d.base > address {
      assert d in v;
    }
  }

  lemma {:induction false} CandidateIsNearest(drivers: seq<Driver>, v: seq<Driver>, address: nat, index: nat)
    requires v == Verified(drivers) && SortedByBase(v) && 0 < index <= |v| && address != 0
    requires forall i :: 0 <= i < index ==> v[i].base < address
    requires forall i :: index <= i < |v| ==> v[i].base > address
    ensures Attributes(drivers, address, InsideWindow(v[index - 1], address))
  {
    VerifiedMembers(drivers);
    var c := v[index - 1];
    assert c in v;
    forall e | e in drivers && Usable(e) && e.base <= address ensures e.base <= c.base {
      assert e in v;
      var i :| 0 <= i < |v| && v[i] == e;
    }
  }

  // ----- aggregates -----

  /** A sample attributed to a driver name. */
  datatype Execution = Execution(name: string, duration: nat)

  function CountOf(h: seq<Execution>, name: string): nat {
    if h == [] then 0
    else CountOf(h[..|h| - 1], name) + if h[|h| - 1].name == name then 1 else 0
  }

  function TotalOf(h: seq<Execution>, name: string): nat {
    if h == [] then 0
    else TotalOf(h[..|h| - 1], name) + if h[|h| - 1].name == name then h[|h| - 1].duration else 0
  }

  function Max(x: nat, y: nat): nat {
    if x >= y then x else y
  }

  function MaxOf(h: seq<Execution>, name: string): nat {
    if h == [] then 0
    else
      var m := MaxOf(h[..|h| - 1], name);
      if h[|h| - 1].name == name then Max(m, h[|h| - 1].duration) else m
  }

  function Overall(h: seq<Execution>): nat {
    if h == [] then 0 else Max(Overall(h[..|h| - 1]), h[|h| - 1].duration)
  }

  /** The aggregate of a driver is the fold of the samples attributed to it. */
  ghost predicate Folds(stat: Stat, h: seq<Execution>, name: string) {
    && stat.name == name
    && stat.count == CountOf(h, name) > 0
    && stat.total == TotalOf(h, name)
    && stat.max == MaxOf(h, name)
    && stat.avg == stat.total as real / stat.count as real
    && (stat.offending <==> stat.max >= OFFENDING_US)
  }

  ghost predicate Agrees(stats: map<string, Stat>, h: seq<Execution>) {
    && (forall name :: name in stats <==> CountOf(h, name) > 0)
    && forall name :: name in stats ==> Folds(stats[name], h, name)
  }

  function Update(stat: Stat, duration: nat): Stat {
    var count, total, max := stat.count + 1, stat.total + duration, if duration > stat.max then duration else stat.max;
    Stat(stat.name, stat.path, stat.base, max, total, count, total as real / count as real,
         stat.offending || max >= OFFENDING_US)
  }

  lemma UpdateFolds(stats: map<string, Stat>, h: seq<Execution>, stat: Stat, name: string, duration: nat)
    requires Agrees(stats, h)
    requires if name in stats then stat == stats[name] else
             stat.name == name && stat.count == stat.total == stat.max == 0 && !stat.offending
    ensures Agrees(stats[name := Update(stat, duration)], h + [Execution(name, duration)])
  {
    var h' := h + [Execution(name, duration)];
    assert h'[..|h'| - 1] == h;
    NotSeen(h, name);
    var stats' := stats[name := Update(stat, duration)];
    forall n | n in stats' ensures Folds(stats'[n], h', n) {
    }
  }

  lemma {:induction false} NotSeen(h: seq<Execution>, name: string)
    ensures CountOf(h, name) == 0 ==> TotalOf(h, name) == 0 && MaxOf(h, name) == 0
  {
    if h != [] {
      NotSeen(h[..|h| - 1], name);
    }
  }

  const UNRESOLVED: string := "UnknownKernelRoutine"
  const UNRESOLVED_UNELEVATED: string :=
    "UnknownKernelRoutine (Administrator elevation required to resolve KASLR addresses)"

  class Isolator {
    var drivers: seq<Driver>
    var stats: map<string, Stat>
    ghost var history: seq<Execution>

    ghost predicate Valid()
      reads this
    {
      SortedByBase(drivers) && Agrees(stats, history)
    }

    constructor (loaded: seq<Driver>)
      requires SortedByBase(loaded)
      ensures Valid() && drivers == loaded && history == []
    {
      drivers, stats, history := loaded, map[], [];
    }

    /** Attribute the sample, update that driver's aggregate and return its name. */
    method RecordExecution(address: nat, duration: nat) returns (name: string)
      requires Valid()
      modifies this
      ensures Valid() && drivers == old(drivers)
      ensures history == old(history) + [Execution(name, duration)]
      ensures (exists d :: d in drivers && Attributes(drivers, address, Some(d)) && name == d.name)
              || (Attributes(drivers, address, None) &&
                  name == if Verified(drivers) == [] then UNRESOLVED_UNELEVATED else UNRESOLVED)
    {
      var driver := Resolve(drivers, address);
      var path, base := "Unknown", 0;
      if driver.Some? {
        name, path, base := driver.value.name, driver.value.path, driver.value.base;
      } else {
        name := if Verified(drivers) == [] then UNRESOLVED_UNELEVATED else UNRESOLVED;
      }
      var stat := if name in stats then stats[name] else Stat(name, path, base, 0, 0, 0, 0.0, false);
      UpdateFolds(stats, history, stat, name, duration);
      stats := stats[name := Update(stat, duration)];
      history := history + [Execution(name, duration)];
    }

    method ClearStats()
      requires Valid()
      modifies this
      ensures Valid() && history == [] && drivers == old(drivers)
    {
      stats, history := map[], [];
    }
  }

  // ----- what the aggregates say together -----

  ghost predicate Distinct(names: seq<string>) {
    forall i, j :: 0 <= i < j < |names| ==> names[i] != names[j]
  }

  function SumCounts(h: seq<Execution>, names: seq<string>): nat {
    if names == [] then 0 else CountOf(h, names[0]) + SumCounts(h, names[1..])
  }

  /** The same sum over the counts that are stored. */
  function SumStored(stats: map<string, Stat>, names: seq<string>): nat
    requires forall name :: name in names ==> name in stats
  {
    if names == [] then 0 else stats[names[0]].count + SumStored(stats, names[1..])
  }

  lemma {:induction false} StoredAreCounts(stats: map<string, Stat>, h: seq<Execution>, names: seq<string>)
    requires Agrees(stats, h) && forall name :: name in names ==> name in stats
    ensures SumStored(stats, names) == SumCounts(h, names)
  {
    if names != [] {
      StoredAreCounts(stats, h, names[1..]);
    }
  }

  /** Over any listing of the drivers, the execution counts add up to the number of samples. */
  lemma {:induction false} CountsAddUp(h: seq<Execution>, names: seq<string>)
    requires Distinct(names) && forall i :: 0 <= i < |h| ==> h[i].name in names
    ensures SumCounts(h, names) == |h|
  {
    if h == [] {
      NoCounts(names);
    } else {
      CountsAddUp(h[..|h| - 1], names);
      OneMoreCount(h, names);
    }
  }

  lemma {:induction false} NoCounts(names: seq<string>)
    ensures SumCounts([], names) == 0
  {
    if names != [] {
      NoCounts(names[1..]);
    }
  }

  lemma {:induction false} OneMoreCount(h: seq<Execution>, names: seq<string>)
    requires h != [] && Distinct(names)
    ensures SumCounts(h, names) == SumCounts(h[..|h| - 1], names) + if h[|h| - 1].name in names then 1 else 0
  {
    if names != [] {
      OneMoreCount(h, names[1..]);
      assert names == [names[0]] + names[1..];
      assert names[0] !in names[1..];
    }
  }

  /** The largest duration overall is the largest driver maximum. */
  lemma {:induction false} OverallIsLargestDriver(h: seq<Execution>)
    ensures forall name :: MaxOf(h, name) <= Overall(h)
    ensures h != [] ==> exists i :: 0 <= i < |h| && MaxOf(h, h[i].name) == Overall(h)
  {
    if h != [] {
      var init, last := h[..|h| - 1], h[|h| - 1];
      OverallIsLargestDriver(init);
      if last.duration >= Overall(init) {
        assert MaxOf(h, last.name) == Overall(h);
      } else {
        var i :| 0 <= i < |init| && MaxOf(init, init[i].name) == Overall(init);
        assert h[i] == init[i];
        assert MaxOf(h, h[i].name) == Overall(h);
      }
    }
  }

  /** A driver is offending if and only if one of its samples took 500 us or more. */
  lemma {:induction false} OffendingIff(h: seq<Execution>, name: string)
    ensures MaxOf(h, name) >= OFFENDING_US <==>
            exists i :: 0 <= i < |h| && h[i].name == name && h[i].duration >= OFFENDING_US
  {
    if h != [] {
      var init, last := h[..|h| - 1], h[|h| - 1];
      OffendingIff(init, name);
      if MaxOf(init, name) >= OFFENDING_US {
        var i :| 0 <= i < |init| && init[i].name == name && init[i].duration >= OFFENDING_US;
        assert h[i] == init[i];
      } else if exists i :: 0 <= i < |h| && h[i].name == name && h[i].duration >= OFFENDING_US {
        var i :| 0 <= i < |h| && h[i].name == name && h[i].duration >= OFFENDING_US;
        assert i < |init| ==> init[i] == h[i];
      }
    }
  }

  // ----- rankings -----

  function InsertDescending(x: Stat, s: seq<Stat>): (r: seq<Stat>)
    ensures multiset(r) == multiset{x} + multiset(s)
  {
    if s == [] || x.max >= s[0].max then [x] + s
    else
      assert s == [s[0]] + s[1..];
      [s[0]] + InsertDescending(x, s[1..])
  }

  ghost predicate Descending(s: seq<Stat>) {
    forall i, j :: 0 <= i < j < |s| ==> s[i].max >= s[j].max
  }

  lemma {:induction false} InsertKeepsDescending(x: Stat, s: seq<Stat>)
    requires Descending(s)
    ensures Descending(InsertDescending(x, s))
  {
    if s != [] && x.max < s[0].max {
      var t := InsertDescending(x, s[1..]);
      InsertKeepsDescending(x, s[1..]);
      PrependKeepsDescending(s[0], t) by {
        forall k | 0 <= k < |t| ensures s[0].max >= t[k].max {
          assert t[k] in multiset(t);
        }
      }
    } else {
      PrependKeepsDescending(x, s);
    }
  }

  lemma PrependKeepsDescending(x: Stat, s: seq<Stat>)
    requires Descending(s) && forall k :: 0 <= k < |s| ==> x.max >= s[k].max
    ensures Descending([x] + s)
  {
  }

  /** `sort_by_key(Reverse(max))`. */
  function SortDescending(s: seq<Stat>): (r: seq<Stat>)
    ensures Descending(r) && multiset(r) == multiset(s) && |r| == |s|
  {
    if s == [] then []
    else
      var t := SortDescending(s[1..]);
      InsertKeepsDescending(s[0], t);
      assert s == [s[0]] + s[1..];
      assert |InsertDescending(s[0], t)| == |multiset(InsertDescending(s[0], t))|;
      InsertDescending(s[0], t)
  }

  function TopDrivers(values: seq<Stat>, limit: nat): (top: seq<Stat>)
    ensures |top| == if |values| < limit then |values| else limit
    ensures Descending(top)
  {
    var sorted := SortDescending(values);
    if |sorted| <= limit then sorted else sorted[..limit]
  }

  /** Truncating after the sort keeps the largest: whatever is cut is no larger than anything
      kept, and together they are the input. */
  lemma TopDriversAreLargest(values: seq<Stat>, limit: nat) returns (cut: seq<Stat>)
    ensures multiset(TopDrivers(values, limit)) + multiset(cut) == multiset(values)
    ensures forall i, j :: 0 <= i < |TopDrivers(values, limit)| && 0 <= j < |cut| ==>
              TopDrivers(values, limit)[i].max >= cut[j].max
  {
    var sorted := SortDescending(values);
    var top := TopDrivers(values, limit);
    cut := sorted[|top|..];
    assert top == sorted[..|top|];
    PartsOfSorted(sorted, top, cut);
  }

  lemma {:induction false} PartsOfSorted(sorted: seq<Stat>, top: seq<Stat>, cut: seq<Stat>)
    requires Descending(sorted) && |top| <= |sorted| && top == sorted[..|top|] && cut == sorted[|top|..]
    ensures multiset(top) + multiset(cut) == multiset(sorted)
    ensures forall i, j :: 0 <= i < |top| && 0 <= j < |cut| ==> top[i].max >= cut[j].max
  {
    assert sorted == top + cut;
    forall i, j | 0 <= i < |top| && 0 <= j < |cut| ensures top[i].max >= cut[j].max {
      assert top[i] == sorted[i] && cut[j] == sorted[|top| + j];
    }
  }

  /** The offending drivers, worst first. */
  function Offending(values: seq<Stat>): seq<Stat> {
    if values == [] then []
    else (if values[0].offending then [values[0]] else []) + Offending(values[1..])
  }

  function OffendingDrivers(values: seq<Stat>): (r: seq<Stat>)
    ensures Descending(r)
  {
    SortDescending(Offending(values))
  }

  /** The list holds each flagged driver as often as the statistics do, and no other. */
  lemma {:induction false} OffendingDriversExact(values: seq<Stat>, s: Stat)
    ensures multiset(OffendingDrivers(values))[s] == if s.offending then multiset(values)[s] else 0
    ensures s in OffendingDrivers(values) <==> s in values && s.offending
  {
    OffendingMembers(values, s);
    assert multiset(OffendingDrivers(values)) == multiset(Offending(values));
    assert s in OffendingDrivers(values) <==> s in multiset(OffendingDrivers(values));
  }

  lemma {:induction false} OffendingMembers(values: seq<Stat>, s: Stat)
    ensures multiset(Offending(values))[s] == if s.offending then multiset(values)[s] else 0
  {
    if values != [] {
      OffendingMembers(values[1..], s);
      assert values == [values[0]] + values[1..];
    }
  }
}
