/** The variable-length processor records: a byte-level parser and its inverse. */
module ProcessorRecords {
  import opened CpuTopology
  import opened Options

  type Bytes = seq<nat>

  // ----- little-endian numbers -----

  function Le(v: nat, n: nat): (b: Bytes)
    ensures |b| == n
  {
    if n == 0 then [] else [v % 256] + Le(v / 256, n - 1)
  }

  function FromLe(b: Bytes): nat {
    if b == [] then 0 else b[0] + 256 * FromLe(b[1..])
  }

  function Pow256(n: nat): (r: nat)
    ensures r > 0
  {
    if n == 0 then 1 else 256 * Pow256(n - 1)
  }

  lemma {:induction false} FromLeOfLe(v: nat, n: nat)
    requires v < Pow256(n)
    ensures FromLe(Le(v, n)) == v
  {
    if n > 0 {
      FromLeOfLe(v / 256, n - 1);
      assert Le(v, n)[1..] == Le(v / 256, n - 1);
    }
  }

  function Read(b: Bytes, offset: nat, n: nat): nat
    requires offset + n <= |b|
  {
    FromLe(b[offset..offset + n])
  }

  lemma {:induction false} ReadBack(pre: Bytes, v: nat, n: nat, post: Bytes)
    requires v < Pow256(n)
    ensures Read(pre + Le(v, n) + post, |pre|, n) == v
  {
    var b := pre + Le(v, n) + post;
    assert b[|pre|..|pre| + n] == Le(v, n);
    FromLeOfLe(v, n);
  }

  // ----- the parser -----

  /** The outcome: the cores, or a read outside the buffer that the code would make. */
  datatype Parsed = Cores(cores: seq<Core>) | OutOfBounds

  /** The groups at `offset`: sixteen bytes each, the mask first and then the group number. */
  function ReadGroups(b: Bytes, offset: nat, n: nat): (g: seq<GroupMask>)
    requires offset + 16 * n <= |b|
    ensures |g| == n
  {
    if n == 0 then []
    else
      var at := offset + 16 * (n - 1);
      ReadGroups(b, offset, n - 1) + [GroupMask(Read(b, at + 8, 2), Read(b, at, 8))]
  }

  function LogicalCores(groups: seq<GroupMask>): nat {
    if groups == [] then 0 else LogicalCores(groups[..|groups| - 1]) + CountOnes(groups[|groups| - 1].mask)
  }

  /** The fixed part and as many groups as it announces lie inside the buffer. */
  predicate CoreFits(b: Bytes) {
    |b| >= 32 && 32 + 16 * Read(b, 30, 2) <= |b|
  }

  function ReadCore(b: Bytes): Core
    requires CoreFits(b)
  {
    var groups := ReadGroups(b, 32, Read(b, 30, 2));
    Core(b[9], b[8] % 2 == 1, LogicalCores(groups), groups)
  }

  function Prepend(c: Core, p: Parsed): Parsed {
    if p.OutOfBounds? then p else Cores([c] + p.cores)
  }

  /** What the loop makes of the bytes from some offset on. */
  function ParseBytes(b: Bytes): Parsed {
    if |b| < 8 then Cores([])
    else
      var size := Read(b, 4, 4);
      if size < 8 || size > |b| then Cores([])
      else if Read(b, 0, 4) != 0 then ParseBytes(b[size..])
      else if !CoreFits(b) then OutOfBounds
      else Prepend(ReadCore(b), ParseBytes(b[size..]))
  }

  /** The loop itself, over offsets into the buffer. */
  method ParseProcessorCores(buffer: Bytes) returns (r: Parsed)
    ensures r == ParseBytes(buffer)
  {
    var cores: seq<Core> := [];
    var offset := 0;
    while offset + 8 <= |buffer|
      invariant offset <= |buffer|
      invariant ParseBytes(buffer) == PrependAll(cores, ParseBytes(buffer[offset..]))
    {
      var b := buffer[offset..];
      var size := Read(b, 4, 4);
      if size < 8 || offset + size > |buffer| {
        break;
      }
      if Read(b, 0, 4) == 0 {
        if !CoreFits(b) {
          return OutOfBounds;
        }
        PrependOneMore(cores, ReadCore(b), ParseBytes(b[size..]));
        cores := cores + [ReadCore(b)];
      }
      assert b[size..] == buffer[offset + size..];
      offset := offset + size;
    }
    return Cores(cores);
  }

  function PrependAll(cs: seq<Core>, p: Parsed): Parsed {
    if p.OutOfBounds? then p else Cores(cs + p.cores)
  }

  lemma PrependOneMore(cs: seq<Core>, c: Core, p: Parsed)
    ensures PrependAll(cs, Prepend(c, p)) == PrependAll(cs + [c], p)
  {
    if p.Cores? {
      assert cs + ([c] + p.cores) == cs + [c] + p.cores;
    }
  }

  // ----- the encoding -----

  datatype Entry = Entry(mask: nat, group: nat, reserved: Bytes) {
    ghost predicate Valid() {
      mask < Pow256(8) && group < Pow256(2) && |reserved| == 6
    }
  }

  datatype Record =
    | CoreRecord(flags: nat, class_: nat, reserved: Bytes, entries: seq<Entry>, padding: Bytes)
    | OtherRecord(kind: nat, payload: Bytes)
  {
    ghost predicate Valid() {
      match this
      case CoreRecord(flags, class_, reserved, entries, padding) =>
        && flags < 256 && class_ < 256 && |reserved| == 20 && |entries| < Pow256(2)
        && 32 + 16 * |entries| + |padding| < Pow256(4)
        && forall i :: 0 <= i < |entries| ==> entries[i].Valid()
      case OtherRecord(kind, payload) => 0 < kind < Pow256(4) && 8 + |payload| < Pow256(4)
    }
  }

  function EncodeEntry(e: Entry): Bytes {
    Le(e.mask, 8) + Le(e.group, 2) + e.reserved
  }

  function EncodeEntries(es: seq<Entry>): Bytes {
    if es == [] then [] else EncodeEntries(es[..|es| - 1]) + EncodeEntry(es[|es| - 1])
  }

  /** Kind and size: eight bytes. */
  function Header(kind: nat, size: nat): (b: Bytes)
    ensures |b| == 8
  {
    Le(kind, 4) + Le(size, 4)
  }

  /** The fixed part of a core record after its header: flags, class, reserved, group count. */
  function Fixed(flags: nat, class_: nat, reserved: Bytes, count: nat): (b: Bytes)
    ensures |b| == |reserved| + 4
  {
    [flags, class_] + reserved + Le(count, 2)
  }

  function Size(r: Record): nat {
    match r
    case CoreRecord(_, _, _, entries, padding) => 32 + 16 * |entries| + |padding|
    case OtherRecord(_, payload) => 8 + |payload|
  }

  function Content(r: Record): Bytes {
    match r
    case CoreRecord(flags, class_, reserved, entries, padding) =>
      Fixed(flags, class_, reserved, |entries|) + EncodeEntries(entries) + padding
    case OtherRecord(_, payload) => payload
  }

  function Encode(r: Record): Bytes {
    Header(if r.CoreRecord? then 0 else r.kind, Size(r)) + Content(r)
  }

  function EncodeAll(rs: seq<Record>): Bytes {
    if rs == [] then [] else Encode(rs[0]) + EncodeAll(rs[1..])
  }

  function GroupsOf(es: seq<Entry>): seq<GroupMask> {
    seq(|es|, i requires 0 <= i < |es| => GroupMask(es[i].group, es[i].mask))
  }

  /** The core that a record describes, if any, and those that a list of records describes. */
  function DescribedBy(r: Record): seq<Core> {
    match r
    case CoreRecord(flags, class_, _, entries, _) =>
      [Core(class_, flags % 2 == 1, LogicalCores(GroupsOf(entries)), GroupsOf(entries))]
    case OtherRecord(_, _) => []
  }

  function Described(rs: seq<Record>): seq<Core> {
    if rs == [] then [] else DescribedBy(rs[0]) + Described(rs[1..])
  }

  // ----- parsing what was encoded -----

  lemma {:induction false} EntriesLength(es: seq<Entry>)
    requires forall i :: 0 <= i < |es| ==> es[i].Valid()
    ensures |EncodeEntries(es)| == 16 * |es|
  {
    if es != [] {
      EntriesLength(es[..|es| - 1]);
      assert es[|es| - 1].Valid();
    }
  }

  lemma {:induction false} GroupsReadBack(pre: Bytes, es: seq<Entry>, post: Bytes)
    requires forall i :: 0 <= i < |es| ==> es[i].Valid()
    ensures |EncodeEntries(es)| == 16 * |es|
    ensures ReadGroups(pre + EncodeEntries(es) + post, |pre|, |es|) == GroupsOf(es)
  {
    EntriesLength(es);
    if es != [] {
      var init, last := es[..|es| - 1], es[|es| - 1];
      EntriesLength(init);
      var b := pre + EncodeEntries(es) + post;
      assert b == pre + EncodeEntries(init) + (EncodeEntry(last) + post);
      GroupsReadBack(pre, init, EncodeEntry(last) + post);
      var at := pre + EncodeEntries(init);
      assert last.Valid();
      assert b == at + Le(last.mask, 8) + (Le(last.group, 2) + last.reserved + post);
      ReadBack(at, last.mask, 8, Le(last.group, 2) + last.reserved + post);
      assert b == (at + Le(last.mask, 8)) + Le(last.group, 2) + (last.reserved + post);
      ReadBack(at + Le(last.mask, 8), last.group, 2, last.reserved + post);
      assert GroupsOf(es) == GroupsOf(init) + [GroupMask(last.group, last.mask)];
    }
  }

  lemma Powers()
    ensures Pow256(2) == 0x1_0000 && Pow256(4) == 0x1_0000_0000
  {
    assert Pow256(1) == 256;
    assert Pow256(3) == 256 * Pow256(2);
  }

  /** The first eight bytes of a record: its kind and its size. */
  lemma HeaderReadsBack(kind: nat, size: nat, tail: Bytes)
    requires kind < Pow256(4) && size < Pow256(4)
    ensures Read(Header(kind, size) + tail, 0, 4) == kind && Read(Header(kind, size) + tail, 4, 4) == size
  {
    assert Header(kind, size) + tail == [] + Le(kind, 4) + (Le(size, 4) + tail);
    ReadBack([], kind, 4, Le(size, 4) + tail);
    assert Header(kind, size) + tail == Le(kind, 4) + Le(size, 4) + tail;
    ReadBack(Le(kind, 4), size, 4, tail);
  }

  // ----- any records -----

  /** A record as the parser meets it: a kind and any content behind the header. */
  datatype Raw = Raw(kind: nat, content: Bytes) {
    ghost predicate Valid() {
      kind < Pow256(4) && 8 + |content| < Pow256(4)
    }
  }

  function EncodeRaw(r: Raw): Bytes {
    Header(r.kind, 8 + |r.content|) + r.content
  }

  function EncodeRaws(rs: seq<Raw>): Bytes {
    if rs == [] then [] else EncodeRaw(rs[0]) + EncodeRaws(rs[1..])
  }

  /** The fixed part and as many groups as it announces lie inside these bytes. */
  predicate FitsIn(t: Bytes) {
    |t| >= 24 && 24 + 16 * Read(t, 22, 2) <= |t|
  }

  /** The record is not a core record, or its announced groups lie inside it. */
  predicate Fits(r: Raw) {
    r.kind == 0 ==> FitsIn(r.content)
  }

  function CoreWith(t: Bytes, n: nat): Core
    requires 24 + 16 * n <= |t|
  {
    var groups := ReadGroups(t, 24, n);
    Core(t[1], t[0] % 2 == 1, LogicalCores(groups), groups)
  }

  /** How many whole groups a record holds of those that it announces. */
  function Held(t: Bytes): (n: nat)
    requires |t| >= 24
    ensures 24 + 16 * n <= |t|
    ensures n == Read(t, 22, 2) <==> FitsIn(t)
  {
    if FitsIn(t) then Read(t, 22, 2) else (|t| - 24) / 16
  }

  /** The cores that records describe by their own bytes; one without a whole fixed part
      describes none. */
  function RawDescribes(r: Raw): seq<Core> {
    if r.kind != 0 || |r.content| < 24 then [] else [CoreWith(r.content, Held(r.content))]
  }

  function RawDescribed(rs: seq<Raw>): seq<Core> {
    if rs == [] then [] else RawDescribes(rs[0]) + RawDescribed(rs[1..])
  }

  /** Bytes at which the loop stops: too few for a header, or a size that does not fit. */
  predicate Stops(b: Bytes) {
    |b| < 8 || Read(b, 4, 4) < 8 || Read(b, 4, 4) > |b|
  }

  lemma {:induction false} ReadInside(pre: Bytes, t: Bytes, post: Bytes, offset: nat, n: nat, b: Bytes)
    requires b == pre + t + post && offset + n <= |t|
    ensures Read(b, |pre| + offset, n) == Read(t, offset, n)
  {
    assert b[|pre| + offset..|pre| + offset + n] == t[offset..offset + n];
  }

  lemma {:induction false} GroupsInside(pre: Bytes, t: Bytes, post: Bytes, offset: nat, n: nat, b: Bytes)
    requires b == pre + t + post && offset + 16 * n <= |t|
    ensures ReadGroups(b, |pre| + offset, n) == ReadGroups(t, offset, n)
  {
    if n > 0 {
      var at := offset + 16 * (n - 1);
      GroupsInside(pre, t, post, offset, n - 1, b);
      ReadInside(pre, t, post, at + 8, 2, b);
      ReadInside(pre, t, post, at, 8, b);
    }
  }

  /** Behind a header of eight bytes the parser looks at `t` only as far as it announces. */
  lemma {:induction false} CoreOfContent(head: Bytes, t: Bytes, post: Bytes, b: Bytes)
    requires |head| == 8 && b == head + t + post && FitsIn(t)
    ensures CoreFits(b) && ReadCore(b) == CoreWith(t, Read(t, 22, 2))
  {
    ReadInside(head, t, post, 22, 2, b);
    GroupsInside(head, t, post, 24, Read(t, 22, 2), b);
    assert b[8] == t[0] && b[9] == t[1];
  }

  lemma {:induction false} FitsBehindHeader(head: Bytes, t: Bytes, b: Bytes)
    requires |head| == 8 && b == head + t
    ensures CoreFits(b) <==> FitsIn(t)
  {
    if |t| >= 24 {
      assert b == head + t + [];
      ReadInside(head, t, [], 22, 2, b);
    }
  }

  lemma RawHeader(r: Raw, rest: Bytes, b: Bytes)
    requires r.Valid() && b == EncodeRaw(r) + rest
    ensures var size := 8 + |r.content|;
            size <= |b| && b[size..] == rest && Read(b, 0, 4) == r.kind && Read(b, 4, 4) == size
  {
    assert b == Header(r.kind, 8 + |r.content|) + (r.content + rest);
    HeaderReadsBack(r.kind, 8 + |r.content|, r.content + rest);
  }

  /** One step of the parser over an encoded record. */
  lemma {:induction false} RawParses(r: Raw, rest: Bytes, b: Bytes)
    requires r.Valid() && b == EncodeRaw(r) + rest
    ensures r.kind == 0 ==> (CoreFits(b) <==> FitsIn(r.content + rest))
    ensures ParseBytes(b) == if r.kind != 0 then ParseBytes(rest)
                             else if !CoreFits(b) then OutOfBounds
                             else Prepend(ReadCore(b), ParseBytes(rest))
  {
    RawHeader(r, rest, b);
    var head := Header(r.kind, 8 + |r.content|);
    assert b == head + (r.content + rest);
    FitsBehindHeader(head, r.content + rest, b);
  }

  lemma {:induction false} StoppedParse(b: Bytes)
    requires Stops(b)
    ensures ParseBytes(b) == Cores([])
  {
  }

  function CountCores(rs: seq<Raw>): nat {
    if rs == [] then 0 else (if rs[0].kind == 0 then 1 else 0) + CountCores(rs[1..])
  }

  lemma {:induction false} DescribedAtMost(rs: seq<Raw>)
    ensures |RawDescribed(rs)| <= CountCores(rs)
  {
    if rs != [] {
      DescribedAtMost(rs[1..]);
    }
  }

  ghost predicate AllValid(rs: seq<Raw>) {
    forall i :: 0 <= i < |rs| ==> rs[i].Valid()
  }

  lemma {:induction false} ParsedCount(rs: seq<Raw>, stray: Bytes, b: Bytes)
    requires AllValid(rs) && Stops(stray) && b == EncodeRaws(rs) + stray
    ensures var p := ParseBytes(b); p.Cores? ==> |p.cores| == CountCores(rs)
  {
    if rs == [] {
      assert b == stray;
      StoppedParse(stray);
    } else {
      var rest := EncodeRaws(rs[1..]) + stray;
      assert b == EncodeRaw(rs[0]) + rest;
      ParsedCount(rs[1..], stray, rest);
      RawParses(rs[0], rest, b);
    }
  }

  ghost predicate AllFit(rs: seq<Raw>) {
    forall i :: 0 <= i < |rs| ==> Fits(rs[i])
  }

  /** The parser returns what the records describe if and only if every announced group count
      fits its own record. A count that passes the record's end takes the groups from whatever
      follows. */
  lemma {:induction false} ParsedIffFits(rs: seq<Raw>, stray: Bytes, b: Bytes)
    requires AllValid(rs) && Stops(stray) && b == EncodeRaws(rs) + stray
    ensures ParseBytes(b) == Cores(RawDescribed(rs)) <==> AllFit(rs)
  {
    if rs == [] {
      assert b == stray;
      StoppedParse(stray);
    } else {
      var r, rest := rs[0], EncodeRaws(rs[1..]) + stray;
      assert b == EncodeRaw(r) + rest;
      ParsedIffFits(rs[1..], stray, rest);
      AllFitSplit(rs);
      if Fits(r) {
        FittingParses(r, rest, b);
        SameTail(RawDescribes(r), ParseBytes(rest), RawDescribed(rs[1..]));
      } else {
        MisfitParses(rs, stray, rest, b);
      }
    }
  }

  lemma AllFitSplit(rs: seq<Raw>)
    requires rs != []
    ensures AllFit(rs) <==> Fits(rs[0]) && AllFit(rs[1..])
  {
    if Fits(rs[0]) && AllFit(rs[1..]) {
      forall i | 0 <= i < |rs| ensures Fits(rs[i]) {
        assert i > 0 ==> rs[i] == rs[1..][i - 1];
      }
    }
  }

  lemma SameTail(cs: seq<Core>, p: Parsed, ds: seq<Core>)
    ensures PrependAll(cs, p) == Cores(cs + ds) <==> p == Cores(ds)
  {
    if p.Cores? && cs + p.cores == cs + ds {
      assert p.cores == (cs + p.cores)[|cs|..] && ds == (cs + ds)[|cs|..];
    }
  }

  lemma {:induction false} FittingParses(r: Raw, rest: Bytes, b: Bytes)
    requires r.Valid() && Fits(r) && b == EncodeRaw(r) + rest
    ensures ParseBytes(b) == PrependAll(RawDescribes(r), ParseBytes(rest))
  {
    RawParses(r, rest, b);
    if r.kind == 0 {
      var head := Header(r.kind, 8 + |r.content|);
      assert b == head + r.content + rest;
      CoreOfContent(head, r.content, rest, b);
    } else {
      PrependNothing(ParseBytes(rest));
    }
  }

  /** A core record whose groups do not fit is read as a core that it does not describe. */
  lemma {:induction false} MisfitParses(rs: seq<Raw>, stray: Bytes, rest: Bytes, b: Bytes)
    requires AllValid(rs) && Stops(stray) && rs != [] && !Fits(rs[0])
    requires rest == EncodeRaws(rs[1..]) + stray && b == EncodeRaw(rs[0]) + rest
    ensures ParseBytes(b) != Cores(RawDescribed(rs))
  {
    var r := rs[0];
    RawParses(r, rest, b);
    if CoreFits(b) && ParseBytes(rest).Cores? {
      if |r.content| < 24 {
        ParsedCount(rs[1..], stray, rest);
        DescribedAtMost(rs[1..]);
        assert RawDescribed(rs) == RawDescribed(rs[1..]);
      } else {
        MisfitCoreDiffers(r, rest, b);
        assert ParseBytes(b).cores[0] == ReadCore(b);
        assert RawDescribed(rs)[0] == RawDescribes(r)[0];
      }
    }
  }

  lemma {:induction false} MisfitCoreDiffers(r: Raw, rest: Bytes, b: Bytes)
    requires r.kind == 0 && |r.content| >= 24 && !Fits(r) && b == EncodeRaw(r) + rest && CoreFits(b)
    ensures RawDescribes(r) != [ReadCore(b)]
  {
    var head := Header(r.kind, 8 + |r.content|);
    assert b == head + r.content + rest;
    ReadInside(head, r.content, rest, 22, 2, b);
    assert |ReadCore(b).groups| == Read(r.content, 22, 2);
    assert |CoreWith(r.content, Held(r.content)).groups| == Held(r.content);
  }

  /** The groups that record `i` announces pass the end of the buffer. */
  ghost predicate Leaves(rs: seq<Raw>, stray: Bytes, i: nat)
    requires i < |rs|
  {
    rs[i].kind == 0 && !FitsIn(rs[i].content + (EncodeRaws(rs[i + 1..]) + stray))
  }

  /** The parser leaves the buffer if and only if some core record announces groups past the end
      of the buffer. */
  lemma {:induction false} LeavesBufferIff(rs: seq<Raw>, stray: Bytes, b: Bytes)
    requires AllValid(rs) && Stops(stray) && b == EncodeRaws(rs) + stray
    ensures ParseBytes(b) == OutOfBounds <==> exists i :: 0 <= i < |rs| && Leaves(rs, stray, i)
  {
    if rs == [] {
      assert b == stray;
      StoppedParse(stray);
    } else {
      var rest := EncodeRaws(rs[1..]) + stray;
      assert b == EncodeRaw(rs[0]) + rest;
      LeavesBufferIff(rs[1..], stray, rest);
      RawParses(rs[0], rest, b);
      LeavesSplit(rs, stray);
    }
  }

  lemma LeavesSplit(rs: seq<Raw>, stray: Bytes)
    requires rs != []
    ensures (exists i :: 0 <= i < |rs| && Leaves(rs, stray, i))
            <==> Leaves(rs, stray, 0) || exists i :: 0 <= i < |rs[1..]| && Leaves(rs[1..], stray, i)
  {
    forall i | 0 < i < |rs| ensures Leaves(rs, stray, i) <==> Leaves(rs[1..], stray, i - 1) {
      assert rs[1..][i - 1] == rs[i] && rs[1..][i..] == rs[i + 1..];
    }
    if i :| 0 <= i < |rs[1..]| && Leaves(rs[1..], stray, i) {
      assert Leaves(rs, stray, i + 1);
    }
  }

  // ----- every buffer -----

  ghost predicate AreBytes(b: Bytes) {
    forall i :: 0 <= i < |b| ==> b[i] < 256
  }

  lemma {:induction false} LeOfFromLe(b: Bytes)
    requires AreBytes(b)
    ensures FromLe(b) < Pow256(|b|) && Le(FromLe(b), |b|) == b
  {
    if b != [] {
      LeOfFromLe(b[1..]);
      LowByte(b[0], FromLe(b[1..]));
    }
  }

  lemma LowByte(low: nat, high: nat)
    requires low < 256
    ensures (low + 256 * high) % 256 == low && (low + 256 * high) / 256 == high
  {
  }

  lemma {:induction false} RecordInFront(b: Bytes, size: nat)
    requires AreBytes(b) && !Stops(b) && size == Read(b, 4, 4)
    ensures var r := Raw(Read(b, 0, 4), b[8..size]); r.Valid() && EncodeRaw(r) == b[..size]
  {
    HeaderOfBytes(b[0..4], b[4..8]);
    assert b[..size] == b[0..4] + b[4..8] + b[8..size];
  }

  lemma {:induction false} HeaderOfBytes(kind: Bytes, size: Bytes)
    requires AreBytes(kind) && AreBytes(size) && |kind| == |size| == 4
    ensures FromLe(kind) < Pow256(4) && FromLe(size) < Pow256(4)
    ensures Header(FromLe(kind), FromLe(size)) == kind + size
  {
    LeOfFromLe(kind);
    LeOfFromLe(size);
  }

  /** Every buffer of bytes is records and a rest at which the loop stops, so the two conditions
      above are about every buffer. */
  lemma {:induction false} EveryBufferIsRecords(b: Bytes) returns (rs: seq<Raw>, stray: Bytes)
    requires AreBytes(b)
    ensures AllValid(rs) && Stops(stray) && b == EncodeRaws(rs) + stray
    decreases |b|
  {
    if Stops(b) {
      rs, stray := [], b;
    } else {
      var size := Read(b, 4, 4);
      var tail;
      tail, stray := EveryBufferIsRecords(b[size..]);
      var r := Raw(Read(b, 0, 4), b[8..size]);
      rs := [r] + tail;
      RecordInFront(b, size);
      assert rs[1..] == tail;
      assert b == b[..size] + b[size..];
    }
  }

  // ----- the two ways to fail -----

  /** A core record that is nothing but a header makes the parser leave the buffer. */
  lemma BareHeaderLeaves()
    ensures ParseBytes(EncodeRaws([Raw(0, [])]) + []) == OutOfBounds
  {
    Powers();
    var rs := [Raw(0, [])];
    assert EncodeRaws(rs[1..]) == [];
    assert Leaves(rs, [], 0);
    LeavesBufferIff(rs, [], EncodeRaws(rs) + []);
  }

  /** A fixed part that announces `count` groups. */
  function FixedPart(count: nat): (t: Bytes)
    ensures |t| == 24
  {
    seq(22, _ => 0) + [count, 0]
  }

  lemma FixedPartAnnounces(count: nat)
    ensures Read(FixedPart(count), 22, 2) == count
  {
    assert FixedPart(count)[22..24] == [count, 0];
    assert [count, 0][1..] == [0] && [0][1..] == [];
    assert FromLe([0]) == 0 + 256 * FromLe([]);
    assert FromLe([count, 0]) == count + 256 * FromLe([0]);
  }

  /** A core record that announces one group and holds none, in front of another: the parser
      stays inside the buffer and takes the second record's header for the group. */
  lemma NeighbourIsRead()
    ensures var rs := [Raw(0, FixedPart(1)), Raw(0, FixedPart(0))];
            var p := ParseBytes(EncodeRaws(rs) + []);
            p.Cores? && p != Cores(RawDescribed(rs))
  {
    Powers();
    var r0, r1 := Raw(0, FixedPart(1)), Raw(0, FixedPart(0));
    FixedPartAnnounces(1);
    TwoRecordsStay(r0, r1) by {
      FixedPartAnnounces(0);
      FitsBefore(r0.content, EncodeRaw(r1));
      FitsBefore(r1.content, []);
    }
    ParsedIffFits([r0, r1], [], EncodeRaws([r0, r1]) + []);
    assert !Fits([r0, r1][0]);
  }

  lemma {:induction false} FitsBefore(t: Bytes, rest: Bytes)
    requires |t| >= 24 && 24 + 16 * Read(t, 22, 2) <= |t| + |rest|
    ensures FitsIn(t + rest)
  {
    assert t + rest == [] + t + rest;
    ReadInside([], t, rest, 22, 2, t + rest);
  }

  lemma TwoRecordsStay(r0: Raw, r1: Raw)
    requires r0.Valid() && r1.Valid() && FitsIn(r0.content + EncodeRaw(r1)) && FitsIn(r1.content + [])
    ensures ParseBytes(EncodeRaws([r0, r1]) + []).Cores?
  {
    var rs := [r0, r1];
    assert rs[1..] == [r1] && [r1][1..] == [] && EncodeRaws([]) == [];
    assert EncodeRaws([r1]) == EncodeRaw(r1) + [] == EncodeRaw(r1);
    var b, rest := EncodeRaws(rs) + [], EncodeRaw(r1);
    assert b == EncodeRaw(r0) + rest;
    RawParses(r0, rest, b);
    assert rest == EncodeRaw(r1) + [];
    RawParses(r1, [], rest);
    StoppedParse([]);
  }

  // ----- well-formed records -----

  /** The part of a core record that the parser looks at, in front of anything. */
  lemma {:induction false} CoreReadsBack(head: Bytes, flags: nat, class_: nat, reserved: Bytes, entries: seq<Entry>,
                                         post: Bytes)
    requires |head| == 8 && |reserved| == 20 && |entries| < Pow256(2)
    requires forall i :: 0 <= i < |entries| ==> entries[i].Valid()
    ensures var b := head + Fixed(flags, class_, reserved, |entries|) + EncodeEntries(entries) + post;
            && CoreFits(b)
            && ReadCore(b) == Core(class_, flags % 2 == 1, LogicalCores(GroupsOf(entries)), GroupsOf(entries))
  {
    var fixed := Fixed(flags, class_, reserved, |entries|);
    var tail := EncodeEntries(entries) + post;
    var b := head + fixed + EncodeEntries(entries) + post;
    assert b == head + fixed + tail;
    EntriesLength(entries);
    CountReadsBack(head, flags, class_, reserved, |entries|, tail);
    assert ReadGroups(b, 32, |entries|) == GroupsOf(entries) by { GroupsReadBack(head + fixed, entries, post); }
    CoreOfParts(b, flags, class_, |entries|, GroupsOf(entries));
  }

  lemma {:induction false} CoreOfParts(b: Bytes, flags: nat, class_: nat, count: nat, groups: seq<GroupMask>)
    requires |b| >= 32 + 16 * count && b[8] == flags && b[9] == class_
    requires Read(b, 30, 2) == count && ReadGroups(b, 32, count) == groups
    ensures CoreFits(b) && ReadCore(b) == Core(class_, flags % 2 == 1, LogicalCores(groups), groups)
  {
  }

  lemma CountReadsBack(head: Bytes, flags: nat, class_: nat, reserved: Bytes, count: nat, tail: Bytes)
    requires |head| == 8 && |reserved| == 20 && count < Pow256(2)
    ensures var b := head + Fixed(flags, class_, reserved, count) + tail;
            b[8] == flags && b[9] == class_ && Read(b, 30, 2) == count
  {
    var b := head + Fixed(flags, class_, reserved, count) + tail;
    var pre := head + [flags, class_] + reserved;
    assert b == pre + Le(count, 2) + tail;
    ReadBack(pre, count, 2, tail);
  }

  function ToRaw(r: Record): Raw {
    Raw(if r.CoreRecord? then 0 else r.kind, Content(r))
  }

  function ToRaws(rs: seq<Record>): seq<Raw> {
    if rs == [] then [] else [ToRaw(rs[0])] + ToRaws(rs[1..])
  }

  lemma {:induction false} WellFormedEncodes(r: Record)
    requires r.Valid()
    ensures ToRaw(r).Valid() && EncodeRaw(ToRaw(r)) == Encode(r)
  {
    ContentLength(r);
    SameHeader(if r.CoreRecord? then 0 else r.kind, Content(r), Size(r));
  }

  lemma SameHeader(kind: nat, content: Bytes, size: nat)
    requires |content| == size - 8 && kind < Pow256(4) && size < Pow256(4)
    ensures Raw(kind, content).Valid() && EncodeRaw(Raw(kind, content)) == Header(kind, size) + content
  {
  }

  /** A well-formed record fits, and its bytes describe what it describes. */
  lemma {:induction false} WellFormedFits(r: Record)
    requires r.Valid()
    ensures Fits(ToRaw(r)) && RawDescribes(ToRaw(r)) == DescribedBy(r)
  {
    if r.CoreRecord? {
      var t := Content(r);
      ContentDescribes(r, Header(0, Size(r)), t);
      assert Held(t) == Read(t, 22, 2);
    }
  }

  lemma {:induction false} ContentDescribes(r: Record, head: Bytes, t: Bytes)
    requires r.CoreRecord? && r.Valid() && |head| == 8 && t == Content(r)
    ensures FitsIn(t) && [CoreWith(t, Read(t, 22, 2))] == DescribedBy(r)
  {
    var b := head + t;
    CoreIsRead(r, head, b);
    FitsBehindHeader(head, t, b);
    assert b == head + t + [];
    CoreOfContent(head, t, [], b);
  }

  lemma {:induction false} CoreIsRead(r: Record, head: Bytes, b: Bytes)
    requires r.CoreRecord? && r.Valid() && |head| == 8 && b == head + Content(r)
    ensures CoreFits(b) && [ReadCore(b)] == DescribedBy(r)
  {
    assert b == head + Fixed(r.flags, r.class_, r.reserved, |r.entries|) + EncodeEntries(r.entries) + r.padding;
    CoreReadsBack(head, r.flags, r.class_, r.reserved, r.entries, r.padding);
  }

  lemma ContentLength(r: Record)
    requires r.Valid()
    ensures |Content(r)| == Size(r) - 8
  {
    if r.CoreRecord? {
      EntriesLength(r.entries);
    }
  }

  lemma {:induction false} WellFormedRecords(rs: seq<Record>)
    requires forall i :: 0 <= i < |rs| ==> rs[i].Valid()
    ensures AllValid(ToRaws(rs)) && AllFit(ToRaws(rs))
    ensures EncodeRaws(ToRaws(rs)) == EncodeAll(rs) && RawDescribed(ToRaws(rs)) == Described(rs)
  {
    if rs != [] {
      WellFormedRecords(rs[1..]);
      WellFormedEncodes(rs[0]);
      WellFormedFits(rs[0]);
      assert ToRaws(rs)[1..] == ToRaws(rs[1..]);
      AllFitSplit(ToRaws(rs));
      forall i | 0 <= i < |ToRaws(rs)| ensures ToRaws(rs)[i].Valid() {
        assert i > 0 ==> ToRaws(rs)[i] == ToRaws(rs[1..])[i - 1];
      }
    }
  }

  lemma PrependNothing(p: Parsed)
    ensures PrependAll([], p) == p
  {
    assert p.Cores? ==> [] + p.cores == p.cores;
  }

  /** Round trip: parsing the encodings of any records, cores mixed with kinds to skip, ends and
      returns exactly the cores described, in order; a rest at which the loop stops, such as
      fewer than eight stray bytes, makes no difference. */
  lemma {:induction false} RecordsRoundTrip(rs: seq<Record>, stray: Bytes)
    requires (forall i :: 0 <= i < |rs| ==> rs[i].Valid()) && Stops(stray)
    ensures ParseBytes(EncodeAll(rs) + stray) == Cores(Described(rs))
  {
    WellFormedRecords(rs);
    ParsedIffFits(ToRaws(rs), stray, EncodeAll(rs) + stray);
  }

  // ----- from the buffer to the mask -----

  /** Group `g` of a record's content names processor `i` of processor group 0. */
  predicate NamesProcessor(t: Bytes, g: nat, i: nat)
    requires 24 + 16 * (g + 1) <= |t|
  {
    Read(t, 24 + 16 * g + 8, 2) == 0 && Bit(Read(t, 24 + 16 * g, 8), i)
  }

  ghost predicate OwnsProcessor(t: Bytes, i: nat) {
    FitsIn(t) && exists g: nat :: g < Read(t, 22, 2) && NamesProcessor(t, g, i)
  }

  lemma {:induction false} GroupAt(t: Bytes, n: nat, g: nat)
    requires 24 + 16 * n <= |t| && g < n
    ensures ReadGroups(t, 24, n)[g] == GroupMask(Read(t, 24 + 16 * g + 8, 2), Read(t, 24 + 16 * g, 8))
  {
    if g < n - 1 {
      GroupAt(t, n - 1, g);
    }
  }

  lemma {:induction false} OwnerIff(t: Bytes, i: nat)
    requires FitsIn(t)
    ensures Owns(CoreWith(t, Read(t, 22, 2)), i) <==> OwnsProcessor(t, i)
  {
    var n := Read(t, 22, 2);
    var groups := ReadGroups(t, 24, n);
    forall g: nat | g < n ensures groups[g].group == 0 && Bit(groups[g].mask, i) <==> NamesProcessor(t, g, i) {
      GroupAt(t, n, g);
    }
  }

  ghost predicate IsCore(rs: seq<Raw>, k: int) {
    0 <= k < |rs| && rs[k].kind == 0 && |rs[k].content| >= 24
  }

  /** The described cores are those of the core records, one for one. */
  lemma {:induction false} DescribedCores(rs: seq<Raw>, c: Core)
    ensures c in RawDescribed(rs) <==>
            exists k :: IsCore(rs, k) && c == CoreWith(rs[k].content, Held(rs[k].content))
  {
    if rs != [] {
      DescribedCores(rs[1..], c);
      assert RawDescribed(rs) == RawDescribes(rs[0]) + RawDescribed(rs[1..]);
      if k :| IsCore(rs[1..], k) && c == CoreWith(rs[1..][k].content, Held(rs[1..][k].content)) {
        assert IsCore(rs, k + 1) && rs[k + 1] == rs[1..][k];
      }
      if k :| IsCore(rs, k) && c == CoreWith(rs[k].content, Held(rs[k].content)) {
        if k > 0 {
          assert IsCore(rs[1..], k - 1) && rs[1..][k - 1] == rs[k];
        }
      }
    }
  }

  /** A core record of the class owns processor `i` of group 0. */
  ghost predicate ClassOwns(rs: seq<Raw>, class_: nat, i: nat) {
    exists k :: IsCore(rs, k) && rs[k].content[1] == class_ && OwnsProcessor(rs[k].content, i)
  }

  lemma {:induction false} CoresOwnLikeRecords(rs: seq<Raw>, class_: nat, i: nat)
    requires AllFit(rs)
    ensures var cores := RawDescribed(rs);
            (exists k :: 0 <= k < |cores| && cores[k].efficiencyClass == class_ && Owns(cores[k], i))
            <==> ClassOwns(rs, class_, i)
  {
    var cores := RawDescribed(rs);
    if k :| 0 <= k < |cores| && cores[k].efficiencyClass == class_ && Owns(cores[k], i) {
      DescribedCores(rs, cores[k]);
      var j :| IsCore(rs, j) && cores[k] == CoreWith(rs[j].content, Held(rs[j].content));
      OwnerIff(rs[j].content, i);
    }
    if j :| IsCore(rs, j) && rs[j].content[1] == class_ && OwnsProcessor(rs[j].content, i) {
      var c := CoreWith(rs[j].content, Held(rs[j].content));
      DescribedCores(rs, c);
      OwnerIff(rs[j].content, i);
      var k :| 0 <= k < |cores| && cores[k] == c;
    }
  }

  /** The class is the highest among the core records. */
  ghost predicate HighestClass(rs: seq<Raw>, class_: nat) {
    && (exists k :: IsCore(rs, k) && rs[k].content[1] == class_)
    && forall k :: IsCore(rs, k) ==> rs[k].content[1] <= class_
  }

  lemma {:induction false} HighestIsMaxClass(rs: seq<Raw>, class_: nat)
    requires HighestClass(rs, class_)
    ensures MaxClass(RawDescribed(rs)) == class_
  {
    var cores := RawDescribed(rs);
    var j :| IsCore(rs, j) && rs[j].content[1] == class_;
    DescribedCores(rs, CoreWith(rs[j].content, Held(rs[j].content)));
    forall k | 0 <= k < |cores| ensures cores[k].efficiencyClass <= class_ {
      DescribedCores(rs, cores[k]);
    }
    MaxClassIsMax(cores, class_);
  }

  /** From the bytes to the mask: for every buffer whose core records fit, bit `i` of the mask that
      the parsed cores give is set if and only if a record of the highest class names processor
      `i` of group 0. */
  lemma {:induction false} MaskOfBuffer(rs: seq<Raw>, stray: Bytes, b: Bytes, class_: nat, i: nat)
    requires AllValid(rs) && Stops(stray) && b == EncodeRaws(rs) + stray && AllFit(rs) && HighestClass(rs, class_)
    ensures ParseBytes(b).Cores?
    ensures var cores := ParseBytes(b).cores;
            Bit(OrAll(ClassMasks(cores, MaxClass(cores))), i) <==> ClassOwns(rs, class_, i)
  {
    ParsedIffFits(rs, stray, b);
    HighestIsMaxClass(rs, class_);
    AffinityMaskExact(RawDescribed(rs), i);
    CoresOwnLikeRecords(rs, class_, i);
  }

  lemma {:induction false} ParsedClasses(b: Bytes)
    requires AreBytes(b)
    ensures var p := ParseBytes(b);
            p.Cores? ==> forall k :: 0 <= k < |p.cores| ==> p.cores[k].efficiencyClass <= 255
  {
    if !Stops(b) {
      ParsedClasses(b[Read(b, 4, 4)..]);
    }
  }

  /** Parse and evaluate; nothing is detected when the parser would leave the buffer. */
  method DetectTopology(buffer: Bytes) returns (t: Option<Topology>)
    requires AreBytes(buffer)
    ensures t.None? <==> ParseBytes(buffer) == OutOfBounds
    ensures t.Some? ==>
              var cores := ParseBytes(buffer).cores;
              && t.value.physical == |cores| && (t.value.isHybrid <==> Hybrid(cores))
              && t.value.mask == var m := OrAll(ClassMasks(cores, MaxClass(cores)));
                                 if Hybrid(cores) && m != 0 then Some(m) else None
  {
    var parsed := ParseProcessorCores(buffer);
    if parsed.OutOfBounds? {
      return None;
    }
    ParsedClasses(buffer);
    var topology := EvaluateTopology(parsed.cores);
    return Some(topology);
  }

  /** The logical processors of a core are the bits of its masks, group by group. */
  lemma {:induction false} LogicalCoresAreBits(groups: seq<GroupMask>, g: GroupMask, n: nat)
    requires g.mask < Pow2(n)
    ensures LogicalCores([]) == 0
    ensures LogicalCores(groups + [g]) == LogicalCores(groups) + |Positions(g.mask, n)|
  {
    assert (groups + [g])[..|groups|] == groups;
    CountOnesIsPositions(g.mask, n);
  }
}
