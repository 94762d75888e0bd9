/** Power-scheme GUIDs: the hyphenated text form and its tolerant parser. */
module Guids {
  import opened Options
  import opened Hex
  import opened Modular

  const U16: nat := 0x1_0000
  const U32: nat := 0x1_0000_0000
  const U48: nat := 0x1_0000_0000_0000
  const U64: nat := 0x1_0000_0000_0000_0000

  datatype Guid = Guid(data1: nat, data2: nat, data3: nat, data4: seq<nat>) {
    ghost predicate Valid() {
      && data1 < U32 && data2 < U16 && data3 < U16
      && |data4| == 8 && forall i :: 0 <= i < 8 ==> data4[i] < 256
    }
  }

  type ValidGuid = g: Guid | g.Valid() witness Guid(0, 0, 0, [0, 0, 0, 0, 0, 0, 0, 0])

  /** The widths of the five hyphenated groups. */
  const WIDTHS: seq<nat> := [8, 4, 4, 4, 12]

  /** The five groups of a GUID, as they are printed. */
  function Groups(g: Guid): (p: seq<string>)
    requires |g.data4| == 8
    ensures |p| == 5
  {
    [Digits(g.data1, 8), Digits(g.data2, 4), Digits(g.data3, 4), HexBytes(g.data4[..2]), HexBytes(g.data4[2..])]
  }

  function Join(p: seq<string>): string {
    if p == [] then "" else if |p| == 1 then p[0] else p[0] + "-" + Join(p[1..])
  }

  function Print(g: Guid): string
    requires |g.data4| == 8
  {
    Join(Groups(g))
  }

  /** Unicode White_Space, which `str::trim` removes. */
  predicate IsSpace(c: char) {
    || '\t' <= c <= '\r' || c == ' '
    || c == '\U{0085}' || c == '\U{00A0}' || c == '\U{1680}'
    || '\U{2000}' <= c <= '\U{200A}'
    || c == '\U{2028}' || c == '\U{2029}' || c == '\U{202F}' || c == '\U{205F}' || c == '\U{3000}'
  }

  /** These are the 25 code points of that property. */
  lemma SpacesAre(c: char)
    ensures IsSpace(c) <==>
            c as int in [9, 10, 11, 12, 13, 32, 133, 160, 5760, 8192, 8193, 8194, 8195, 8196, 8197, 8198, 8199,
                         8200, 8201, 8202, 8232, 8233, 8239, 8287, 12288]
  {
  }

  /** What one of the three trims removes. */
  datatype Trimmed = Space | OpenBrace | CloseBrace {
    predicate Has(c: char) {
      match this
      case Space => IsSpace(c)
      case OpenBrace => c == '{'
      case CloseBrace => c == '}'
    }
    predicate All(s: string) {
      forall i :: 0 <= i < |s| ==> Has(s[i])
    }
  }

  function TrimStart(t: Trimmed, s: string): string {
    if s != [] && t.Has(s[0]) then TrimStart(t, s[1..]) else s
  }

  function TrimEnd(t: Trimmed, s: string): string {
    if s != [] && t.Has(s[|s| - 1]) then TrimEnd(t, s[..|s| - 1]) else s
  }

  function Trim(t: Trimmed, s: string): string {
    TrimEnd(t, TrimStart(t, s))
  }

  /** trim().trim_matches('{').trim_matches('}') */
  function Clean(s: string): string {
    Trim(CloseBrace, Trim(OpenBrace, Trim(Space, s)))
  }

  function Split(s: string): (p: seq<string>)
    ensures p != []
  {
    if s == [] then [""]
    else
      var rest := Split(s[1..]);
      if s[0] == '-' then [""] + rest else [[s[0]] + rest[0]] + rest[1..]
  }

  /** The values of the groups, or None if one is missing, malformed or out of range. */
  function ParseGroups(p: seq<string>): Option<Guid> {
    if |p| != 5 then None else
    var d1, d2, d3 := ParseRadix16(p[0], U32), ParseRadix16(p[1], U16), ParseRadix16(p[2], U16);
    var p3, p4 := ParseRadix16(p[3], U16), ParseRadix16(p[4], U64);
    if d1.None? || d2.None? || d3.None? || p3.None? || p4.None? then None
    else Some(Guid(d1.value, d2.value, d3.value, Bytes(p3.value, 2) + Bytes(p4.value, 6)))
  }

  function Parse(s: string): (r: Option<Guid>)
    ensures r.Some? ==> r.value.Valid()
  {
    ParseGroups(Split(Clean(s)))
  }

  /** The parser as written: eight bytes filled one by one by shifting. */
  method StringToGuid(s: string) returns (r: Option<Guid>)
    ensures r == Parse(s)
  {
    var p := Split(Clean(s));
    if |p| != 5 {
      return None;
    }
    var d1, d2, d3 := ParseRadix16(p[0], U32), ParseRadix16(p[1], U16), ParseRadix16(p[2], U16);
    var p3, p4 := ParseRadix16(p[3], U16), ParseRadix16(p[4], U64);
    if d1.None? || d2.None? || d3.None? || p3.None? || p4.None? {
      return None;
    }
    var d4 := FillD4(p3.value, p4.value);
    return Some(Guid(d1.value, d2.value, d3.value, d4[..]));
  }

  method FillD4(p3: nat, p4: nat) returns (d4: array<nat>)
    requires p3 < U16
    ensures d4[..] == Bytes(p3, 2) + Bytes(p4, 6)
  {
    d4 := new nat[8](_ => 0);
    d4[0] := p3 / 256;
    d4[1] := p3 % 256;
    BytesAt(p3, 2, 0);
    BytesAt(p3, 2, 1);
    assert ShiftBytes(p3, 1) == p3 / 256;
    for i := 0 to 6
      invariant d4[0] == Bytes(p3, 2)[0] && d4[1] == Bytes(p3, 2)[1]
      invariant forall k :: 0 <= k < i ==> d4[2 + k] == Bytes(p4, 6)[k]
    {
      d4[2 + i] := ShiftBytes(p4, 5 - i) % 256;
      BytesAt(p4, 6, i);
    }
  }

  // ----- splitting and joining -----

  ghost predicate NoHyphen(s: string) {
    forall i :: 0 <= i < |s| ==> s[i] != '-'
  }

  lemma {:induction false} SplitPrefix(p: string, q: string)
    requires NoHyphen(p)
    ensures Split(p + "-" + q) == [p] + Split(q)
  {
    var s := p + "-" + q;
    if p == [] {
      assert s[1..] == q;
    } else {
      assert s[1..] == p[1..] + "-" + q;
      SplitPrefix(p[1..], q);
      assert [s[0]] + p[1..] == p;
    }
  }

  lemma {:induction false} SplitWhole(p: string)
    requires NoHyphen(p)
    ensures Split(p) == [p]
  {
    if p != [] {
      SplitWhole(p[1..]);
      assert [p[0]] + p[1..] == p;
    }
  }

  lemma {:induction false} SplitJoin(p: seq<string>)
    requires p != [] && forall i :: 0 <= i < |p| ==> NoHyphen(p[i])
    ensures Split(Join(p)) == p
  {
    if |p| == 1 {
      SplitWhole(p[0]);
    } else {
      SplitPrefix(p[0], Join(p[1..]));
      SplitJoin(p[1..]);
    }
  }

  lemma {:induction false} JoinSplit(s: string)
    ensures Join(Split(s)) == s
  {
    if s != [] {
      JoinSplit(s[1..]);
      var rest := Split(s[1..]);
      if s[0] == '-' {
        assert ([""] + rest)[1..] == rest;
        assert s == "" + "-" + s[1..];
      } else {
        assert ([[s[0]] + rest[0]] + rest[1..])[1..] == rest[1..];
        assert s == [s[0]] + s[1..];
      }
    }
  }

  // ----- trimming -----

  ghost predicate Bare(t: Trimmed, s: string) {
    s != [] && !t.Has(s[0]) && !t.Has(s[|s| - 1])
  }

  lemma {:induction false} TrimStartAway(t: Trimmed, pre: string, s: string)
    requires t.All(pre) && (s == [] || !t.Has(s[0]))
    ensures TrimStart(t, pre + s) == s
  {
    if pre == [] {
      assert pre + s == s;
    } else {
      assert (pre + s)[1..] == pre[1..] + s;
      TrimStartAway(t, pre[1..], s);
    }
  }

  lemma {:induction false} TrimEndAway(t: Trimmed, s: string, post: string)
    requires t.All(post) && (s == [] || !t.Has(s[|s| - 1]))
    ensures TrimEnd(t, s + post) == s
  {
    if post == [] {
      assert s + post == s;
    } else {
      var init := post[..|post| - 1];
      assert (s + post)[..|s + post| - 1] == s + init;
      TrimEndAway(t, s, init);
    }
  }

  lemma TrimAway(t: Trimmed, pre: string, s: string, post: string)
    requires t.All(pre) && t.All(post) && Bare(t, s)
    ensures Trim(t, pre + s + post) == s
  {
    assert pre + s + post == pre + (s + post);
    TrimStartAway(t, pre, s + post);
    TrimEndAway(t, s, post);
  }

  /** Whitespace outside, then any `{`, then any `}`, on either side, is ignored around text
      that begins and ends with none of them. */
  lemma CleanIgnoresWrapping(w: string, o: string, c: string, s: string, c': string, o': string, w': string)
    requires Space.All(w) && Space.All(w') && OpenBrace.All(o) && OpenBrace.All(o')
    requires CloseBrace.All(c) && CloseBrace.All(c')
    requires Bare(Space, s) && Bare(OpenBrace, s) && Bare(CloseBrace, s)
    ensures Clean(w + (o + (c + s + c') + o') + w') == s
  {
    var inner := c + s + c';
    var middle := o + inner + o';
    assert inner[0] == if c == [] then s[0] else c[0];
    assert inner[|inner| - 1] == if c' == [] then s[|s| - 1] else c'[|c'| - 1];
    assert middle[0] == if o == [] then inner[0] else o[0];
    assert middle[|middle| - 1] == if o' == [] then inner[|inner| - 1] else o'[|o'| - 1];
    TrimAway(Space, w, middle, w');
    TrimAway(OpenBrace, o, inner, o');
    TrimAway(CloseBrace, c, s, c');
  }

  // ----- the canonical form -----

  /** 8-4-4-4-12 lower-case hexadecimal digits. */
  ghost predicate IsCanonical(s: string) {
    CanonicalGroups(Split(s))
  }

  ghost predicate CanonicalGroups(p: seq<string>) {
    |p| == 5 && forall i :: 0 <= i < 5 ==> |p[i]| == WIDTHS[i] && AllLowerHex(p[i])
  }

  ghost predicate HexGroups(p: seq<string>) {
    p != [] && forall i :: 0 <= i < |p| ==> p[i] != [] && AllLowerHex(p[i])
  }

  lemma {:induction false} HexIsBare(p: seq<string>, t: Trimmed)
    requires HexGroups(p)
    ensures Bare(t, Join(p))
  {
    JoinEnds(p);
    var last := p[|p| - 1];
    assert IsLowerHex(p[0][0]) && IsLowerHex(last[|last| - 1]);
  }

  lemma {:induction false} CanonicalGroupsAreHex(s: string)
    requires IsCanonical(s)
    ensures HexGroups(Split(s)) && Join(Split(s)) == s
  {
    var p := Split(s);
    forall i | 0 <= i < |p| ensures p[i] != [] {
      assert |p[i]| == WIDTHS[i] > 0;
    }
    JoinSplit(s);
  }

  lemma CanonicalIsBare(s: string, t: Trimmed)
    requires IsCanonical(s)
    ensures Bare(t, s)
  {
    CanonicalGroupsAreHex(s);
    HexIsBare(Split(s), t);
  }

  lemma {:induction false} JoinEnds(p: seq<string>)
    requires p != [] && p[0] != [] && p[|p| - 1] != []
    ensures var s := Join(p);
            s != [] && s[0] == p[0][0] && s[|s| - 1] == p[|p| - 1][|p[|p| - 1]| - 1]
  {
    if |p| > 1 {
      var q := p[1..];
      if |q| == 1 {
        assert Join(q) == p[1];
      } else if q[0] == [] {
        LastOfJoin(q);
      } else {
        JoinEnds(q);
      }
    }
  }

  lemma {:induction false} LastOfJoin(p: seq<string>)
    requires p != [] && p[|p| - 1] != []
    ensures var s := Join(p); s != [] && s[|s| - 1] == p[|p| - 1][|p[|p| - 1]| - 1]
  {
    if |p| > 1 {
      LastOfJoin(p[1..]);
    }
  }

  /** Groups of digits joined by hyphens: nothing is trimmed, and the groups come back. */
  lemma {:induction false} CleanHexGroups(p: seq<string>)
    requires HexGroups(p)
    ensures Clean(Join(p)) == Join(p) && Split(Join(p)) == p
  {
    var s := Join(p);
    HexIsBare(p, Space);
    HexIsBare(p, OpenBrace);
    HexIsBare(p, CloseBrace);
    assert "" + ("" + ("" + s + "") + "") + "" == s;
    CleanIgnoresWrapping("", "", "", s, "", "", "");
    forall i | 0 <= i < |p| ensures NoHyphen(p[i]) {
      forall k | 0 <= k < |p[i]| ensures p[i][k] != '-' {
        assert IsLowerHex(p[i][k]);
      }
    }
    SplitJoin(p);
  }

  lemma CleanCanonical(s: string)
    requires IsCanonical(s)
    ensures Clean(s) == s
  {
    CanonicalGroupsAreHex(s);
    CleanHexGroups(Split(s));
  }

  lemma Powers()
    ensures Pow16(4) == U16 && Pow16(8) == U32 && Pow16(12) == U48 < Pow16(16) == U64
  {
    assert Pow16(2) == 256;
    assert Pow16(4) == 256 * Pow16(2);
    assert Pow16(6) == 256 * Pow16(4);
    assert Pow16(8) == 256 * Pow16(6);
    assert Pow16(10) == 256 * Pow16(8);
    assert Pow16(12) == 256 * Pow16(10);
    assert Pow16(14) == 256 * Pow16(12);
    assert Pow16(16) == 256 * Pow16(14);
  }

  /** The printed groups are fixed-width lower-case digits of the field values. */
  lemma GroupsAreDigits(g: Guid)
    requires g.Valid()
    ensures var p3, p4 := FromBytes(g.data4[..2]), FromBytes(g.data4[2..]);
            && p3 < U16 && p4 < U48
            && Groups(g) == [Digits(g.data1, 8), Digits(g.data2, 4), Digits(g.data3, 4), Digits(p3, 4), Digits(p4, 12)]
            && Bytes(p3, 2) + Bytes(p4, 6) == g.data4
  {
    Powers();
    BytesOfFromBytes(g.data4[..2]);
    BytesOfFromBytes(g.data4[2..]);
    HexBytesAreDigits(FromBytes(g.data4[..2]), 2);
    HexBytesAreDigits(FromBytes(g.data4[2..]), 6);
  }

  lemma PrintCanonical(g: Guid)
    requires g.Valid()
    ensures Split(Print(g)) == Groups(g) && IsCanonical(Print(g))
  {
    GroupsAreDigits(g);
    var p3, p4 := FromBytes(g.data4[..2]), FromBytes(g.data4[2..]);
    DigitsLowerHex(g.data1, 8);
    DigitsLowerHex(g.data2, 4);
    DigitsLowerHex(g.data3, 4);
    DigitsLowerHex(p3, 4);
    DigitsLowerHex(p4, 12);
    SplitJoin(Groups(g));
  }

  lemma ParsePrintedGroups(g: Guid)
    requires g.Valid()
    ensures ParseGroups(Groups(g)) == Some(g)
  {
    Powers();
    GroupsAreDigits(g);
    var p3, p4 := FromBytes(g.data4[..2]), FromBytes(g.data4[2..]);
    ParseDigits(g.data1, 8, U32);
    ParseDigits(g.data2, 4, U16);
    ParseDigits(g.data3, 4, U16);
    ParseDigits(p3, 4, U16);
    ParseDigits(p4, 12, U64);
  }

  /** Every GUID survives printing and parsing, also inside braces and whitespace. */
  lemma RoundTrip(g: Guid, w: string, o: string, c: string, c': string, o': string, w': string)
    requires g.Valid()
    requires Space.All(w) && Space.All(w') && OpenBrace.All(o) && OpenBrace.All(o')
    requires CloseBrace.All(c) && CloseBrace.All(c')
    ensures Parse(Print(g)) == Some(g)
    ensures Parse(w + (o + (c + Print(g) + c') + o') + w') == Some(g)
  {
    var s := Print(g);
    PrintCanonical(g);
    ParsePrintedGroups(g);
    CleanCanonical(s);
    CanonicalIsBare(s, Space);
    CanonicalIsBare(s, OpenBrace);
    CanonicalIsBare(s, CloseBrace);
    CleanIgnoresWrapping(w, o, c, s, c', o', w');
  }

  /** Printing is a bijection onto the canonical strings: what parses prints back as itself
      exactly when it was canonical, and everything canonical parses. */
  lemma PrintParse(s: string)
    ensures IsCanonical(s) ==> Parse(s).Some?
    ensures Parse(s).Some? ==> (Print(Parse(s).value) == s <==> IsCanonical(s))
  {
    if IsCanonical(s) {
      CleanCanonical(s);
      CanonicalGroupsParse(Split(s));
      JoinSplit(s);
    } else if Parse(s).Some? {
      PrintCanonical(Parse(s).value);
    }
  }

  lemma CanonicalGroupsParse(p: seq<string>)
    requires CanonicalGroups(p)
    ensures ParseGroups(p).Some? && Groups(ParseGroups(p).value) == p
  {
    var w := WIDTHS;
    assert |p[0]| == w[0] && |p[1]| == w[1] && |p[2]| == w[2] && |p[3]| == w[3] && |p[4]| == w[4];
    assert p == [p[0], p[1], p[2], p[3], p[4]];
    FiveGroupsParse(p[0], p[1], p[2], p[3], p[4]);
    assert p[4][|p[4]| - 12..] == p[4];
  }

  lemma FiveGroupsParse(a: string, b: string, c: string, d: string, e: string)
    requires |a| == 8 && |b| == |c| == |d| == 4 && 12 <= |e| <= 16
    requires AllLowerHex(a) && AllLowerHex(b) && AllLowerHex(c) && AllLowerHex(d) && AllLowerHex(e)
    ensures var g := ParseGroups([a, b, c, d, e]); g.Some? && Groups(g.value) == [a, b, c, d, e[|e| - 12..]]
  {
    Powers();
    var d1 := CanonicalGroupParses(a, U32);
    var d2 := CanonicalGroupParses(b, U16);
    var d3 := CanonicalGroupParses(c, U16);
    var p3 := CanonicalGroupParses(d, U16);
    PowersGrow(|e|, 16);
    var p4 := CanonicalGroupParses(e, U64);
    GroupsOfFields(d1, d2, d3, p3, p4);
    DigitsSuffix(p4, 12, |e| - 12);
  }

  lemma {:induction false} PowersGrow(m: nat, n: nat)
    requires m <= n
    ensures Pow16(m) <= Pow16(n)
  {
    if m < n {
      PowersGrow(m, n - 1);
    }
  }

  lemma {:induction false} DigitsSuffix(v: nat, w: nat, k: nat)
    ensures Digits(v, w + k)[k..] == Digits(v, w)
  {
    if w > 0 {
      DigitsSuffix(v / 16, w - 1, k);
      assert Digits(v, w + k)[k..] == Digits(v / 16, w - 1 + k)[k..] + [Digit(v % 16)];
    }
  }

  lemma {:induction false} GroupsOfFields(d1: nat, d2: nat, d3: nat, p3: nat, p4: nat)
    ensures Groups(Guid(d1, d2, d3, Bytes(p3, 2) + Bytes(p4, 6)))
            == [Digits(d1, 8), Digits(d2, 4), Digits(d3, 4), Digits(p3, 4), Digits(p4, 12)]
  {
    BytesReprint(p3, p4);
  }

  lemma {:induction false} BytesReprint(p3: nat, p4: nat)
    ensures var d4 := Bytes(p3, 2) + Bytes(p4, 6);
            HexBytes(d4[..2]) == Digits(p3, 4) && HexBytes(d4[2..]) == Digits(p4, 12)
  {
    var d4 := Bytes(p3, 2) + Bytes(p4, 6);
    assert d4[..2] == Bytes(p3, 2) && d4[2..] == Bytes(p4, 6);
    HexBytesAreDigits(p3, 2);
    HexBytesAreDigits(p4, 6);
  }

  lemma CanonicalGroupParses(s: string, bound: nat) returns (v: nat)
    requires AllLowerHex(s) && s != [] && Pow16(|s|) <= bound
    ensures ParseRadix16(s, bound) == Some(v) && Digits(v, |s|) == s
  {
    DigitsOfNumber(s);
    v := Number(s).value;
    assert IsLowerHex(s[0]);
    ParseUnsigned(s, v, bound);
  }

  /** The last group may hold up to 64 bits, of which the parser keeps the low 48: the number is
      kept if and only if it has no others. */
  lemma {:induction false} LastGroupKeeps48Bits(p4: nat)
    ensures Bytes(p4, 6) == Bytes(p4 % U48, 6)
    ensures FromBytes(Bytes(p4, 6)) == p4 <==> p4 < U48
  {
    Powers();
    LowBytes(p4, 6);
    BytesOfFromBytes(Bytes(p4, 6));
    if p4 < U48 {
      FromBytesOfBytes(p4, 6);
    }
  }

  lemma {:induction false} FromBytesOfBytes(v: nat, n: nat)
    requires v < Pow16(2 * n)
    ensures FromBytes(Bytes(v, n)) == v
  {
    if n > 0 {
      assert Pow16(2 * n) == 16 * (16 * Pow16(2 * n - 2));
      FromBytesOfBytes(v / 256, n - 1);
      assert Bytes(v, n)[..n - 1] == Bytes(v / 256, n - 1);
    }
  }

  /** In texts: the last group may have up to sixteen digits, and the GUID prints its last twelve. */
  lemma LongGroupIsCut(a: string, b: string, c: string, d: string, e: string)
    requires |a| == 8 && |b| == |c| == |d| == 4 && 12 <= |e| <= 16
    requires AllLowerHex(a) && AllLowerHex(b) && AllLowerHex(c) && AllLowerHex(d) && AllLowerHex(e)
    ensures var g := Parse(Join([a, b, c, d, e]));
            g.Some? && Print(g.value) == Join([a, b, c, d, e[|e| - 12..]])
  {
    CleanHexGroups([a, b, c, d, e]);
    FiveGroupsParse(a, b, c, d, e);
  }

  /** Such a text: its GUID prints the all-zero last group. */
  lemma CutText()
    ensures var g := Parse(Join(["00000000", "0000", "0000", "0000", "1000000000000"]));
            g.Some? && Print(g.value) == Join(["00000000", "0000", "0000", "0000", "000000000000"])
  {
    LongGroupIsCut("00000000", "0000", "0000", "0000", "1000000000000");
    assert "1000000000000"[1..] == "000000000000";
  }

  lemma {:induction false} LowBytes(v: nat, n: nat)
    ensures Bytes(v, n) == Bytes(v % Pow16(2 * n), n)
  {
    if n > 0 {
      var m := Pow16(2 * n - 2);
      assert Pow16(2 * n) == 16 * (16 * m);
      LowBytes(v / 256, n - 1);
      ModOfQuotient(v, m);
    }
  }

  lemma ModOfQuotient(v: nat, m: nat)
    requires m > 0
    ensures v % (256 * m) % 256 == v % 256 && v % (256 * m) / 256 == v / 256 % m
  {
    var q, r := v / (256 * m), v % (256 * m);
    assert v == (256 * m) * q + r;
    assert v == 256 * (m * q) + r;
    assert v / 256 == m * q + r / 256;
    assert r / 256 < m;
    ModUnique(v / 256, m, q, r / 256);
  }
}
