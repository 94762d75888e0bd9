/** Signed snapshots: the HMAC framing of section 2 of RFC 2104 over an abstract 32-byte hash,
    the canonical payload with both signature fields cleared, signing and verification. */
module SnapshotSigning {
  import opened Options
  import M = OptimizationModel
  import Hex

  type Bytes = seq<bv8>

  /** What a snapshot records about the system. */
  datatype Body = Body(id: string, backup: M.Transaction)

  datatype Snapshot = Snapshot(body: Body, shaHash: Bytes, hmacSignature: Bytes)

  /** The foreign calls: SHA-256, the JSON codec and machine-bound data protection. */
  datatype Foreign = Foreign(
    sha: Bytes -> Bytes,
    compact: Snapshot -> Bytes,
    pretty: Snapshot -> Bytes,
    parse: Bytes -> Option<Snapshot>,
    protect: Bytes -> Bytes,
    unprotect: Bytes -> Option<Bytes>)
  {
    ghost predicate Lawful() {
      && (forall x :: |sha(x)| == 32)
      && (forall s :: parse(pretty(s)) == Some(s))
      && (forall x :: unprotect(protect(x)) == Some(x))
    }
  }

  // ----- constant-time comparison -----

  /** The comparison loop: it visits every byte and decides equality. */
  method ConstantTimeEq(a: Bytes, b: Bytes) returns (equal: bool)
    ensures equal <==> a == b
  {
    if |a| != |b| {
      return false;
    }
    var diff: bv8 := 0;
    for i := 0 to |a|
      invariant diff == 0 <==> a[..i] == b[..i]
    {
      OrIsZero(diff, a[i] ^ b[i]);
      XorIsZero(a[i], b[i]);
      assert a[..i + 1] == a[..i] + [a[i]] && b[..i + 1] == b[..i] + [b[i]];
      diff := diff | (a[i] ^ b[i]);
    }
    assert a[..|a|] == a && b[..|b|] == b;
    return diff == 0;
  }

  lemma OrIsZero(x: bv8, y: bv8)
    ensures x | y == 0 <==> x == 0 && y == 0
  {
  }

  lemma XorIsZero(x: bv8, y: bv8)
    ensures x ^ y == 0 <==> x == y
  {
  }

  // ----- HMAC -----

  /** The key block: hashed when longer than 64 bytes, then padded with zeros. */
  function KeyBlock(f: Foreign, key: Bytes): (k: Bytes)
    ensures |k| == 64
  {
    var short := if |key| > 64 then f.sha(key) else key;
    seq(64, i requires 0 <= i < 64 => if i < |short| then short[i] else 0)
  }

  function Pad(block: Bytes, x: bv8): (p: Bytes)
    ensures |p| == |block|
  {
    seq(|block|, i requires 0 <= i < |block| => block[i] ^ x)
  }

  function Hmac(f: Foreign, key: Bytes, message: Bytes): Bytes {
    var k := KeyBlock(f, key);
    f.sha(Pad(k, 0x5c) + f.sha(Pad(k, 0x36) + message))
  }

  /** The padding loop over two 64-byte buffers. */
  method ComputeHmac(f: Foreign, key: Bytes, message: Bytes) returns (mac: Bytes)
    ensures mac == Hmac(f, key, message)
  {
    var k := KeyBlock(f, key);
    var inner := new bv8[64](_ => 0);
    var outer := new bv8[64](_ => 0);
    for i := 0 to 64
      invariant forall j :: 0 <= j < i ==> inner[j] == k[j] ^ 0x36 && outer[j] == k[j] ^ 0x5c
    {
      inner[i] := k[i] ^ 0x36;
      outer[i] := k[i] ^ 0x5c;
    }
    assert inner[..] == Pad(k, 0x36);
    assert outer[..] == Pad(k, 0x5c);
    mac := f.sha(outer[..] + f.sha(inner[..] + message));
  }

  /** Inner and outer pads differ in every byte, and equally long keys of at most a block
      give the same pads only when they are equal. */
  lemma PadsSeparateKeys(f: Foreign, k1: Bytes, k2: Bytes, x: bv8)
    requires |k1| == |k2| <= 64
    ensures forall i :: 0 <= i < 64 ==> Pad(KeyBlock(f, k1), 0x36)[i] != Pad(KeyBlock(f, k1), 0x5c)[i]
    ensures Pad(KeyBlock(f, k1), x) == Pad(KeyBlock(f, k2), x) <==> k1 == k2
  {
    var b1, b2 := KeyBlock(f, k1), KeyBlock(f, k2);
    forall i | 0 <= i < 64 ensures Pad(b1, 0x36)[i] != Pad(b1, 0x5c)[i] {
      PadBytesDiffer(b1[i]);
    }
    if Pad(b1, x) == Pad(b2, x) {
      forall i | 0 <= i < |k1| ensures k1[i] == k2[i] {
        assert Pad(b1, x)[i] == Pad(b2, x)[i];
        XorCancels(b1[i], b2[i], x);
      }
    }
  }

  lemma PadBytesDiffer(b: bv8)
    ensures b ^ 0x36 != b ^ 0x5c
  {
  }

  lemma XorCancels(a: bv8, b: bv8, x: bv8)
    ensures a ^ x == b ^ x <==> a == b
  {
  }

  /** Appending a zero byte to a key shorter than a block does not change the code. */
  lemma TrailingZeroIgnored(f: Foreign, key: Bytes, message: Bytes)
    requires |key| < 64
    ensures Hmac(f, key + [0], message) == Hmac(f, key, message)
  {
    assert KeyBlock(f, key + [0]) == KeyBlock(f, key);
  }

  /** A key longer than a block counts as its hash. */
  lemma LongKeyIsHashed(f: Foreign, key: Bytes, message: Bytes)
    requires f.Lawful() && |key| > 64
    ensures Hmac(f, key, message) == Hmac(f, f.sha(key), message)
  {
    assert KeyBlock(f, key) == KeyBlock(f, f.sha(key));
  }

  // ----- signing -----

  function NibbleText(n: bv8): bv8 {
    if n < 10 then 0x30 + n else 0x57 + n
  }

  /** Lower-case hexadecimal text of a digest. */
  function HexText(d: Bytes): (t: Bytes)
    ensures |t| == 2 * |d|
  {
    if d == [] then [] else [NibbleText(d[0] >> 4), NibbleText(d[0] & 0x0f)] + HexText(d[1..])
  }

  /** The text is the lower-case hexadecimal digits of the bytes, high nibble first. */
  lemma {:induction false} HexTextDigits(d: Bytes, i: nat)
    requires i < |d|
    ensures (HexText(d)[2 * i] as int) as char == Hex.Digit((d[i] >> 4) as nat)
    ensures (HexText(d)[2 * i + 1] as int) as char == Hex.Digit((d[i] & 0x0f) as nat)
  {
    if i == 0 {
      NibbleIsDigit(d[0] >> 4);
      NibbleIsDigit(d[0] & 0x0f);
    } else {
      HexTextDigits(d[1..], i - 1);
    }
  }

  lemma NibbleIsDigit(n: bv8)
    requires n < 16
    ensures n as nat < 16 && (NibbleText(n) as int) as char == Hex.Digit(n as nat)
  {
  }

  function Canonical(s: Snapshot): Snapshot {
    s.(shaHash := [], hmacSignature := [])
  }

  function Payload(f: Foreign, s: Snapshot): Bytes {
    f.compact(Canonical(s))
  }

  function PayloadHash(f: Foreign, s: Snapshot): Bytes {
    HexText(f.sha(Payload(f, s)))
  }

  function PayloadHmac(f: Foreign, s: Snapshot, key: Bytes): Bytes {
    HexText(Hmac(f, key, Payload(f, s)))
  }

  /** First the digest, then the code; neither is part of the payload of the other. */
  function Sign(f: Foreign, s: Snapshot, key: Bytes): Snapshot {
    var hashed := s.(shaHash := PayloadHash(f, s));
    hashed.(hmacSignature := PayloadHmac(f, hashed, key))
  }

  function Lower(b: bv8): bv8 {
    if 0x41 <= b <= 0x5a then b + 0x20 else b
  }

  function LowerText(t: Bytes): Bytes {
    seq(|t|, i requires 0 <= i < |t| => Lower(t[i]))
  }

  /** Two letters agree iff they are the same up to case. */
  lemma LowerAgreeIff(b: bv8, c: bv8)
    ensures Lower(b) == Lower(c) <==>
            || b == c
            || (0x41 <= b <= 0x5a && c == b + 0x20)
            || (0x41 <= c <= 0x5a && b == c + 0x20)
  {
  }

  /** With a codec that loses nothing, two snapshots have the same payload, and so the same
      signatures to make, if and only if they have the same body. */
  lemma PayloadIsBody(f: Foreign, s: Snapshot, t: Snapshot)
    requires forall x, y :: f.compact(x) == f.compact(y) ==> x == y
    ensures Payload(f, s) == Payload(f, t) <==> s.body == t.body
  {
  }

  predicate VerifyHmac(f: Foreign, s: Snapshot, key: Bytes) {
    s.hmacSignature != [] && s.hmacSignature == PayloadHmac(f, s, key)
  }

  predicate VerifyHash(f: Foreign, s: Snapshot) {
    LowerText(PayloadHash(f, s)) == LowerText(s.shaHash)
  }

  predicate Verified(f: Foreign, s: Snapshot, key: Bytes) {
    VerifyHmac(f, s, key) && VerifyHash(f, s)
  }

  /** A signed snapshot verifies under its key. */
  lemma SignedVerifies(f: Foreign, s: Snapshot, key: Bytes)
    requires f.Lawful()
    ensures Verified(f, Sign(f, s, key), key)
  {
    var signed := Sign(f, s, key);
    assert Canonical(signed) == Canonical(s);
    assert |PayloadHmac(f, signed, key)| == 64;
  }

  /** What verifies is what signing would have produced: the same body and code, and a digest
      that differs at most in letter case; old signatures never influence new ones. */
  lemma VerifiedIsSigned(f: Foreign, s: Snapshot, key: Bytes)
    requires f.Lawful()
    ensures Verified(f, s, key) <==>
            var signed := Sign(f, s, key);
            s.hmacSignature == signed.hmacSignature && LowerText(s.shaHash) == LowerText(signed.shaHash)
    ensures forall k :: Sign(f, Sign(f, s, k), key) == Sign(f, s, key)
  {
    var signed := Sign(f, s, key);
    assert Canonical(signed) == Canonical(s);
    assert |PayloadHmac(f, signed, key)| == 64;
    forall k ensures Sign(f, Sign(f, s, k), key) == Sign(f, s, key) {
      assert Canonical(Sign(f, s, k)) == Canonical(s);
    }
  }

  /** The snapshot being prepared, signed in place. */
  class Draft {
    var body: Body
    var shaHash: Bytes
    var hmacSignature: Bytes

    constructor (b: Body)
      ensures Value() == Snapshot(b, [], [])
    {
      body, shaHash, hmacSignature := b, [], [];
    }

    function Value(): Snapshot
      reads this
    {
      Snapshot(body, shaHash, hmacSignature)
    }

    method SignWithKey(f: Foreign, key: Bytes)
      modifies this`shaHash, this`hmacSignature
      ensures Value() == Sign(f, old(Value()), key)
    {
      shaHash := PayloadHash(f, Value());
      var mac := ComputeHmac(f, key, Payload(f, Value()));
      hmacSignature := HexText(mac);
    }

    method VerifyWithKey(f: Foreign, key: Bytes) returns (ok: bool)
      ensures ok <==> VerifyHmac(f, Value(), key)
    {
      if hmacSignature == [] {
        return false;
      }
      var mac := ComputeHmac(f, key, Payload(f, Value()));
      ok := ConstantTimeEq(hmacSignature, HexText(mac));
    }
  }
}
