// The OpenPGP v4 fingerprint input of an Ed25519 key: the packet body of
// section 5.5.2 of RFC 4880 with the point as a multiprecision integer
// (section 3.2), hashed behind the prefix of section 12.2.
module Fingerprint {
  import opened Bytes
  import opened Radix
  import Card
  import Layout

  const OID: seq<byte> := [0x2b, 0x06, 0x01, 0x04, 0x01, 0xda, 0x47, 0x0f, 0x01]

  // The object identifier that octets stand for: the first octet holds two arcs,
  // and each later arc is a base-128 numeral whose octets but the last are
  // marked (section 8.19 of X.690).
  function ArcsFrom(b: seq<byte>, high: nat): seq<nat> {
    if b == [] then []
    else if b[0] >= 0x80 then ArcsFrom(b[1..], (high + (b[0] - 0x80)) * 128)
    else [high + b[0]] + ArcsFrom(b[1..], 0)
  }

  function Arcs(b: seq<byte>): seq<nat> {
    if b == [] then [] else [b[0] / 40, b[0] % 40] + ArcsFrom(b[1..], 0)
  }

  // The curve Ed25519, as RFC 4880bis names it: 1.3.6.1.4.1.11591.15.1.
  lemma OidIsEd25519()
    ensures Arcs(OID) == [1, 3, 6, 1, 4, 1, 11591, 15, 1]
  {
    assert ArcsFrom(OID[9..], 0) == [];
    assert ArcsFrom(OID[8..], 0) == [1] by { assert OID[8..][1..] == OID[9..]; }
    assert ArcsFrom(OID[7..], 0) == [15, 1] by { assert OID[7..][1..] == OID[8..]; }
    assert ArcsFrom(OID[6..], 90 * 128) == [11591, 15, 1] by { assert OID[6..][1..] == OID[7..]; }
    assert ArcsFrom(OID[5..], 0) == [11591, 15, 1] by { assert OID[5..][1..] == OID[6..]; }
    assert ArcsFrom(OID[4..], 0) == [1, 11591, 15, 1] by { assert OID[4..][1..] == OID[5..]; }
    assert ArcsFrom(OID[3..], 0) == [4, 1, 11591, 15, 1] by { assert OID[3..][1..] == OID[4..]; }
    assert ArcsFrom(OID[2..], 0) == [1, 4, 1, 11591, 15, 1] by { assert OID[2..][1..] == OID[3..]; }
    assert ArcsFrom(OID[1..], 0) == [6, 1, 4, 1, 11591, 15, 1] by { assert OID[1..][1..] == OID[2..]; }
  }

  // `(n as u16).to_be_bytes()`.
  function U16Bytes(n: nat): (b: seq<byte>)
    ensures |b| == 2
  {
    [n % 0x1_0000 / 0x100, n % 0x100]
  }

  function Header(time: nat): seq<byte> {
    [0x04] + U32Bytes(time) + [0x16] + [9] + OID
  }

  // The public point as the source writes it, always announced as 263 bits.
  function PointField(point: seq<byte>): seq<byte> {
    U16Bytes(263) + ([0x40] + point)
  }

  function Body(time: nat, point: seq<byte>): seq<byte> {
    Header(time) + PointField(point)
  }

  function HashInput(time: nat, point: seq<byte>): seq<byte> {
    [0x99] + U16Bytes(|Body(time, point)|) + Body(time, point)
  }

  method Ed25519Fingerprint(sha1: seq<byte> -> seq<byte>, pk: Card.Material, time: nat)
    returns (r: Result<seq<byte>, string>)
    ensures match pk
            case Ecc(point) => r == Ok(sha1(HashInput(time, point)))
            case Rsa => r == Err("expected an ECC public key")
  {
    if pk.Rsa? {
      return Err("expected an ECC public key");
    }
    var point := pk.data;
    var body: seq<byte> := [];
    body := body + [0x04];
    body := body + U32Bytes(time);
    body := body + [0x16];
    body := body + [|OID|];
    body := body + OID;
    body := body + U16Bytes(263);
    body := body + [0x40];
    body := body + point;
    assert body == Body(time, point);
    var input: seq<byte> := [0x99];
    input := input + U16Bytes(|body|);
    input := input + body;
    r := Ok(sha1(input));
  }

  // ---------- section 3.2 of RFC 4880 ----------

  ghost predicate HasBitLength(n: nat, bits: nat) {
    if bits == 0 then n == 0 else Pow(2, bits - 1) <= n < Pow(2, bits)
  }

  // A two-octet bit count, then as many octets as it needs; the count must be
  // that of the value. The octets, and what follows them.
  ghost function ReadMpi(b: seq<byte>): Option<(seq<byte>, seq<byte>)> {
    if |b| < 2 then None else
    var bits: nat := HighLow(b[0], b[1]);
    var n := (bits + 7) / 8;
    if |b| < 2 + n || !HasBitLength(Value(256, b[2..2 + n]), bits) then None
    else Some((b[2..2 + n], b[2 + n..]))
  }

  function HighLow(high: nat, low: nat): nat {
    high * 0x100 + low
  }

  lemma {:induction false} BytesOfBits(k: nat)
    ensures Pow(2, 8 * k) == Pow(256, k)
  {
    if k > 0 {
      BytesOfBits(k - 1);
      PowAdd(2, 8, 8 * (k - 1));
      TwoTo8();
    }
  }

  lemma TwoTo8()
    ensures Pow(2, 8) == 256 && Pow(2, 6) == 64 && Pow(2, 7) == 128
  {
    assert Pow(2, 4) == 16;
  }

  lemma PowersAround()
    ensures Pow(2, 262) == 64 * Pow(256, 32) && Pow(2, 263) == 128 * Pow(256, 32)
  {
    BytesOfBits(32);
    TwoTo8();
    PowAdd(2, 6, 256);
    PowAdd(2, 7, 256);
    hide Pow;
  }

  // With the 0x40 in front, every 32-byte point has exactly 263 bits.
  lemma PointHas263Bits(point: seq<byte>)
    requires |point| == 32
    ensures HasBitLength(Value(256, [0x40] + point), 263)
  {
    hide Pow, Value;
    ValueCons(256, 0x40, point);
    ValueBelowPow(256, point);
    PowersAround();
  }

  // The announced 263 bits are right for exactly the 32-byte points: those, and
  // no others, are read back whole with nothing left over.
  lemma PointFieldReads(point: seq<byte>)
    ensures ReadMpi(PointField(point)) == Some(([0x40] + point, [])) <==> |point| == 32
  {
    var b := PointField(point);
    assert b[0] == 1 && b[1] == 7 && HighLow(1, 7) == 263;
    assert b[2..] == [0x40] + point;
    if |point| == 32 {
      PointHas263Bits(point);
      assert b[2..35] == [0x40] + point && b[35..] == [];
    }
  }

  // ---------- section 12.2 of RFC 4880 ----------

  // The two-octet length behind 0x99 is that of the body, 51 octets for a key,
  // and no two (time, point) pairs are hashed alike.
  lemma HashInputInjective(time1: nat, point1: seq<byte>, time2: nat, point2: seq<byte>)
    requires time1 < U32_SIZE && time2 < U32_SIZE
    ensures HashInput(time1, point1) == HashInput(time2, point2) <==> time1 == time2 && point1 == point2
    ensures |point1| == 32 ==> |Body(time1, point1)| == 51 && HashInput(time1, point1)[1..3] == [0, 51]
  {
    var h1, h2 := HashInput(time1, point1), HashInput(time2, point2);
    InputParts(time1, point1);
    InputParts(time2, point2);
    U32ValueOfBytes(time1);
    U32ValueOfBytes(time2);
  }

  // The whole hashed input of a key, octet by octet: prefix and length, version
  // 4, creation time, algorithm 22, the identifier behind its length, and the
  // point behind 0x40 and its 263 bits.
  lemma InputOctets(time: nat, point: seq<byte>)
    requires time < U32_SIZE && |point| == 32
    ensures var h := HashInput(time, point);
            && |h| == 54
            && h[..4] == [0x99, 0, 51, 4]
            && Value(256, h[4..8]) == time
            && h[8..10] == [22, 9]
            && Arcs(h[10..19]) == [1, 3, 6, 1, 4, 1, 11591, 15, 1]
            && Value(256, h[19..21]) == 263
            && h[21] == 0x40 && h[22..] == point
  {
    hide Value, HashInput, Arcs, U32Bytes;
    InputParts(time, point);
    Layout.WordIsBigEndian(time);
    OidIsEd25519();
    InputHead(time, point);
    BitCount();
  }

  lemma BitCount()
    ensures Value(256, [1, 7]) == 263
  {
    assert [1, 7][..1] == [1] && [1][..0] == [];
    assert Value(256, []) == 0;
    assert Value(256, [1]) == 1;
  }

  lemma InputHead(time: nat, point: seq<byte>)
    requires |point| == 32
    ensures var h := HashInput(time, point);
            && |h| == 54 && h[..4] == [0x99, 0, 51, 4] && h[8..10] == [22, 9] && h[10..19] == OID
            && h[19..21] == [1, 7] && h[21] == 0x40
  {
    hide U32Bytes;
    assert U16Bytes(51) == [0, 51] && U16Bytes(263) == [1, 7];
  }

  lemma InputParts(time: nat, point: seq<byte>)
    ensures var h := HashInput(time, point);
            |h| == 22 + |point| && h[4..8] == U32Bytes(time) && h[22..] == point
  {
    var h := HashInput(time, point);
    assert h[3..] == Body(time, point);
    assert Body(time, point)[1..5] == U32Bytes(time);
    assert Body(time, point)[19..] == point;
  }
}
