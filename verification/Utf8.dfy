// UTF-8 over Unicode scalar values. A Rust `String` is a sequence of scalar
// values held as UTF-8; a Dafny `char` is exactly a scalar value, so a `string`
// stands for a `String` and `Encode` gives its bytes.
module Utf8 {
  import opened Bytes

  // Section 3 of RFC 3629: the number of octets is decided by the range the
  // scalar value falls in, and the bits are dealt out from the low end.
  function EncodeScalar(c: char): (b: seq<byte>)
    ensures 1 <= |b| <= 4
    ensures |b| == 1 <==> c as int < 0x80
  {
    var v := c as int;
    if v < 0x80 then [v]
    else if v < 0x800 then [0xC0 + v / 0x40, 0x80 + v % 0x40]
    else if v < 0x1_0000 then [0xE0 + v / 0x1000, 0x80 + v / 0x40 % 0x40, 0x80 + v % 0x40]
    else [0xF0 + v / 0x4_0000, 0x80 + v / 0x1000 % 0x40, 0x80 + v / 0x40 % 0x40, 0x80 + v % 0x40]
  }

  // The bytes of a string: `as_bytes`.
  function Encode(s: string): (b: seq<byte>)
    ensures |b| >= |s|
  {
    if s == [] then [] else EncodeScalar(s[0]) + Encode(s[1..])
  }

  // The value bits of an octet, below its fixed high bits.
  function Low(b: byte, mark: int): int { b - mark }

  predicate Tail(b: byte) { 0x80 <= b <= 0xBF }

  // One UTF8-char of the grammar in section 4 of RFC 3629, read from the front:
  // the value and how many octets it took. The second-octet ranges are what
  // shuts out overlong forms, surrogates and values above U+10FFFF.
  function DecodeScalar(b: seq<byte>): (r: Option<(char, nat)>)
    ensures r.Some? ==> 1 <= r.value.1 <= |b|
  {
    if |b| >= 1 && b[0] < 0x80 then
      Some((b[0] as char, 1))
    else if |b| >= 2 && 0xC2 <= b[0] <= 0xDF && Tail(b[1]) then
      Some(((Low(b[0], 0xC0) * 0x40 + Low(b[1], 0x80)) as char, 2))
    else if |b| >= 3 && 0xE0 <= b[0] <= 0xEF && ThreeOctetSecond(b[0], b[1]) && Tail(b[2]) then
      Some(((Low(b[0], 0xE0) * 0x1000 + Low(b[1], 0x80) * 0x40 + Low(b[2], 0x80)) as char, 3))
    else if |b| >= 4 && 0xF0 <= b[0] <= 0xF4 && FourOctetSecond(b[0], b[1]) && Tail(b[2]) && Tail(b[3]) then
      Some(((Low(b[0], 0xF0) * 0x4_0000 + Low(b[1], 0x80) * 0x1000 + Low(b[2], 0x80) * 0x40 + Low(b[3], 0x80)) as char, 4))
    else
      None
  }

  predicate ThreeOctetSecond(first: byte, second: byte) {
    if first == 0xE0 then 0xA0 <= second <= 0xBF
    else if first == 0xED then 0x80 <= second <= 0x9F
    else Tail(second)
  }

  predicate FourOctetSecond(first: byte, second: byte) {
    if first == 0xF0 then 0x90 <= second <= 0xBF
    else if first == 0xF4 then 0x80 <= second <= 0x8F
    else Tail(second)
  }

  // `String::from_utf8`: the string, or nothing when the bytes are not UTF-8.
  function Decode(b: seq<byte>): Option<string> {
    if b == [] then Some("")
    else
      match DecodeScalar(b)
      case None => None
      case Some((c, n)) =>
        match Decode(b[n..])
        case None => None
        case Some(s) => Some([c] + s)
  }

  // Six value bits on top of a quotient come apart again.
  lemma SixBits(q: int, r: int)
    requires 0 <= r < 0x40
    ensures (q * 0x40 + r) / 0x40 == q && (q * 0x40 + r) % 0x40 == r
  {}

  lemma ThreeOctets(v: nat, q: nat)
    requires v / 0x40 == q
    ensures v / 0x1000 == q / 0x40 && v / 0x4_0000 == q / 0x1000
  {}

  lemma ReadThreeOctets(v: int, b: seq<byte>)
    requires 0x800 <= v < 0xD800 || 0xE000 <= v < 0x1_0000
    requires |b| >= 3 && b[0] == 0xE0 + v / 0x1000
    requires b[1] == 0x80 + v / 0x40 % 0x40 && b[2] == 0x80 + v % 0x40
    ensures DecodeScalar(b) == Some((v as char, 3))
  {
    ThreeOctets(v, v / 0x40);
  }

  lemma ReadFourOctets(v: int, b: seq<byte>)
    requires 0x1_0000 <= v < 0x11_0000
    requires |b| >= 4 && b[0] == 0xF0 + v / 0x4_0000 && b[1] == 0x80 + v / 0x1000 % 0x40
    requires b[2] == 0x80 + v / 0x40 % 0x40 && b[3] == 0x80 + v % 0x40
    ensures DecodeScalar(b) == Some((v as char, 4))
  {
    ThreeOctets(v, v / 0x40);
    ThreeOctets(v / 0x40, v / 0x1000);
  }

  lemma DecodeScalarOfEncode(c: char, rest: seq<byte>)
    ensures DecodeScalar(EncodeScalar(c) + rest) == Some((c, |EncodeScalar(c)|))
  {
    var v, b := c as int, EncodeScalar(c) + rest;
    if 0x800 <= v < 0x1_0000 {
      ReadThreeOctets(v, b);
    } else if 0x1_0000 <= v {
      ReadFourOctets(v, b);
    }
  }

  // Nothing but the one encoding of a scalar value is read as that value.
  lemma EncodeScalarOfDecode(b: seq<byte>)
    requires DecodeScalar(b).Some?
    ensures var (c, n) := DecodeScalar(b).value; EncodeScalar(c) == b[..n]
  {
    var (c, n) := DecodeScalar(b).value;
    if n == 2 {
      SixBits(Low(b[0], 0xC0), Low(b[1], 0x80));
    } else if n == 3 {
      var q := Low(b[0], 0xE0) * 0x40 + Low(b[1], 0x80);
      SixBits(Low(b[0], 0xE0), Low(b[1], 0x80));
      SixBits(q, Low(b[2], 0x80));
      ThreeOctets(c as int, q);
    } else if n == 4 {
      var p := Low(b[0], 0xF0) * 0x40 + Low(b[1], 0x80);
      var q := p * 0x40 + Low(b[2], 0x80);
      SixBits(Low(b[0], 0xF0), Low(b[1], 0x80));
      SixBits(p, Low(b[2], 0x80));
      SixBits(q, Low(b[3], 0x80));
      ThreeOctets(c as int, q);
      ThreeOctets(q, p);
    }
  }

  // The decoder accepts exactly the encoder's image, and inverts it.
  lemma {:induction false} DecodeIffEncode(b: seq<byte>, s: string)
    ensures Decode(b) == Some(s) <==> b == Encode(s)
  {
    if b == Encode(s) {
      DecodeOfEncode(s);
    }
    if Decode(b) == Some(s) {
      EncodeOfDecode(b);
    }
  }

  lemma {:induction false} DecodeOfEncode(s: string)
    ensures Decode(Encode(s)) == Some(s)
  {
    if s != [] {
      var head, rest := EncodeScalar(s[0]), Encode(s[1..]);
      assert Encode(s) == head + rest;
      DecodeScalarOfEncode(s[0], rest);
      assert Encode(s)[|head|..] == rest;
      DecodeOfEncode(s[1..]);
      assert [s[0]] + s[1..] == s;
    }
  }

  lemma DecodeStep(b: seq<byte>)
    requires b != [] && Decode(b).Some?
    ensures DecodeScalar(b).Some?
    ensures var (c, n) := DecodeScalar(b).value;
            Decode(b[n..]).Some? && Decode(b) == Some([c] + Decode(b[n..]).value)
  {
    hide DecodeScalar;
  }

  lemma {:induction false} EncodeOfDecode(b: seq<byte>)
    requires Decode(b).Some?
    ensures Encode(Decode(b).value) == b
  {
    if b != [] {
      hide Encode, Decode, EncodeScalar, DecodeScalar;
      DecodeStep(b);
      EncodeScalarOfDecode(b);
      var (c, n) := DecodeScalar(b).value;
      EncodeOfDecode(b[n..]);
      EncodeCons(c, Decode(b[n..]).value);
      Halves(b, n);
    }
  }

  lemma Halves(b: seq<byte>, n: nat)
    requires n <= |b|
    ensures b[..n] + b[n..] == b
  {}

  lemma EncodeCons(c: char, s: string)
    ensures Encode([c] + s) == EncodeScalar(c) + Encode(s)
  {
    assert ([c] + s)[1..] == s;
  }

  // For ASCII text the byte length that the source compares is the number of
  // characters; one character above U+007F makes it longer.
  lemma {:induction false} ByteLength(s: string)
    ensures |Encode(s)| == |s| <==> forall i :: 0 <= i < |s| ==> s[i] as int < 0x80
  {
    if s != [] {
      ByteLength(s[1..]);
      assert forall i :: 0 <= i < |s[1..]| ==> s[1..][i] == s[i + 1];
      if s[0] as int < 0x80 && forall i :: 0 <= i < |s[1..]| ==> s[1..][i] as int < 0x80 {
        forall i | 0 <= i < |s| ensures s[i] as int < 0x80 {
          if i > 0 { assert s[i] == s[1..][i - 1]; }
        }
      }
    }
  }

  // The examples of section 7 of RFC 3629: one, two, three and four octets.
  lemma Examples()
    ensures Encode("A") == [0x41] && Encode("\U{0391}") == [0xCE, 0x91]
    ensures Encode("\U{2262}") == [0xE2, 0x89, 0xA2] && Encode("\U{233B4}") == [0xF0, 0xA3, 0x8E, 0xB4]
  {}

  lemma {:induction false} EncodeJoins(s: string, t: string)
    ensures Encode(s + t) == Encode(s) + Encode(t)
  {
    if s == "" {
      assert s + t == t;
    } else {
      assert (s + t)[1..] == s[1..] + t;
      EncodeJoins(s[1..], t);
    }
  }
}
