// Bytes, fixed-size byte arrays, big-endian 32-bit words and the result types
// shared by every other module.
module Bytes {

  datatype Option<+T> = None | Some(value: T)

  datatype Result<+T, +E> = Ok(value: T) | Err(error: E) {
    predicate IsFailure() { Err? }

    function PropagateFailure<U>(): Result<U, E>
      requires Err?
    {
      Err(error)
    }

    function Extract(): T
      requires Ok?
    {
      value
    }
  }

  type byte = b: int | 0 <= b < 256

  // The fixed-size arrays of the source: keys, nonces, digests and signatures.
  type Array32 = b: seq<byte> | |b| == 32 witness seq(32, _ => 0)
  type Array64 = b: seq<byte> | |b| == 64 witness seq(64, _ => 0)

  const U32_SIZE := 0x1_0000_0000

  // `(n as u32).to_be_bytes()`: the cast keeps the low 32 bits.
  function U32Bytes(n: nat): (b: seq<byte>)
    ensures |b| == 4
  {
    var m := n % U32_SIZE;
    [m / 0x100_0000, m / 0x1_0000 % 256, m / 0x100 % 256, m % 256]
  }

  // `u32::from_be_bytes`.
  function U32Value(b: seq<byte>): (n: nat)
    requires |b| == 4
    ensures n < U32_SIZE
  {
    var b0: int := b[0];
    ((b0 * 0x100 + b[1]) * 0x100 + b[2]) * 0x100 + b[3]
  }

  lemma U32ValueOfBytes(n: nat)
    ensures U32Value(U32Bytes(n)) == n % U32_SIZE
  {
    var m := n % U32_SIZE;
    assert m / 0x1_0000 == (m / 0x100_0000) * 256 + m / 0x1_0000 % 256;
    assert m / 0x100 == (m / 0x1_0000) * 256 + m / 0x100 % 256;
  }

  lemma ByteOff(q: nat, r: byte)
    ensures (q * 0x100 + r) / 0x100 == q && (q * 0x100 + r) % 0x100 == r
  {}

  lemma DivTwice(n: nat)
    ensures n / 0x1_0000 == n / 0x100 / 0x100
    ensures n / 0x100_0000 == n / 0x100 / 0x100 / 0x100
  {}

  lemma U32BytesOfValue(b: seq<byte>)
    requires |b| == 4
    ensures U32Bytes(U32Value(b)) == b
  {
    var b0: nat := b[0];
    var p := b0 * 0x100 + b[1];
    var q := p * 0x100 + b[2];
    ByteOff(q, b[3]);
    ByteOff(p, b[2]);
    ByteOff(b0, b[1]);
    DivTwice(U32Value(b));
  }
}
