// What the two directions of the transaction format give together: exactly one
// representation, exact rejection of damaged input, and size limits.
module Canonical {
  import opened Bytes
  import opened TxFormat
  import Utf8

  function Decode(b: seq<byte>): Result<SignedTransaction, Malformed> {
    ParseSigned(DECODE_LIMITS, b)
  }

  lemma SignedRoundTrip(l: Limits, s: SignedTransaction, rest: seq<byte>)
    requires l.FitU32() && InBounds(l, s.transaction)
    ensures ParseSigned(l, SignedBytes(s) + rest)
         == if rest == [] then Ok(s) else Err(TrailingBytes(|rest|))
  {
    var r2 := s.signature + rest;
    var r1 := s.admin + r2;
    assert SignedBytes(s) + rest == TransactionBytes(s.transaction) + r1 by {
      Assoc(s.admin, s.signature, rest);
      Assoc(TransactionBytes(s.transaction), s.admin + s.signature, rest);
    }
    TransactionRoundTrip(l, s.transaction, r1);
    Array32RoundTrip(s.admin, r2);
    assert r2[..64] == s.signature && r2[64..] == rest;
  }

  lemma SignedCanonical(l: Limits, b: seq<byte>)
    requires ParseSigned(l, b).Ok?
    ensures var s := ParseSigned(l, b).value; InBounds(l, s.transaction) && b == SignedBytes(s)
  {
    var (t, b1) := ParseTransaction(l, b).value;
    var (admin, b2) := ParseArray32(b1).value;
    var (signature, b3) := ParseArray64(b2).value;
    TransactionCanonical(l, b);
    assert b1 == admin + signature;
  }

  // The decoder accepts exactly the image of the encoder on in-bounds values.
  lemma DecodeExactly(b: seq<byte>, s: SignedTransaction)
    ensures Decode(b) == Ok(s) <==> b == SignedBytes(s) && InBounds(DECODE_LIMITS, s.transaction)
  {
    if b == SignedBytes(s) && InBounds(DECODE_LIMITS, s.transaction) {
      SignedRoundTrip(DECODE_LIMITS, s, []);
      assert b + [] == b;
    }
    if Decode(b) == Ok(s) {
      SignedCanonical(DECODE_LIMITS, b);
    }
  }

  // ---------- exactly one representation ----------

  lemma {:induction false} ConcatHas<T>(encode: T -> seq<byte>, xs: seq<T>, x: T)
    requires x in xs
    ensures |encode(x)| <= |Concat(encode, xs)|
  {
    if x != xs[0] {
      assert x in xs[1..];
      ConcatHas(encode, xs[1..], x);
    }
  }

  lemma {:induction false} ConcatAtLeast<T(!new)>(encode: T -> seq<byte>, xs: seq<T>, lo: nat)
    requires forall x :: lo <= |encode(x)|
    ensures lo * |xs| <= |Concat(encode, xs)|
  {
    if xs != [] {
      ConcatAtLeast(encode, xs[1..], lo);
      Step(lo, |xs|);
    }
  }

  lemma Step(a: nat, n: nat)
    requires n > 0
    ensures a * n == a + a * (n - 1)
  {}

  // The fewest bytes in which a length of 2^32 or more can be encoded: the
  // fixed fields, one operation without its contents, and 2^32 bytes.
  const LEAST_SHARED := U32_SIZE + 80

  lemma OverlongOp(op: Operation)
    requires !OpInBounds(U32_LIMITS, op)
    ensures |OpBytes(op)| >= U32_SIZE + 12
  {
    var lines := Concat(StringBytes, op.detail);
    assert |OpBytes(op)| == 12 + |Utf8.Encode(op.summary)| + |lines| + |op.payload|;
    if |op.detail| >= U32_SIZE {
      ConcatAtLeast(StringBytes, op.detail, 4);
    } else if |Utf8.Encode(op.summary)| < U32_SIZE && |op.payload| < U32_SIZE {
      var line :| line in op.detail && !StringInBounds(U32_LIMITS, line);
      ConcatHas(StringBytes, op.detail, line);
    }
  }

  lemma Overlong(t: Transaction)
    requires !InBounds(U32_LIMITS, t)
    ensures |TransactionBytes(t)| >= LEAST_SHARED
  {
    assert |TransactionBytes(t)| == 68 + |Concat(OpBytes, t.ops)|;
    if |t.ops| >= U32_SIZE {
      ConcatAtLeast(OpBytes, t.ops, 12);
    } else {
      var op :| op in t.ops && !OpInBounds(U32_LIMITS, op);
      OverlongOp(op);
      ConcatHas(OpBytes, t.ops, op);
    }
  }

  // When the lengths of both fit 32 bits, or the longer encoding is shorter
  // than any over-long one, no encoding is a prefix of another.
  lemma PrefixFree(t1: Transaction, t2: Transaction)
    ensures || |TransactionBytes(t2)| < LEAST_SHARED
            || (InBounds(U32_LIMITS, t1) && InBounds(U32_LIMITS, t2))
            ==> (TransactionBytes(t1) <= TransactionBytes(t2) <==> t1 == t2)
  {
    hide TransactionBytes, InBounds;
    var b1, b2 := TransactionBytes(t1), TransactionBytes(t2);
    if b1 <= b2 {
      if !InBounds(U32_LIMITS, t1) {
        Overlong(t1);
      } else if !InBounds(U32_LIMITS, t2) {
        Overlong(t2);
      } else {
        PrefixFreeWithin(t1, t2);
      }
    }
  }

  lemma PrefixFreeWithin(t1: Transaction, t2: Transaction)
    requires InBounds(U32_LIMITS, t1) && InBounds(U32_LIMITS, t2)
    requires TransactionBytes(t1) <= TransactionBytes(t2)
    ensures t1 == t2
  {
    hide TransactionBytes, ParseTransaction, InBounds;
    var b1, b2 := TransactionBytes(t1), TransactionBytes(t2);
    TransactionRoundTrip(U32_LIMITS, t1, b2[|b1|..]);
    assert b2 == b1 + b2[|b1|..];
    TransactionRoundTrip(U32_LIMITS, t2, []);
    assert b2 + [] == b2;
  }

  // The same for whole messages, which end in 96 bytes of key and signature.
  lemma SignedInjective(s1: SignedTransaction, s2: SignedTransaction)
    ensures || |SignedBytes(s1)| < LEAST_SHARED + 96
            || (InBounds(U32_LIMITS, s1.transaction) && InBounds(U32_LIMITS, s2.transaction))
            ==> (SignedBytes(s1) == SignedBytes(s2) <==> s1 == s2)
  {
    if SignedBytes(s1) == SignedBytes(s2) {
      var b1, b2 := TransactionBytes(s1.transaction), TransactionBytes(s2.transaction);
      SignedParts(s1);
      SignedParts(s2);
      PrefixFree(s1.transaction, s2.transaction);
    }
  }

  lemma SignedParts(s: SignedTransaction)
    ensures var b, n := SignedBytes(s), |TransactionBytes(s.transaction)|;
            |b| == n + 96 && b[..n] == TransactionBytes(s.transaction)
            && b[n..n + 32] == s.admin && b[n + 32..] == s.signature
  {}

  function Zeros(n: nat): seq<byte> { seq(n, _ => 0) }

  lemma {:induction false} NulsBytes(n: nat)
    ensures Utf8.Encode(seq(n, _ => '\0')) == Zeros(n)
  {
    if n > 0 {
      NulsBytes(n - 1);
      var nuls := seq(n, _ => '\0');
      assert nuls[1..] == seq(n - 1, _ => '\0');
      assert Utf8.EncodeScalar('\0') == [0];
      assert Zeros(n) == [0] + Zeros(n - 1);
    }
  }

  // A payload of 2^32 zero bytes, and a summary of 2^32 NUL characters.
  const WIDE_PAYLOAD := Operation("", [], Zeros(U32_SIZE))
  const WIDE_SUMMARY := Operation(seq(U32_SIZE, _ => '\0'), [], [])

  lemma WideOpsAgree()
    ensures OpBytes(WIDE_PAYLOAD) == OpBytes(WIDE_SUMMARY) && |OpBytes(WIDE_PAYLOAD)| == U32_SIZE + 12
    ensures WIDE_PAYLOAD != WIDE_SUMMARY
  {
    var big := Zeros(U32_SIZE);
    NulsBytes(U32_SIZE);
    assert U32Bytes(U32_SIZE) == U32Bytes(0) == Zeros(4);
    assert StringBytes("") == Zeros(4) && FieldBytes([]) == Zeros(4);
    assert Zeros(4) + (Zeros(4) + ([] + (Zeros(4) + big))) == Zeros(U32_SIZE + 12);
    assert (Zeros(4) + big) + (Zeros(4) + ([] + Zeros(4))) == Zeros(U32_SIZE + 12);
    assert |WIDE_PAYLOAD.payload| != |WIDE_SUMMARY.payload|;
  }

  // "Exactly one representation" stops at lengths of 2^32, where the cast
  // wraps to nothing: these two are encoded, and so hashed and signed, alike.
  lemma WrappedLengthsCollide(server: Array32, nonce: Array32)
    ensures var t1 := Transaction(server, nonce, [WIDE_PAYLOAD]);
            var t2 := Transaction(server, nonce, [WIDE_SUMMARY]);
            && t1 != t2 && TransactionBytes(t1) == TransactionBytes(t2)
            && |TransactionBytes(t1)| == LEAST_SHARED
  {
    WideOpsAgree();
    hide WIDE_PAYLOAD, WIDE_SUMMARY, OpBytes;
    assert Concat(OpBytes, [WIDE_PAYLOAD]) == OpBytes(WIDE_PAYLOAD) + [];
    assert Concat(OpBytes, [WIDE_SUMMARY]) == OpBytes(WIDE_SUMMARY) + [];
    assert [WIDE_PAYLOAD][0] != [WIDE_SUMMARY][0];
  }

  ghost predicate UnsharedBelow(n: nat) {
    forall t, other :: |TransactionBytes(t)| < n && TransactionBytes(t) == TransactionBytes(other) ==> t == other
  }

  ghost predicate PrefixFreeBelow(n: nat) {
    forall t, other :: |TransactionBytes(t)| < n && TransactionBytes(other) <= TransactionBytes(t) ==> t == other
  }

  // The exact bound: an encoding shorter than `n` stands for one transaction
  // only, whatever the other's lengths, if and only if `n` is at most the
  // least size that two transactions share; and likewise for prefixes.
  lemma LeastSharedSize(n: nat)
    ensures UnsharedBelow(n) <==> n <= LEAST_SHARED
    ensures PrefixFreeBelow(n) <==> n <= LEAST_SHARED
  {
    hide TransactionBytes;
    if n <= LEAST_SHARED {
      forall t, other | |TransactionBytes(t)| < n && TransactionBytes(other) <= TransactionBytes(t)
        ensures t == other
      {
        PrefixFree(other, t);
      }
    } else {
      var zero: Array32 := Zeros(32);
      WrappedLengthsCollide(zero, zero);
    }
  }

  // A transaction survives the wire iff it is within the caps. Over the caps
  // it is refused, however long it is, and never misread.
  lemma SurvivesWireIffInBounds(s: SignedTransaction)
    ensures Decode(SignedBytes(s)) == Ok(s) <==> InBounds(DECODE_LIMITS, s.transaction)
    ensures Decode(SignedBytes(s)).Ok? <==> InBounds(DECODE_LIMITS, s.transaction)
  {
    DecodeExactly(SignedBytes(s), s);
    if Decode(SignedBytes(s)).Ok? {
      var s' := Decode(SignedBytes(s)).value;
      DecodeExactly(SignedBytes(s), s');
      AcceptedSize(SignedBytes(s));
      SignedInjective(s, s');
    }
  }

  lemma CountIsRead(l: Limits, server: Array32, nonce: Array32, n: nat, rest: seq<byte>)
    requires l.ops < n < U32_SIZE
    ensures ParseTransaction(l, server + (nonce + (U32Bytes(n) + rest))) == Err(TooManyOps(n))
  {
    hide ParseArray32, ParseU32, ParseMany, U32Bytes;
    Array32RoundTrip(server, nonce + (U32Bytes(n) + rest));
    Array32RoundTrip(nonce, U32Bytes(n) + rest);
    U32RoundTrip(n, rest);
  }

  // A count of operations over the cap is refused by its number, as the
  // length prefix tells it, before any operation is looked at.
  lemma TooManyOpsIsNamed(s: SignedTransaction)
    requires |s.transaction.ops| % U32_SIZE > DECODE_LIMITS.ops
    ensures Decode(SignedBytes(s)) == Err(TooManyOps(|s.transaction.ops| % U32_SIZE))
  {
    var t, tail, n := s.transaction, s.admin + s.signature, |s.transaction.ops| % U32_SIZE;
    assert U32Bytes(|t.ops|) == U32Bytes(n);
    hide ParseTransaction, TransactionBytes, U32Bytes, Concat;
    TransactionSplit(t, tail);
    CountIsRead(DECODE_LIMITS, t.server, t.nonce, n, Concat(OpBytes, t.ops) + tail);
  }

  // ---------- damaged input ----------

  lemma CutConcat(a: seq<byte>, b: seq<byte>, k: nat)
    requires k <= |a| + |b|
    ensures k <= |a| ==> (a + b)[..k] == a[..k]
    ensures k >= |a| ==> (a + b)[..k] == a + b[..k - |a|]
  {}

  lemma FieldTruncated(max: nat, f: seq<byte>, k: nat)
    requires |f| <= max < U32_SIZE && k < |FieldBytes(f)|
    ensures ParseField(max, FieldBytes(f)[..k]) == Err(UnexpectedEnd)
  {
    CutConcat(U32Bytes(|f|), f, k);
    if k >= 4 {
      U32RoundTrip(|f|, f[..k - 4]);
    }
  }

  lemma {:induction false} ManyTruncated<T(!new)>(
      encode: T -> seq<byte>, item: seq<byte> -> Parsed<T>, xs: seq<T>, k: nat)
    requires forall x, r :: x in xs ==> item(encode(x) + r) == Ok((x, r))
    requires forall x, j: nat :: x in xs && j < |encode(x)| ==> item(encode(x)[..j]) == Err(UnexpectedEnd)
    requires k < |Concat(encode, xs)|
    ensures ParseMany(item, |xs|, Concat(encode, xs)[..k]) == Err(UnexpectedEnd)
  {
    var head, tail := encode(xs[0]), Concat(encode, xs[1..]);
    CutConcat(head, tail, k);
    if k < |head| {
      assert item(head[..k]) == Err(UnexpectedEnd);
    } else {
      ManyTruncated(encode, item, xs[1..], k - |head|);
      assert item(head + tail[..k - |head|]) == Ok((xs[0], tail[..k - |head|]));
    }
  }

  lemma LinesTruncated(l: Limits, lines: seq<string>, k: nat)
    requires l.FitU32() && forall line :: line in lines ==> StringInBounds(l, line)
    requires k < |Concat(StringBytes, lines)|
    ensures ParseMany(LineParser(l), |lines|, Concat(StringBytes, lines)[..k]) == Err(UnexpectedEnd)
  {
    forall x, r | x in lines ensures LineParser(l)(StringBytes(x) + r) == Ok((x, r)) {
      StringRoundTrip(l.str, x, r);
    }
    forall x, j: nat | x in lines && j < |StringBytes(x)|
      ensures LineParser(l)(StringBytes(x)[..j]) == Err(UnexpectedEnd)
    {
      FieldTruncated(l.str, Utf8.Encode(x), j);
    }
    ManyTruncated(StringBytes, LineParser(l), lines, k);
  }

  lemma OpTruncated(l: Limits, op: Operation, k: nat)
    requires l.FitU32() && OpInBounds(l, op) && k < |OpBytes(op)|
    ensures ParseOp(l, OpBytes(op)[..k]) == Err(UnexpectedEnd)
  {
    var summary, lines, payload := StringBytes(op.summary), Concat(StringBytes, op.detail), FieldBytes(op.payload);
    var count := U32Bytes(|op.detail|);
    CutConcat(summary, count + (lines + payload), k);
    if k < |summary| {
      FieldTruncated(l.str, Utf8.Encode(op.summary), k);
    } else {
      var k1 := k - |summary|;
      var b1 := (count + (lines + payload))[..k1];
      assert ParseString(l.str, OpBytes(op)[..k]) == Ok((op.summary, b1)) by {
        StringRoundTrip(l.str, op.summary, b1);
      }
      CutConcat(count, lines + payload, k1);
      if k1 >= 4 {
        OpTailTruncated(l, op, OpBytes(op)[..k], b1, k1 - 4);
      }
    }
  }

  lemma OpTailTruncated(l: Limits, op: Operation, b: seq<byte>, b1: seq<byte>, k: nat)
    requires l.FitU32() && OpInBounds(l, op)
    requires k < |Concat(StringBytes, op.detail) + FieldBytes(op.payload)|
    requires b1 == U32Bytes(|op.detail|) + (Concat(StringBytes, op.detail) + FieldBytes(op.payload))[..k]
    requires ParseString(l.str, b) == Ok((op.summary, b1))
    ensures ParseOp(l, b) == Err(UnexpectedEnd)
  {
    var lines, payload := Concat(StringBytes, op.detail), FieldBytes(op.payload);
    var b2 := (lines + payload)[..k];
    CutConcat(lines, payload, k);
    assert ParseU32(b1) == Ok((|op.detail|, b2)) by { U32RoundTrip(|op.detail|, b2); }
    if k < |lines| {
      assert ParseMany(LineParser(l), |op.detail|, b2) == Err(UnexpectedEnd) by {
        LinesTruncated(l, op.detail, k);
      }
    } else {
      var b3 := payload[..k - |lines|];
      assert ParseMany(LineParser(l), |op.detail|, b2) == Ok((op.detail, b3)) by {
        LinesRoundTrip(l, op.detail, b3);
      }
      assert ParseField(l.payload, b3) == Err(UnexpectedEnd) by {
        FieldTruncated(l.payload, op.payload, k - |lines|);
      }
    }
  }

  lemma OpsTruncated(l: Limits, ops: seq<Operation>, k: nat)
    requires l.FitU32() && forall op :: op in ops ==> OpInBounds(l, op)
    requires k < |Concat(OpBytes, ops)|
    ensures ParseMany(OpParser(l), |ops|, Concat(OpBytes, ops)[..k]) == Err(UnexpectedEnd)
  {
    forall x, r | x in ops ensures OpParser(l)(OpBytes(x) + r) == Ok((x, r)) {
      OpRoundTrip(l, x, r);
    }
    forall x, j: nat | x in ops && j < |OpBytes(x)|
      ensures OpParser(l)(OpBytes(x)[..j]) == Err(UnexpectedEnd)
    {
      OpTruncated(l, x, j);
    }
    ManyTruncated(OpBytes, OpParser(l), ops, k);
  }

  lemma TransactionTruncated(l: Limits, t: Transaction, k: nat)
    requires l.FitU32() && InBounds(l, t) && k < |TransactionBytes(t)|
    ensures ParseTransaction(l, TransactionBytes(t)[..k]) == Err(UnexpectedEnd)
  {
    var ops := Concat(OpBytes, t.ops);
    var b := TransactionBytes(t)[..k];
    if k >= 68 {
      var tail := ops[..k - 68];
      assert b == t.server + (t.nonce + (U32Bytes(|t.ops|) + tail));
      Array32RoundTrip(t.server, t.nonce + (U32Bytes(|t.ops|) + tail));
      Array32RoundTrip(t.nonce, U32Bytes(|t.ops|) + tail);
      U32RoundTrip(|t.ops|, tail);
      OpsTruncated(l, t.ops, k - 68);
    }
  }

  // A proper prefix of an in-bounds encoding always ends "unexpectedly", and a
  // proper extension always has exactly the added bytes trailing.
  lemma DamagedIsRejected(s: SignedTransaction, k: nat, extra: seq<byte>)
    requires InBounds(DECODE_LIMITS, s.transaction)
    ensures k < |SignedBytes(s)| ==> Decode(SignedBytes(s)[..k]) == Err(UnexpectedEnd)
    ensures extra != [] ==> Decode(SignedBytes(s) + extra) == Err(TrailingBytes(|extra|))
  {
    SignedRoundTrip(DECODE_LIMITS, s, extra);
    var t := TransactionBytes(s.transaction);
    if k < |SignedBytes(s)| {
      CutConcat(t, s.admin + s.signature, k);
      if k < |t| {
        TransactionTruncated(DECODE_LIMITS, s.transaction, k);
      } else {
        TransactionRoundTrip(DECODE_LIMITS, s.transaction, (s.admin + s.signature)[..k - |t|]);
      }
    }
  }

  // ---------- sizes ----------

  lemma {:induction false} ConcatLength<T>(encode: T -> seq<byte>, xs: seq<T>, lo: nat, hi: nat)
    requires forall x :: x in xs ==> lo <= |encode(x)| <= hi
    ensures lo * |xs| <= |Concat(encode, xs)| <= hi * |xs|
  {
    if xs != [] {
      ConcatLength(encode, xs[1..], lo, hi);
      Step(lo, |xs|);
      Step(hi, |xs|);
    }
  }

  const MIN_WIRE := 164
  const MAX_WIRE := 12_854_180

  lemma OpLength(op: Operation)
    requires OpInBounds(DECODE_LIMITS, op)
    ensures |OpBytes(op)| <= 200_844
  {
    forall line | line in op.detail ensures 0 <= |StringBytes(line)| <= 4100 {
      assert StringInBounds(DECODE_LIMITS, line);
    }
    ConcatLength(StringBytes, op.detail, 0, 4100);
  }

  lemma InBoundsIsShort(t: Transaction)
    requires InBounds(DECODE_LIMITS, t)
    ensures |TransactionBytes(t)| <= MAX_WIRE - 96
  {
    forall op | op in t.ops ensures 0 <= |OpBytes(op)| <= 200_844 {
      OpLength(op);
    }
    ConcatLength(OpBytes, t.ops, 0, 200_844);
  }

  // Whatever is accepted has between 164 and 12,854,180 bytes.
  lemma AcceptedSize(b: seq<byte>)
    requires Decode(b).Ok?
    ensures MIN_WIRE <= |b| <= MAX_WIRE
  {
    var s := Decode(b).value;
    DecodeExactly(b, s);
    InBoundsIsShort(s.transaction);
  }

  function FullLine(): (s: string)
    ensures |s| == 4096
  {
    seq(4096, _ => 'x')
  }

  function FullOp(): Operation {
    Operation(FullLine(), seq(32, _ => FullLine()), Zeros(64 * 1024))
  }

  lemma FullLineLength()
    ensures |Utf8.Encode(FullLine())| == 4096 && |StringBytes(FullLine())| == 4100
  {
    Utf8.ByteLength(FullLine());
  }

  lemma FullOpLength()
    ensures OpInBounds(DECODE_LIMITS, FullOp()) && |OpBytes(FullOp())| == 200_844
  {
    hide Utf8.Encode, FullLine, Concat;
    FullLineLength();
    ConcatLength(StringBytes, FullOp().detail, 4100, 4100);
  }

  function FullBatch(key: Array32, signature: Array64): SignedTransaction {
    SignedTransaction(Transaction(key, key, seq(DECODE_LIMITS.ops, _ => FullOp())), key, signature)
  }

  lemma FullBatchFits(key: Array32, signature: Array64)
    ensures InBounds(DECODE_LIMITS, FullBatch(key, signature).transaction)
    ensures |SignedBytes(FullBatch(key, signature))| == MAX_WIRE
  {
    hide FullOp, OpInBounds, OpBytes, Concat;
    var ops := FullBatch(key, signature).transaction.ops;
    FullOpLength();
    assert forall op :: op in ops ==> op == FullOp();
    ConcatLength(OpBytes, ops, 200_844, 200_844);
  }

  // Both ends of the range are reached.
  lemma SizesAreTight(key: Array32, signature: Array64)
    ensures exists b :: Decode(b).Ok? && |b| == MIN_WIRE
    ensures exists b :: Decode(b).Ok? && |b| == MAX_WIRE
  {
    var least := SignedTransaction(Transaction(key, key, []), key, signature);
    DecodeExactly(SignedBytes(least), least);
    assert |SignedBytes(least)| == MIN_WIRE;
    var most := FullBatch(key, signature);
    FullBatchFits(key, signature);
    DecodeExactly(SignedBytes(most), most);
  }
}
