// Which complaint the decoder makes: the first cap that an encoded value
// exceeds, in the order of the encoding.
module Faults {
  import opened Bytes
  import opened TxFormat
  import opened Canonical
  import Utf8

  // ---------- the first thing wrong with a value ----------

  function LengthFault(len: nat, max: nat): Option<Malformed> {
    if len > max then Some(FieldTooLong(len, max)) else None
  }

  function StringFault(l: Limits, s: string): Option<Malformed> {
    LengthFault(|Utf8.Encode(s)|, l.str)
  }

  function FirstOf<T>(fault: T -> Option<Malformed>, xs: seq<T>): Option<Malformed> {
    if xs == [] then None
    else if fault(xs[0]).Some? then fault(xs[0])
    else FirstOf(fault, xs[1..])
  }

  function LineFault(l: Limits): string -> Option<Malformed> {
    s => StringFault(l, s)
  }

  function OpFault(l: Limits, op: Operation): Option<Malformed> {
    var lines := FirstOf(LineFault(l), op.detail);
    if StringFault(l, op.summary).Some? then StringFault(l, op.summary)
    else if |op.detail| > l.detail then Some(TooManyDetailLines(|op.detail|))
    else if lines.Some? then lines
    else LengthFault(|op.payload|, l.payload)
  }

  function FaultOf(l: Limits): Operation -> Option<Malformed> {
    op => OpFault(l, op)
  }

  function Fault(l: Limits, t: Transaction): Option<Malformed> {
    if |t.ops| > l.ops then Some(TooManyOps(|t.ops|)) else FirstOf(FaultOf(l), t.ops)
  }

  // What reading a value gives when its first fault is `f`.
  function Outcome<T>(f: Option<Malformed>, x: T, rest: seq<byte>): Parsed<T> {
    match f
    case None => Ok((x, rest))
    case Some(e) => Err(e)
  }

  lemma {:induction false} NoneOf<T(!new)>(fault: T -> Option<Malformed>, xs: seq<T>)
    ensures FirstOf(fault, xs) == None <==> forall x :: x in xs ==> fault(x) == None
  {
    if xs != [] {
      NoneOf(fault, xs[1..]);
      assert forall x :: x in xs <==> x == xs[0] || x in xs[1..];
    }
  }

  lemma OpFaultless(l: Limits, op: Operation)
    ensures OpFault(l, op) == None <==> OpInBounds(l, op)
  {
    NoneOf(LineFault(l), op.detail);
  }

  lemma Faultless(l: Limits, t: Transaction)
    ensures Fault(l, t) == None <==> InBounds(l, t)
  {
    NoneOf(FaultOf(l), t.ops);
    forall op ensures FaultOf(l)(op) == None <==> OpInBounds(l, op) {
      OpFaultless(l, op);
    }
    hide OpFault, OpInBounds;
  }

  // ---------- the decoder finds it ----------

  lemma FieldFault(max: nat, f: seq<byte>, rest: seq<byte>)
    requires |f| < U32_SIZE
    ensures ParseField(max, FieldBytes(f) + rest) == Outcome(LengthFault(|f|, max), f, rest)
  {
    U32RoundTrip(|f|, f + rest);
    assert FieldBytes(f) + rest == U32Bytes(|f|) + (f + rest);
    assert (f + rest)[..|f|] == f && (f + rest)[|f|..] == rest;
    hide U32Bytes, ParseU32;
  }

  lemma Undecodable(raw: seq<byte>)
    ensures Utf8.Decode(raw) == None <==> forall s :: Utf8.Encode(s) != raw
  {
    forall s ensures Utf8.Decode(raw) == Some(s) <==> Utf8.Encode(s) == raw {
      Utf8.DecodeIffEncode(raw, s);
    }
    hide Utf8.Encode, Utf8.Decode;
    if Utf8.Decode(raw).Some? {
      assert Utf8.Encode(Utf8.Decode(raw).value) == raw;
    }
  }

  // A text field is refused for its length first, and then exactly when its
  // bytes are the encoding of no string.
  lemma TextFault(max: nat, raw: seq<byte>, rest: seq<byte>, s: string)
    requires |raw| < U32_SIZE
    ensures var r := ParseString(max, FieldBytes(raw) + rest);
            && (r == Err(FieldTooLong(|raw|, max)) <==> |raw| > max)
            && (r == Err(InvalidUtf8) <==> |raw| <= max && forall s' :: Utf8.Encode(s') != raw)
            && (r == Ok((s, rest)) <==> |raw| <= max && Utf8.Encode(s) == raw)
  {
    hide ParseField, FieldBytes, Utf8.Encode, Utf8.Decode;
    FieldFault(max, raw, rest);
    Undecodable(raw);
    Utf8.DecodeIffEncode(raw, s);
  }

  lemma StringOutcome(l: Limits, s: string, rest: seq<byte>)
    requires |Utf8.Encode(s)| < U32_SIZE
    ensures ParseString(l.str, StringBytes(s) + rest) == Outcome(StringFault(l, s), s, rest)
  {
    FieldFault(l.str, Utf8.Encode(s), rest);
    Utf8.DecodeOfEncode(s);
    hide ParseField, FieldBytes, Utf8.Encode, Utf8.Decode;
  }

  lemma {:induction false} ManyOutcome<T(!new)>(
      encode: T -> seq<byte>, item: seq<byte> -> Parsed<T>, fault: T -> Option<Malformed>, xs: seq<T>, rest: seq<byte>)
    requires forall x, r :: x in xs ==> item(encode(x) + r) == Outcome(fault(x), x, r)
    ensures ParseMany(item, |xs|, Concat(encode, xs) + rest) == Outcome(FirstOf(fault, xs), xs, rest)
  {
    if xs == [] {
      assert [] + rest == rest;
    } else {
      var tail := Concat(encode, xs[1..]) + rest;
      assert Concat(encode, xs) + rest == encode(xs[0]) + tail;
      ManyOutcome(encode, item, fault, xs[1..], rest);
      assert item(encode(xs[0]) + tail) == Outcome(fault(xs[0]), xs[0], tail);
      assert [xs[0]] + xs[1..] == xs;
    }
  }

  lemma LinesOutcome(l: Limits, lines: seq<string>, rest: seq<byte>)
    requires forall line :: line in lines ==> |Utf8.Encode(line)| < U32_SIZE
    ensures ParseMany(LineParser(l), |lines|, Concat(StringBytes, lines) + rest)
         == Outcome(FirstOf(LineFault(l), lines), lines, rest)
  {
    forall x, r | x in lines ensures LineParser(l)(StringBytes(x) + r) == Outcome(LineFault(l)(x), x, r) {
      StringOutcome(l, x, r);
    }
    ManyOutcome(StringBytes, LineParser(l), LineFault(l), lines, rest);
  }

  lemma OpOutcome(l: Limits, op: Operation, rest: seq<byte>)
    requires OpInBounds(U32_LIMITS, op)
    ensures ParseOp(l, OpBytes(op) + rest) == Outcome(OpFault(l, op), op, rest)
  {
    var r3 := FieldBytes(op.payload) + rest;
    var r2 := Concat(StringBytes, op.detail) + r3;
    var r1 := U32Bytes(|op.detail|) + r2;
    OpSplit(op, rest);
    StringOutcome(l, op.summary, r1);
    U32RoundTrip(|op.detail|, r2);
    LinesOutcome(l, op.detail, r3);
    FieldFault(l.payload, op.payload, rest);
    hide ParseString, ParseU32, ParseMany, ParseField, StringBytes, U32Bytes, FieldBytes, Concat, OpBytes;
    hide FirstOf, Utf8.Encode, StringFault;
  }

  lemma TransactionOutcome(l: Limits, t: Transaction, rest: seq<byte>)
    requires InBounds(U32_LIMITS, t)
    ensures ParseTransaction(l, TransactionBytes(t) + rest) == Outcome(Fault(l, t), t, rest)
  {
    var r3 := Concat(OpBytes, t.ops) + rest;
    var r2 := U32Bytes(|t.ops|) + r3;
    TransactionSplit(t, rest);
    Array32RoundTrip(t.server, t.nonce + r2);
    Array32RoundTrip(t.nonce, r2);
    U32RoundTrip(|t.ops|, r3);
    forall x, r | x in t.ops ensures OpParser(l)(OpBytes(x) + r) == Outcome(FaultOf(l)(x), x, r) {
      OpOutcome(l, x, r);
    }
    ManyOutcome(OpBytes, OpParser(l), FaultOf(l), t.ops, rest);
    hide ParseArray32, ParseU32, ParseMany, U32Bytes, Concat, OpBytes, TransactionBytes, FirstOf, OpFault;
  }

  // What is encoded with truthful lengths is read back, or refused with the
  // first cap it exceeds, by name and number: 64 operations, 32 detail lines,
  // 4096 bytes of text, 65536 of payload.
  lemma DecodeNamesFault(s: SignedTransaction)
    requires InBounds(U32_LIMITS, s.transaction)
    ensures Decode(SignedBytes(s))
         == match Fault(Limits(64, 32, 4096, 65536), s.transaction)
            case None => Ok(s)
            case Some(e) => Err(e)
  {
    TransactionOutcome(DECODE_LIMITS, s.transaction, s.admin + s.signature);
    if Fault(DECODE_LIMITS, s.transaction) == None {
      Faultless(DECODE_LIMITS, s.transaction);
      DecodeExactly(SignedBytes(s), s);
    }
    hide ParseTransaction, TransactionBytes, Fault, InBounds;
  }
}
