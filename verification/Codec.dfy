// The encoder and the decoder as the source runs them: an output buffer that
// grows in nested loops, and a bounds-checked cursor that only moves forward.
module Codec {
  import opened Bytes
  import opened TxFormat
  import opened Canonical
  import Layout
  import Radix
  import Utf8

  // A 64-bit `usize`; no slice is longer than `isize::MAX`.
  const USIZE_MAX := 0xFFFF_FFFF_FFFF_FFFF
  const ISIZE_MAX := 0x7FFF_FFFF_FFFF_FFFF

  // ---------- encoding ----------

  method PutBytes(out: seq<byte>, b: seq<byte>) returns (out': seq<byte>)
    ensures out' == out + FieldBytes(b)
  {
    out' := out + U32Bytes(|b|);
    out' := out' + b;
    Assoc(out, U32Bytes(|b|), b);
  }

  method EncodeTransaction(t: Transaction) returns (out: seq<byte>)
    ensures out == TransactionBytes(t)
  {
    out := t.server + t.nonce + U32Bytes(|t.ops|);
    ghost var head := out;
    for i := 0 to |t.ops|
      invariant out + Concat(OpBytes, t.ops[i..]) == head + Concat(OpBytes, t.ops)
    {
      hide OpBytes;
      ghost var before, rest := out, Concat(OpBytes, t.ops[i + 1..]);
      out := EncodeOp(out, t.ops[i]);
      assert t.ops[i..][1..] == t.ops[i + 1..];
      Assoc(before, OpBytes(t.ops[i]), rest);
    }
    assert t.ops[|t.ops|..] == [] && out == head + Concat(OpBytes, t.ops);
    Assoc(t.server + t.nonce, U32Bytes(|t.ops|), Concat(OpBytes, t.ops));
    Assoc(t.server, t.nonce, U32Bytes(|t.ops|) + Concat(OpBytes, t.ops));
  }

  // The body of the encoder's outer loop.
  method EncodeOp(start: seq<byte>, op: Operation) returns (out: seq<byte>)
    ensures out == start + OpBytes(op)
  {
    out := PutBytes(start, Utf8.Encode(op.summary));
    out := out + U32Bytes(|op.detail|);
    ghost var head := out;
    for j := 0 to |op.detail|
      invariant out + Concat(StringBytes, op.detail[j..]) == head + Concat(StringBytes, op.detail)
    {
      ghost var before := out;
      out := PutBytes(out, Utf8.Encode(op.detail[j]));
      assert op.detail[j..][1..] == op.detail[j + 1..];
      Assoc(before, StringBytes(op.detail[j]), Concat(StringBytes, op.detail[j + 1..]));
    }
    assert op.detail[|op.detail|..] == [] && out == head + Concat(StringBytes, op.detail);
    out := PutBytes(out, op.payload);
    assert out == start + OpBytes(op) by {
      var lines, payload := Concat(StringBytes, op.detail), FieldBytes(op.payload);
      Assoc(head, lines, payload);
      Assoc(start + StringBytes(op.summary), U32Bytes(|op.detail|), lines + payload);
      Assoc(start, StringBytes(op.summary), U32Bytes(|op.detail|) + (lines + payload));
    }
  }

  method EncodeSigned(s: SignedTransaction) returns (out: seq<byte>)
    ensures out == SignedBytes(s)
  {
    out := EncodeTransaction(s.transaction);
    out := out + s.admin;
    out := out + s.signature;
    Assoc(TransactionBytes(s.transaction), s.admin, s.signature);
  }

  // ---------- decoding ----------

  class Reader {
    const buf: seq<byte>
    var pos: nat
    ghost var takes: nat  // how often `Take` was called

    ghost predicate Valid()
      reads this
    {
      pos <= |buf| <= ISIZE_MAX
    }

    // The bytes not yet consumed.
    ghost function Rest(): seq<byte>
      requires Valid()
      reads this
    {
      buf[pos..]
    }

    // The outcome and the cursor agree with a step of the grammar.
    ghost predicate Agrees<T>(r: Result<T, Malformed>, p: Parsed<T>)
      requires Valid()
      reads this
    {
      match p
      case Err(e) => r == Err(e)
      case Ok((v, rest)) => r == Ok(v) && Rest() == rest
    }

    constructor (buf: seq<byte>)
      requires |buf| <= ISIZE_MAX
      ensures Valid() && Rest() == buf && takes == 0
    {
      this.buf := buf;
      pos := 0;
      takes := 0;
    }

    method Take(n: nat) returns (r: Result<seq<byte>, Malformed>)
      requires Valid() && n <= USIZE_MAX
      modifies this
      ensures Valid() && old(pos) <= pos && takes == old(takes) + 1
      ensures r.Err? ==> pos == old(pos)
      ensures if old(pos) + n > USIZE_MAX then r == Err(LengthOverflow)
              else Agrees(r, ParseTake(n, old(Rest())))
    {
      takes := takes + 1;
      if pos + n > USIZE_MAX {
        return Err(LengthOverflow);
      }
      var end := pos + n;
      if end > |buf| {
        return Err(UnexpectedEnd);
      }
      var slice := buf[pos..end];
      pos := end;
      r := Ok(slice);
      assert buf[old(pos)..][..n] == slice;
      assert buf[old(pos)..][n..] == buf[end..];
    }

    method TakeArray32() returns (r: Result<Array32, Malformed>)
      requires Valid()
      modifies this
      ensures Valid() && old(pos) <= pos && takes == old(takes) + 1
      ensures Agrees(r, ParseArray32(old(Rest())))
    {
      var raw :- Take(32);
      r := Ok(raw);
    }

    method TakeArray64() returns (r: Result<Array64, Malformed>)
      requires Valid()
      modifies this
      ensures Valid() && old(pos) <= pos && takes == old(takes) + 1
      ensures Agrees(r, ParseArray64(old(Rest())))
    {
      var raw :- Take(64);
      r := Ok(raw);
    }

    method TakeU32() returns (r: Result<nat, Malformed>)
      requires Valid()
      modifies this
      ensures Valid() && old(pos) <= pos && takes == old(takes) + 1
      ensures r.Ok? ==> r.value < U32_SIZE
      ensures r.Ok? ==> |old(Rest())| >= 4 && r.value == Radix.Value(256, old(Rest())[..4])
      ensures Agrees(r, ParseU32(old(Rest())))
    {
      var raw :- Take(4);
      Layout.WordReads(raw);
      r := Ok(U32Value(raw));
    }

    method TakeBytes(max: nat) returns (r: Result<seq<byte>, Malformed>)
      requires Valid()
      modifies this
      ensures Valid() && old(pos) <= pos && takes <= old(takes) + 2
      ensures Agrees(r, ParseField(max, old(Rest())))
    {
      var len :- TakeU32();
      if len > max {
        return Err(FieldTooLong(len, max));
      }
      r := Take(len);
    }

    method TakeString(max: nat) returns (r: Result<string, Malformed>)
      requires Valid()
      modifies this
      ensures Valid() && old(pos) <= pos && takes <= old(takes) + 2
      ensures Agrees(r, ParseString(max, old(Rest())))
    {
      var raw :- TakeBytes(max);
      match Utf8.Decode(raw) {
        case None => r := Err(InvalidUtf8);
        case Some(s) => r := Ok(s);
      }
    }

    method Finish() returns (r: Result<(), Malformed>)
      requires Valid()
      ensures r == if Rest() == [] then Ok(()) else Err(TrailingBytes(|Rest()|))
    {
      if pos != |buf| {
        return Err(TrailingBytes(|buf| - pos));
      }
      r := Ok(());
    }
  }

  // A counted reading loop that has `done` behind it and `n` turns to go.
  function ReadLoop<T>(item: seq<byte> -> Parsed<T>, n: nat, done: seq<T>, b: seq<byte>): Parsed<seq<T>> {
    if n == 0 then Ok((done, b))
    else
      var (x, rest) :- item(b);
      ReadLoop(item, n - 1, done + [x], rest)
  }

  // Pushing to the back as the items come gives the list the grammar describes.
  lemma {:induction false} ReadLoopIsMany<T>(item: seq<byte> -> Parsed<T>, n: nat, done: seq<T>, b: seq<byte>)
    ensures ReadLoop(item, n, done, b)
         == match ParseMany(item, n, b)
            case Err(e) => Err(e)
            case Ok((xs, rest)) => Ok((done + xs, rest))
  {
    if n == 0 {
      assert done + [] == done;
    } else if item(b).Ok? {
      var (x, rest) := item(b).value;
      ReadLoopIsMany(item, n - 1, done + [x], rest);
      var all := ParseMany(item, n - 1, rest);
      if all.Ok? {
        assert done + ([x] + all.value.0) == (done + [x]) + all.value.0;
      }
    }
  }

  lemma ReadLoopFromNothing<T>(item: seq<byte> -> Parsed<T>, n: nat, b: seq<byte>)
    ensures ReadLoop(item, n, [], b) == ParseMany(item, n, b)
  {
    ReadLoopIsMany(item, n, [], b);
    var all := ParseMany(item, n, b);
    if all.Ok? {
      assert [] + all.value.0 == all.value.0;
    }
  }

  // The number of reads that `turns` turns of a loop may make.
  ghost function Budget(perTurn: nat, turns: nat): nat {
    if turns == 0 then 0 else Budget(perTurn, turns - 1) + perTurn
  }

  lemma {:induction false} BudgetTotal(turns: nat)
    ensures Budget(2, turns) == 2 * turns && Budget(69, turns) == 69 * turns
  {
    if turns > 0 {
      BudgetTotal(turns - 1);
    }
  }

  // The inner loop of the decoder.
  method DecodeLines(r: Reader, d: nat) returns (res: Result<seq<string>, Malformed>)
    requires r.Valid()
    modifies r
    ensures r.Valid() && old(r.pos) <= r.pos && r.takes <= old(r.takes) + Budget(2, d)
    ensures r.Agrees(res, ParseMany(LineParser(DECODE_LIMITS), d, old(r.Rest())))
  {
    hide ParseString;
    ghost var item := LineParser(DECODE_LIMITS);
    ghost var all := ParseMany(item, d, r.Rest());
    var detail := [];
    ReadLoopFromNothing(item, d, r.Rest());
    var left := d;
    while left > 0
      invariant r.Valid() && old(r.pos) <= r.pos
      invariant r.takes + Budget(2, left) <= old(r.takes) + Budget(2, d)
      invariant ReadLoop(item, left, detail, r.Rest()) == all
    {
      var line :- r.TakeString(DECODE_LIMITS.str);
      detail := detail + [line];
      left := left - 1;
    }
    res := Ok(detail);
  }

  // The body of the decoder's outer loop.
  method DecodeOp(r: Reader) returns (res: Result<Operation, Malformed>)
    requires r.Valid()
    modifies r
    ensures r.Valid() && old(r.pos) <= r.pos && r.takes <= old(r.takes) + 69
    ensures r.Agrees(res, ParseOp(DECODE_LIMITS, old(r.Rest())))
  {
    var summary :- r.TakeString(DECODE_LIMITS.str);
    var d :- r.TakeU32();
    if d > DECODE_LIMITS.detail {
      return Err(TooManyDetailLines(d));
    }
    BudgetTotal(d);
    var detail :- DecodeLines(r, d);
    var payload :- r.TakeBytes(DECODE_LIMITS.payload);
    res := Ok(Operation(summary, detail, payload));
  }

  // The outer loop of the decoder.
  method DecodeOps(r: Reader, n: nat) returns (res: Result<seq<Operation>, Malformed>)
    requires r.Valid()
    modifies r
    ensures r.Valid() && old(r.pos) <= r.pos && r.takes <= old(r.takes) + Budget(69, n)
    ensures r.Agrees(res, ParseMany(OpParser(DECODE_LIMITS), n, old(r.Rest())))
  {
    hide ParseOp;
    ghost var item := OpParser(DECODE_LIMITS);
    ghost var all := ParseMany(item, n, r.Rest());
    var ops := [];
    ReadLoopFromNothing(item, n, r.Rest());
    var left := n;
    while left > 0
      invariant r.Valid() && old(r.pos) <= r.pos
      invariant r.takes + Budget(69, left) <= old(r.takes) + Budget(69, n)
      invariant ReadLoop(item, left, ops, r.Rest()) == all
    {
      var op :- DecodeOp(r);
      ops := ops + [op];
      left := left - 1;
    }
    res := Ok(ops);
  }

  method DecodeFrom(r: Reader) returns (res: Result<Transaction, Malformed>)
    requires r.Valid()
    modifies r
    ensures r.Valid() && old(r.pos) <= r.pos && r.takes <= old(r.takes) + 4419
    ensures r.Agrees(res, ParseTransaction(DECODE_LIMITS, old(r.Rest())))
  {
    var server :- r.TakeArray32();
    var nonce :- r.TakeArray32();
    var n :- r.TakeU32();
    if n > DECODE_LIMITS.ops {
      return Err(TooManyOps(n));
    }
    BudgetTotal(n);
    var ops :- DecodeOps(r, n);
    res := Ok(Transaction(server, nonce, ops));
  }

  // At most 4,421 reads of the buffer, whatever lengths the input claims.
  method DecodeSigned(b: seq<byte>) returns (res: Result<SignedTransaction, Malformed>, ghost takes: nat)
    requires |b| <= ISIZE_MAX
    ensures res == Decode(b)
    ensures takes <= 4421
  {
    var r := new Reader(b);
    takes := 0;
    var t := DecodeFrom(r);
    takes := r.takes;
    if t.Err? { return Err(t.error), takes; }
    var admin := r.TakeArray32();
    takes := r.takes;
    if admin.Err? { return Err(admin.error), takes; }
    var signature := r.TakeArray64();
    takes := r.takes;
    if signature.Err? { return Err(signature.error), takes; }
    var end := r.Finish();
    if end.Err? { return Err(end.error), takes; }
    res := Ok(SignedTransaction(t.value, admin.value, signature.value));
  }
}
