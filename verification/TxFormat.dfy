// The canonical encoding of transactions and the decoder's grammar, as
// functions on byte sequences, with the theorem that they are exact inverses.
module TxFormat {
  import opened Bytes
  import Utf8

  // ---------- data model ----------

  datatype Operation = Operation(summary: string, detail: seq<string>, payload: seq<byte>)

  datatype Transaction = Transaction(server: Array32, nonce: Array32, ops: seq<Operation>)

  datatype SignedTransaction =
    SignedTransaction(transaction: Transaction, admin: Array32, signature: Array64)

  // The reasons the source gives inside `Error::Malformed`.
  datatype Malformed =
    | LengthOverflow
    | UnexpectedEnd
    | TooManyOps(count: nat)
    | TooManyDetailLines(count: nat)
    | FieldTooLong(len: nat, max: nat)
    | InvalidUtf8
    | TrailingBytes(count: nat)

  // A decode step: the value read and the bytes left over.
  type Parsed<T> = Result<(T, seq<byte>), Malformed>

  // The four caps of the decoder. The encoder enforces none of them.
  datatype Limits = Limits(ops: nat, detail: nat, str: nat, payload: nat) {
    // A count or length within the caps survives the cast to 32 bits.
    predicate FitU32() {
      ops < U32_SIZE && detail < U32_SIZE && str < U32_SIZE && payload < U32_SIZE
    }
  }

  const DECODE_LIMITS := Limits(64, 32, 4096, 64 * 1024)

  // The widest caps under which every length prefix still tells the truth.
  const U32_LIMITS := Limits(U32_SIZE - 1, U32_SIZE - 1, U32_SIZE - 1, U32_SIZE - 1)

  predicate StringInBounds(l: Limits, s: string) {
    |Utf8.Encode(s)| <= l.str
  }

  predicate OpInBounds(l: Limits, op: Operation) {
    && StringInBounds(l, op.summary)
    && |op.detail| <= l.detail
    && (forall line :: line in op.detail ==> StringInBounds(l, line))
    && |op.payload| <= l.payload
  }

  predicate InBounds(l: Limits, t: Transaction) {
    && |t.ops| <= l.ops
    && (forall op :: op in t.ops ==> OpInBounds(l, op))
  }

  // ---------- encoding ----------

  function FieldBytes(b: seq<byte>): seq<byte> {
    U32Bytes(|b|) + b
  }

  function StringBytes(s: string): seq<byte> {
    FieldBytes(Utf8.Encode(s))
  }

  function Concat<T>(encode: T -> seq<byte>, xs: seq<T>): seq<byte> {
    if xs == [] then [] else encode(xs[0]) + Concat(encode, xs[1..])
  }

  function OpBytes(op: Operation): seq<byte> {
    StringBytes(op.summary)
    + (U32Bytes(|op.detail|)
       + (Concat(StringBytes, op.detail)
          + FieldBytes(op.payload)))
  }

  function TransactionBytes(t: Transaction): seq<byte> {
    t.server + (t.nonce + (U32Bytes(|t.ops|) + Concat(OpBytes, t.ops)))
  }

  function SignedBytes(s: SignedTransaction): seq<byte> {
    TransactionBytes(s.transaction) + (s.admin + s.signature)
  }

  // ---------- decoding ----------

  function ParseTake(n: nat, b: seq<byte>): Parsed<seq<byte>> {
    if |b| < n then Err(UnexpectedEnd) else Ok((b[..n], b[n..]))
  }

  function ParseArray32(b: seq<byte>): Parsed<Array32> {
    if |b| < 32 then Err(UnexpectedEnd) else Ok((b[..32], b[32..]))
  }

  function ParseArray64(b: seq<byte>): Parsed<Array64> {
    if |b| < 64 then Err(UnexpectedEnd) else Ok((b[..64], b[64..]))
  }

  function ParseU32(b: seq<byte>): Parsed<nat> {
    if |b| < 4 then Err(UnexpectedEnd) else Ok((U32Value(b[..4]), b[4..]))
  }

  function ParseField(max: nat, b: seq<byte>): Parsed<seq<byte>> {
    var (len, rest) :- ParseU32(b);
    if len > max then Err(FieldTooLong(len, max)) else ParseTake(len, rest)
  }

  function ParseString(max: nat, b: seq<byte>): Parsed<string> {
    var (raw, rest) :- ParseField(max, b);
    match Utf8.Decode(raw)
    case None => Err(InvalidUtf8)
    case Some(s) => Ok((s, rest))
  }

  function ParseMany<T>(item: seq<byte> -> Parsed<T>, n: nat, b: seq<byte>): Parsed<seq<T>> {
    if n == 0 then Ok(([], b))
    else
      var (x, rest) :- item(b);
      var (xs, rest') :- ParseMany(item, n - 1, rest);
      Ok(([x] + xs, rest'))
  }

  function LineParser(l: Limits): seq<byte> -> Parsed<string> {
    b => ParseString(l.str, b)
  }

  function ParseOp(l: Limits, b: seq<byte>): Parsed<Operation> {
    var (summary, b1) :- ParseString(l.str, b);
    var (d, b2) :- ParseU32(b1);
    if d > l.detail then Err(TooManyDetailLines(d)) else
    var (detail, b3) :- ParseMany(LineParser(l), d, b2);
    var (payload, b4) :- ParseField(l.payload, b3);
    Ok((Operation(summary, detail, payload), b4))
  }

  function OpParser(l: Limits): seq<byte> -> Parsed<Operation> {
    b => ParseOp(l, b)
  }

  function ParseTransaction(l: Limits, b: seq<byte>): Parsed<Transaction> {
    var (server, b1) :- ParseArray32(b);
    var (nonce, b2) :- ParseArray32(b1);
    var (n, b3) :- ParseU32(b2);
    if n > l.ops then Err(TooManyOps(n)) else
    var (ops, b4) :- ParseMany(OpParser(l), n, b3);
    Ok((Transaction(server, nonce, ops), b4))
  }

  function ParseSigned(l: Limits, b: seq<byte>): Result<SignedTransaction, Malformed> {
    var (t, b1) :- ParseTransaction(l, b);
    var (admin, b2) :- ParseArray32(b1);
    var (signature, b3) :- ParseArray64(b2);
    if b3 != [] then Err(TrailingBytes(|b3|)) else Ok(SignedTransaction(t, admin, signature))
  }

  // ---------- the two directions, one field at a time ----------

  lemma U32RoundTrip(n: nat, rest: seq<byte>)
    requires n < U32_SIZE
    ensures ParseU32(U32Bytes(n) + rest) == Ok((n, rest))
  {
    U32ValueOfBytes(n);
    assert (U32Bytes(n) + rest)[..4] == U32Bytes(n);
  }

  lemma U32Canonical(b: seq<byte>)
    requires ParseU32(b).Ok?
    ensures var (n, rest) := ParseU32(b).value; n < U32_SIZE && b == U32Bytes(n) + rest
  {
    U32BytesOfValue(b[..4]);
  }

  lemma FieldRoundTrip(max: nat, f: seq<byte>, rest: seq<byte>)
    requires |f| <= max < U32_SIZE
    ensures ParseField(max, FieldBytes(f) + rest) == Ok((f, rest))
  {
    U32RoundTrip(|f|, f + rest);
    assert FieldBytes(f) + rest == U32Bytes(|f|) + (f + rest);
    assert (f + rest)[..|f|] == f && (f + rest)[|f|..] == rest;
  }

  lemma FieldCanonical(max: nat, b: seq<byte>)
    requires ParseField(max, b).Ok?
    ensures var (f, rest) := ParseField(max, b).value; |f| <= max && b == FieldBytes(f) + rest
  {
    U32Canonical(b);
  }

  lemma StringRoundTrip(max: nat, s: string, rest: seq<byte>)
    requires |Utf8.Encode(s)| <= max < U32_SIZE
    ensures ParseString(max, StringBytes(s) + rest) == Ok((s, rest))
  {
    FieldRoundTrip(max, Utf8.Encode(s), rest);
    Utf8.DecodeOfEncode(s);
  }

  lemma StringCanonical(max: nat, b: seq<byte>)
    requires ParseString(max, b).Ok?
    ensures var (s, rest) := ParseString(max, b).value;
            |Utf8.Encode(s)| <= max && b == StringBytes(s) + rest
  {
    FieldCanonical(max, b);
    Utf8.EncodeOfDecode(ParseField(max, b).value.0);
  }

  // A counted run of items inverts when each item does.
  lemma {:induction false} ManyRoundTrip<T(!new)>(
      encode: T -> seq<byte>, item: seq<byte> -> Parsed<T>, xs: seq<T>, rest: seq<byte>)
    requires forall x, r :: x in xs ==> item(encode(x) + r) == Ok((x, r))
    ensures ParseMany(item, |xs|, Concat(encode, xs) + rest) == Ok((xs, rest))
  {
    if xs == [] {
      assert [] + rest == rest;
    } else {
      var tail := Concat(encode, xs[1..]) + rest;
      assert Concat(encode, xs) + rest == encode(xs[0]) + tail;
      ManyRoundTrip(encode, item, xs[1..], rest);
      assert [xs[0]] + xs[1..] == xs;
    }
  }

  lemma {:induction false} ManyCanonical<T(!new)>(
      encode: T -> seq<byte>, item: seq<byte> -> Parsed<T>, ok: T -> bool, n: nat, b: seq<byte>)
    requires forall c :: item(c).Ok? ==> ok(item(c).value.0) && c == encode(item(c).value.0) + item(c).value.1
    requires ParseMany(item, n, b).Ok?
    ensures var (xs, rest) := ParseMany(item, n, b).value;
            && |xs| == n && (forall x :: x in xs ==> ok(x))
            && b == Concat(encode, xs) + rest
  {
    if n > 0 {
      var (x, rest) := item(b).value;
      ManyCanonical(encode, item, ok, n - 1, rest);
      var (xs, rest') := ParseMany(item, n - 1, rest).value;
      assert ([x] + xs)[1..] == xs;
      assert b == Concat(encode, [x] + xs) + rest';
    }
  }

  lemma Assoc(a: seq<byte>, b: seq<byte>, c: seq<byte>)
    ensures (a + b) + c == a + (b + c)
  {}

  lemma OpSplit(op: Operation, rest: seq<byte>)
    ensures OpBytes(op) + rest
         == StringBytes(op.summary)
            + (U32Bytes(|op.detail|) + (Concat(StringBytes, op.detail) + (FieldBytes(op.payload) + rest)))
  {
    var lines, payload := Concat(StringBytes, op.detail), FieldBytes(op.payload);
    Assoc(lines, payload, rest);
    Assoc(U32Bytes(|op.detail|), lines + payload, rest);
    Assoc(StringBytes(op.summary), U32Bytes(|op.detail|) + (lines + payload), rest);
  }

  lemma OpRoundTrip(l: Limits, op: Operation, rest: seq<byte>)
    requires l.FitU32() && OpInBounds(l, op)
    ensures ParseOp(l, OpBytes(op) + rest) == Ok((op, rest))
  {
    var r3 := FieldBytes(op.payload) + rest;
    var r2 := Concat(StringBytes, op.detail) + r3;
    var r1 := U32Bytes(|op.detail|) + r2;
    var b := OpBytes(op) + rest;
    assert ParseString(l.str, b) == Ok((op.summary, r1)) by {
      OpSplit(op, rest);
      StringRoundTrip(l.str, op.summary, r1);
    }
    assert ParseU32(r1) == Ok((|op.detail|, r2)) by { U32RoundTrip(|op.detail|, r2); }
    assert ParseMany(LineParser(l), |op.detail|, r2) == Ok((op.detail, r3)) by {
      LinesRoundTrip(l, op.detail, r3);
    }
    assert ParseField(l.payload, r3) == Ok((op.payload, rest)) by {
      FieldRoundTrip(l.payload, op.payload, rest);
    }
    OpSteps(l, b, op, r1, r2, r3, rest);
  }

  lemma OpSteps(
      l: Limits, b: seq<byte>, op: Operation, b1: seq<byte>, b2: seq<byte>, b3: seq<byte>, b4: seq<byte>)
    requires ParseString(l.str, b) == Ok((op.summary, b1))
    requires ParseU32(b1) == Ok((|op.detail|, b2)) && |op.detail| <= l.detail
    requires ParseMany(LineParser(l), |op.detail|, b2) == Ok((op.detail, b3))
    requires ParseField(l.payload, b3) == Ok((op.payload, b4))
    ensures ParseOp(l, b) == Ok((op, b4))
  {}

  lemma LinesRoundTrip(l: Limits, lines: seq<string>, rest: seq<byte>)
    requires l.FitU32() && forall line :: line in lines ==> StringInBounds(l, line)
    ensures ParseMany(LineParser(l), |lines|, Concat(StringBytes, lines) + rest) == Ok((lines, rest))
  {
    forall x, r | x in lines ensures LineParser(l)(StringBytes(x) + r) == Ok((x, r)) {
      StringRoundTrip(l.str, x, r);
    }
    ManyRoundTrip(StringBytes, LineParser(l), lines, rest);
  }

  lemma LinesCanonical(l: Limits, n: nat, b: seq<byte>)
    requires ParseMany(LineParser(l), n, b).Ok?
    ensures var (lines, rest) := ParseMany(LineParser(l), n, b).value;
            && |lines| == n && (forall line :: line in lines ==> StringInBounds(l, line))
            && b == Concat(StringBytes, lines) + rest
  {
    var item, ok := LineParser(l), s => StringInBounds(l, s);
    forall c | item(c).Ok?
      ensures ok(item(c).value.0) && c == StringBytes(item(c).value.0) + item(c).value.1
    {
      StringCanonical(l.str, c);
    }
    ManyCanonical(StringBytes, item, ok, n, b);
    assert forall line :: line in ParseMany(item, n, b).value.0 ==> ok(line);
  }

  lemma OpCanonical(l: Limits, b: seq<byte>)
    requires ParseOp(l, b).Ok?
    ensures var (op, rest) := ParseOp(l, b).value; OpInBounds(l, op) && b == OpBytes(op) + rest
  {
    var (summary, b1) := ParseString(l.str, b).value;
    var (d, b2) := ParseU32(b1).value;
    var (detail, b3) := ParseMany(LineParser(l), d, b2).value;
    var (payload, b4) := ParseField(l.payload, b3).value;
    StringCanonical(l.str, b);
    U32Canonical(b1);
    LinesCanonical(l, d, b2);
    FieldCanonical(l.payload, b3);
    OpSplit(Operation(summary, detail, payload), b4);
  }

  lemma OpsRoundTrip(l: Limits, ops: seq<Operation>, rest: seq<byte>)
    requires l.FitU32() && forall op :: op in ops ==> OpInBounds(l, op)
    ensures ParseMany(OpParser(l), |ops|, Concat(OpBytes, ops) + rest) == Ok((ops, rest))
  {
    forall x, r | x in ops ensures OpParser(l)(OpBytes(x) + r) == Ok((x, r)) {
      OpRoundTrip(l, x, r);
    }
    ManyRoundTrip(OpBytes, OpParser(l), ops, rest);
  }

  lemma OpsCanonical(l: Limits, n: nat, b: seq<byte>)
    requires ParseMany(OpParser(l), n, b).Ok?
    ensures var (ops, rest) := ParseMany(OpParser(l), n, b).value;
            && |ops| == n && (forall op :: op in ops ==> OpInBounds(l, op))
            && b == Concat(OpBytes, ops) + rest
  {
    var item, ok := OpParser(l), op => OpInBounds(l, op);
    forall c | item(c).Ok?
      ensures ok(item(c).value.0) && c == OpBytes(item(c).value.0) + item(c).value.1
    {
      OpCanonical(l, c);
    }
    ManyCanonical(OpBytes, item, ok, n, b);
    assert forall op :: op in ParseMany(item, n, b).value.0 ==> ok(op);
  }

  lemma Array32RoundTrip(a: Array32, rest: seq<byte>)
    ensures ParseArray32(a + rest) == Ok((a, rest))
  {}

  lemma TransactionSplit(t: Transaction, rest: seq<byte>)
    ensures TransactionBytes(t) + rest
         == t.server + (t.nonce + (U32Bytes(|t.ops|) + (Concat(OpBytes, t.ops) + rest)))
  {
    var ops := Concat(OpBytes, t.ops);
    Assoc(U32Bytes(|t.ops|), ops, rest);
    Assoc(t.nonce, U32Bytes(|t.ops|) + ops, rest);
    Assoc(t.server, t.nonce + (U32Bytes(|t.ops|) + ops), rest);
  }

  // Streaming: whatever follows an in-bounds encoding, the decoder reads back
  // the transaction and stops exactly at its last byte.
  lemma TransactionRoundTrip(l: Limits, t: Transaction, rest: seq<byte>)
    requires l.FitU32() && InBounds(l, t)
    ensures ParseTransaction(l, TransactionBytes(t) + rest) == Ok((t, rest))
  {
    var r3 := Concat(OpBytes, t.ops) + rest;
    var r2 := U32Bytes(|t.ops|) + r3;
    var r1 := t.nonce + r2;
    var b := TransactionBytes(t) + rest;
    assert ParseArray32(b) == Ok((t.server, r1)) by {
      TransactionSplit(t, rest);
      Array32RoundTrip(t.server, r1);
    }
    assert ParseArray32(r1) == Ok((t.nonce, r2)) by { Array32RoundTrip(t.nonce, r2); }
    assert ParseU32(r2) == Ok((|t.ops|, r3)) by { U32RoundTrip(|t.ops|, r3); }
    OpsRoundTrip(l, t.ops, rest);
    TransactionSteps(l, b, t, r1, r2, r3, rest);
  }

  lemma TransactionSteps(
      l: Limits, b: seq<byte>, t: Transaction, b1: seq<byte>, b2: seq<byte>, b3: seq<byte>, b4: seq<byte>)
    requires ParseArray32(b) == Ok((t.server, b1)) && ParseArray32(b1) == Ok((t.nonce, b2))
    requires ParseU32(b2) == Ok((|t.ops|, b3)) && |t.ops| <= l.ops
    requires ParseMany(OpParser(l), |t.ops|, b3) == Ok((t.ops, b4))
    ensures ParseTransaction(l, b) == Ok((t, b4))
  {}

  // Soundness: what the decoder read is in bounds, and the bytes it consumed
  // are the one encoding of it.
  lemma TransactionCanonical(l: Limits, b: seq<byte>)
    requires ParseTransaction(l, b).Ok?
    ensures var (t, rest) := ParseTransaction(l, b).value;
            InBounds(l, t) && b == TransactionBytes(t) + rest
  {
    var (server, b1) := ParseArray32(b).value;
    var (nonce, b2) := ParseArray32(b1).value;
    var (n, b3) := ParseU32(b2).value;
    var (t, rest) := ParseTransaction(l, b).value;
    U32Canonical(b2);
    OpsCanonical(l, n, b3);
    TransactionSplit(t, rest);
    assert b == server + b1 && b1 == nonce + b2;
  }
}
