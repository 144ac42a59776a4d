// The wire form by position: what stands at which offset, with lengths and
// counts as big-endian numerals.
module Layout {
  import opened Bytes
  import opened TxFormat
  import Radix
  import Utf8

  // ---------- words ----------

  lemma FourDigits(base: nat, a: nat, b: nat, c: nat, d: nat)
    ensures Radix.Value(base, [a, b, c, d]) == ((a * base + b) * base + c) * base + d
  {
    assert [] + [a] == [a] && [a] + [b] == [a, b] && [a, b] + [c] == [a, b, c] && [a, b, c] + [d] == [a, b, c, d];
    Radix.ValueSnoc(base, [], a);
    Radix.ValueSnoc(base, [a], b);
    Radix.ValueSnoc(base, [a, b], c);
    Radix.ValueSnoc(base, [a, b, c], d);
    assert Radix.Value(base, []) == 0;
    hide Radix.Value;
  }

  lemma WordReads(b: seq<byte>)
    requires |b| == 4
    ensures U32Value(b) == Radix.Value(256, b)
  {
    FourDigits(256, b[0], b[1], b[2], b[3]);
    assert b == [b[0], b[1], b[2], b[3]];
    hide Radix.Value;
  }

  // A word is the big-endian numeral of its value, most significant byte first;
  // the cast before it keeps the value modulo 2^32.
  lemma WordIsBigEndian(n: nat)
    ensures Radix.Value(256, U32Bytes(n)) == n % U32_SIZE
    ensures U32Bytes(0x0102_0304) == [1, 2, 3, 4]
  {
    U32ValueOfBytes(n);
    WordReads(U32Bytes(n));
    hide Radix.Value, U32Value;
  }

  // The bytes of `b` at `i` say `n` in four big-endian bytes.
  ghost predicate SaysAt(b: seq<byte>, i: nat, n: nat) {
    i + 4 <= |b| && Radix.Value(256, b[i..i + 4]) == n % U32_SIZE
  }

  // The bytes of `b` from `i` on begin with `part`.
  predicate HasAt(b: seq<byte>, i: nat, part: seq<byte>) {
    i + |part| <= |b| && b[i..i + |part|] == part
  }

  lemma WordAt(before: seq<byte>, n: nat, after: seq<byte>)
    ensures SaysAt(before + (U32Bytes(n) + after), |before|, n)
  {
    WordIsBigEndian(n);
    assert (before + (U32Bytes(n) + after))[|before|..|before| + 4] == U32Bytes(n);
    hide U32Bytes, Radix.Value;
  }

  // ---------- lists ----------

  lemma {:induction false} ConcatJoins<T>(encode: T -> seq<byte>, xs: seq<T>, ys: seq<T>)
    ensures Concat(encode, xs + ys) == Concat(encode, xs) + Concat(encode, ys)
  {
    if xs == [] {
      assert xs + ys == ys;
    } else {
      assert (xs + ys)[1..] == xs[1..] + ys;
      ConcatJoins(encode, xs[1..], ys);
    }
  }

  // Items follow each other in order: each begins where the ones before it end.
  lemma ItemAt<T>(encode: T -> seq<byte>, before: seq<T>, x: T, after: seq<T>)
    ensures HasAt(Concat(encode, before + [x] + after), |Concat(encode, before)|, encode(x))
    ensures |Concat(encode, before + [x])| == |Concat(encode, before)| + |encode(x)|
  {
    ConcatJoins(encode, before, [x]);
    ConcatJoins(encode, before + [x], after);
    assert Concat(encode, [x]) == encode(x);
  }

  // ---------- the parts of an encoding ----------

  // Length, then contents.
  lemma FieldLayout(f: seq<byte>)
    ensures |FieldBytes(f)| == 4 + |f| && SaysAt(FieldBytes(f), 0, |f|) && HasAt(FieldBytes(f), 4, f)
  {
    WordAt([], |f|, f);
    assert [] + (U32Bytes(|f|) + f) == FieldBytes(f);
  }

  lemma ThreeParts(text: seq<byte>, m: nat, lines: seq<byte>, payload: seq<byte>)
    ensures var b := FieldBytes(text) + (U32Bytes(m) + (lines + FieldBytes(payload)));
            && |b| == 12 + |text| + |lines| + |payload|
            && HasAt(b, 4, text) && HasAt(b, 8 + |text|, lines) && HasAt(b, 12 + |text| + |lines|, payload)
  {
    hide U32Bytes;
  }

  lemma ThreeWords(text: seq<byte>, m: nat, lines: seq<byte>, payload: seq<byte>)
    ensures var b := FieldBytes(text) + (U32Bytes(m) + (lines + FieldBytes(payload)));
            SaysAt(b, 0, |text|) && SaysAt(b, 4 + |text|, m) && SaysAt(b, 8 + |text| + |lines|, |payload|)
  {
    hide SaysAt, U32Bytes;
    var tail := U32Bytes(m) + (lines + FieldBytes(payload));
    var front := FieldBytes(text) + (U32Bytes(m) + lines);
    WordAt([], |text|, text + tail);
    WordAt(FieldBytes(text), m, lines + FieldBytes(payload));
    WordAt(front, |payload|, payload);
    assert [] + (U32Bytes(|text|) + (text + tail)) == FieldBytes(text) + tail;
    assert front + FieldBytes(payload) == FieldBytes(text) + tail;
  }

  // An operation: the summary, the number of detail lines, the lines, and the
  // payload, each text and the payload behind its length.
  lemma OpLayout(op: Operation)
    ensures var b, n, lines := OpBytes(op), |Utf8.Encode(op.summary)|, Concat(StringBytes, op.detail);
            && |b| == 12 + n + |lines| + |op.payload|
            && SaysAt(b, 0, n) && HasAt(b, 4, Utf8.Encode(op.summary))
            && SaysAt(b, 4 + n, |op.detail|)
            && HasAt(b, 8 + n, lines)
            && SaysAt(b, 8 + n + |lines|, |op.payload|) && HasAt(b, 12 + n + |lines|, op.payload)
  {
    var text, lines := Utf8.Encode(op.summary), Concat(StringBytes, op.detail);
    ThreeParts(text, |op.detail|, lines, op.payload);
    ThreeWords(text, |op.detail|, lines, op.payload);
    hide SaysAt, HasAt, FieldBytes, Concat, Utf8.Encode, U32Bytes;
  }

  // A detail line stands behind the lines before it, with its own length.
  lemma LineLayout(before: seq<string>, line: string, after: seq<string>)
    ensures var b, i := Concat(StringBytes, before + [line] + after), |Concat(StringBytes, before)|;
            SaysAt(b, i, |Utf8.Encode(line)|) && HasAt(b, i + 4, Utf8.Encode(line))
  {
    var b, i := Concat(StringBytes, before + [line] + after), |Concat(StringBytes, before)|;
    var f := Utf8.Encode(line);
    ItemAt(StringBytes, before, line, after);
    FieldLayout(f);
    hide Radix.Value, Concat, Utf8.Encode, U32Bytes;
    assert StringBytes(line) == FieldBytes(f);
    assert b[i..i + 4] == FieldBytes(f)[0..4];
    assert b[i + 4..i + 4 + |f|] == FieldBytes(f)[4..4 + |f|];
  }

  // A transaction: server, nonce, number of operations, and the operations in
  // order, each where the ones before it end.
  lemma TransactionLayout(server: Array32, nonce: Array32, before: seq<Operation>, op: Operation, after: seq<Operation>)
    ensures var t := Transaction(server, nonce, before + [op] + after);
            var b := TransactionBytes(t);
            && HasAt(b, 0, server) && HasAt(b, 32, nonce) && SaysAt(b, 64, |t.ops|)
            && HasAt(b, 68 + |Concat(OpBytes, before)|, OpBytes(op))
  {
    var ops := before + [op] + after;
    var all := Concat(OpBytes, ops);
    var b := TransactionBytes(Transaction(server, nonce, ops));
    ItemAt(OpBytes, before, op, after);
    hide SaysAt, Concat, OpBytes, U32Bytes;
    assert b == (server + nonce) + (U32Bytes(|ops|) + all);
    WordAt(server + nonce, |ops|, all);
    var i := |Concat(OpBytes, before)|;
    assert b[68..] == all;
    assert b[68 + i..68 + i + |OpBytes(op)|] == all[i..i + |OpBytes(op)|];
  }

  // Without operations the count is zero and nothing follows it.
  lemma EmptyLayout(server: Array32, nonce: Array32)
    ensures TransactionBytes(Transaction(server, nonce, [])) == server + nonce + [0, 0, 0, 0]
  {}

  // On the wire the admin key and the signature follow the transaction.
  lemma SignedLayout(s: SignedTransaction)
    ensures var b, n := SignedBytes(s), |TransactionBytes(s.transaction)|;
            && |b| == n + 96
            && HasAt(b, 0, TransactionBytes(s.transaction)) && HasAt(b, n, s.admin) && HasAt(b, n + 32, s.signature)
  {
    hide TransactionBytes;
  }
}
