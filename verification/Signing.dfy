// What is signed and how it is checked. SHA-256 and Ed25519 are parameters:
// nothing is assumed of the hash, and of the signature scheme only that honest
// signatures verify.
module Signing {
  import opened Bytes
  import opened TxFormat
  import opened Canonical
  import Codec
  import Utf8

  datatype Error = Key | Malformed(what: Malformed) | BadSignature | BadChallenge | WrongServer | NotAdmin

  datatype Primitives = Primitives(
    sha256: seq<byte> -> Array32,
    public: Array32 -> Array32,
    sign: (Array32, seq<byte>) -> Array64,
    isPoint: Array32 -> bool,
    verifies: (Array32, seq<byte>, Array64) -> bool)
  {
    // An Ed25519 signature made with a seed verifies under its public key.
    ghost predicate Correct() {
      && (forall seed: Array32 :: isPoint(public(seed)))
      && (forall seed: Array32, msg: seq<byte> :: verifies(public(seed), msg, sign(seed, msg)))
    }

    ghost predicate Collision(a: seq<byte>, b: seq<byte>) {
      a != b && sha256(a) == sha256(b)
    }
  }

  // "sqnr-tx-v1"
  const TX_CONTEXT: seq<byte> := [0x73, 0x71, 0x6e, 0x72, 0x2d, 0x74, 0x78, 0x2d, 0x76, 0x31]

  function SigningBytes(p: Primitives, t: Transaction): (msg: seq<byte>)
    ensures |msg| == 42
  {
    TX_CONTEXT + p.sha256(TransactionBytes(t))
  }

  // The tag comes first and reads "sqnr-tx-v1"; the digest of the encoding follows.
  lemma SigningBytesLayout(p: Primitives, t: Transaction)
    ensures SigningBytes(p, t)[..10] == Utf8.Encode("sqnr-tx-v1")
    ensures SigningBytes(p, t)[10..] == p.sha256(TransactionBytes(t))
  {
    ContextReads();
    hide TransactionBytes, Utf8.Encode;
  }

  lemma {:induction false} EncodeAscii(s: string)
    requires forall i :: 0 <= i < |s| ==> s[i] as int < 0x80
    ensures |Utf8.Encode(s)| == |s| && forall i :: 0 <= i < |s| ==> Utf8.Encode(s)[i] == s[i] as int
  {
    if s != "" {
      EncodeAscii(s[1..]);
      assert forall i :: 1 <= i < |s| ==> s[i] == s[1..][i - 1];
    }
  }

  lemma ContextReads()
    ensures TX_CONTEXT == Utf8.Encode("sqnr-tx-v1")
  {
    EncodeAscii("sqnr-tx-v1");
    hide Utf8.Encode;
  }

  method HashForSigning(p: Primitives, t: Transaction) returns (msg: seq<byte>)
    ensures msg == SigningBytes(p, t)
    ensures msg[..10] == Utf8.Encode("sqnr-tx-v1") && msg[10..] == p.sha256(TransactionBytes(t))
  {
    SigningBytesLayout(p, t);
    var encoded := Codec.EncodeTransaction(t);
    var digest := p.sha256(encoded);
    msg := TX_CONTEXT;
    msg := msg + digest;
  }

  function Create(p: Primitives, t: Transaction, seed: Array32): SignedTransaction {
    SignedTransaction(t, p.public(seed), p.sign(seed, SigningBytes(p, t)))
  }

  function Verify(p: Primitives, s: SignedTransaction, expectedServer: Array32): Result<(), Error> {
    if s.transaction.server != expectedServer then Err(WrongServer)
    else if !p.isPoint(s.admin) then Err(Key)
    else if !p.verifies(s.admin, SigningBytes(p, s.transaction), s.signature) then Err(BadSignature)
    else Ok(())
  }

  // The signature binds server, nonce and every summary, line and payload in
  // order. For a transaction short enough to be the only one with its encoding,
  // as every one within the caps is, the signed bytes agree with those of any
  // other, however long, exactly when the two are equal or their encodings are
  // a SHA-256 collision in hand; and so they do when the lengths of both fit.
  lemma SignatureBindsTransaction(p: Primitives, t: Transaction, other: Transaction)
    requires || |TransactionBytes(t)| < LEAST_SHARED
             || (InBounds(U32_LIMITS, t) && InBounds(U32_LIMITS, other))
    ensures SigningBytes(p, t) == SigningBytes(p, other)
       <==> t == other || p.Collision(TransactionBytes(t), TransactionBytes(other))
  {
    PrefixFree(other, t);
    var d1, d2 := p.sha256(TransactionBytes(t)), p.sha256(TransactionBytes(other));
    assert (TX_CONTEXT + d1)[10..] == d1 && (TX_CONTEXT + d2)[10..] == d2;
  }

  // The bound is the least possible: at that size one signature covers two
  // different transactions under any hash.
  lemma WrappedLengthsShareSignatures(p: Primitives, server: Array32, nonce: Array32, admin: Array32, sig: Array64)
    ensures exists t1, t2 ::
              && t1 != t2 && |TransactionBytes(t1)| == LEAST_SHARED
              && SigningBytes(p, t1) == SigningBytes(p, t2)
              && Verify(p, SignedTransaction(t1, admin, sig), server)
              == Verify(p, SignedTransaction(t2, admin, sig), server)
  {
    WrappedLengthsCollide(server, nonce);
    var t1 := Transaction(server, nonce, [WIDE_PAYLOAD]);
    var t2 := Transaction(server, nonce, [WIDE_SUMMARY]);
    hide WIDE_PAYLOAD, WIDE_SUMMARY, TransactionBytes;
    assert Verify(p, SignedTransaction(t1, admin, sig), server)
        == Verify(p, SignedTransaction(t2, admin, sig), server);
  }

  // What each answer of `verify` means: the server is compared first, then the
  // key must be a point, then the signature must verify over the tag and the
  // digest of the transaction's encoding.
  lemma VerifyAnswers(p: Primitives, s: SignedTransaction, server: Array32)
    ensures var msg := Utf8.Encode("sqnr-tx-v1") + p.sha256(TransactionBytes(s.transaction));
            var mine, point := s.transaction.server == server, p.isPoint(s.admin);
            && (Verify(p, s, server) == Err(WrongServer) <==> !mine)
            && (Verify(p, s, server) == Err(Error.Key) <==> mine && !point)
            && (Verify(p, s, server) == Err(BadSignature) <==> mine && point && !p.verifies(s.admin, msg, s.signature))
            && (Verify(p, s, server) == Ok(()) <==> mine && point && p.verifies(s.admin, msg, s.signature))
  {
    ContextReads();
    hide TransactionBytes, Utf8.Encode;
  }

  // A verified transaction is bound to one server, whoever signed it.
  lemma VerifiesForOneServer(p: Primitives, s: SignedTransaction, a: Array32, b: Array32)
    requires Verify(p, s, a).Ok? && a != b
    ensures Verify(p, s, b) == Err(WrongServer)
  {}

  // Signed in software and sent: the server reads back the same value exactly
  // when the batch is within the caps, it verifies there, and nowhere else.
  lemma SoftwareEndToEnd(p: Primitives, t: Transaction, seed: Array32, other: Array32)
    requires p.Correct()
    ensures var s := Create(p, t, seed);
            && s.transaction == t && s.admin == p.public(seed)
            && (Decode(SignedBytes(s)) == Ok(s) <==> InBounds(DECODE_LIMITS, t))
            && Verify(p, s, t.server) == Ok(())
            && (other != t.server ==> Verify(p, s, other) == Err(WrongServer))
  {
    SurvivesWireIffInBounds(Create(p, t, seed));
  }

  // Whatever verified after arriving over the wire, its admin key vouches for
  // the signing bytes of a transaction whose only encoding is the bytes received.
  lemma VerifiedFromWire(p: Primitives, b: seq<byte>, server: Array32)
    requires Decode(b).Ok? && Verify(p, Decode(b).value, server).Ok?
    ensures var s := Decode(b).value;
            && b == SignedBytes(s)
            && s.transaction.server == server
            && p.isPoint(s.admin)
            && p.verifies(s.admin, SigningBytes(p, s.transaction), s.signature)
            && forall t :: TransactionBytes(t) <= b ==> t == s.transaction
  {
    var s := Decode(b).value;
    DecodeExactly(b, s);
    AcceptedSize(b);
    SignedParts(s);
    forall t | TransactionBytes(t) <= b ensures t == s.transaction {
      var mine, theirs := TransactionBytes(s.transaction), TransactionBytes(t);
      assert mine <= b;
      if |mine| <= |theirs| {
        assert mine <= theirs;
        PrefixFree(s.transaction, t);
      } else {
        assert theirs <= mine;
        PrefixFree(t, s.transaction);
      }
    }
  }
}
