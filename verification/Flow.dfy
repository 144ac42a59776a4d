// One admin transaction, from challenge to submission, as a function of ordered
// effects on the connection and the operator.
module Flow {
  import opened Bytes
  import opened TxFormat
  import opened Canonical
  import opened Signing
  import Codec
  import Key
  import Radix
  import Utf8

  // ---------- signing backends ----------

  datatype Inner = Software(seed: Array32) | Yubi

  datatype Backend = Backend(public: Array32, inner: Inner)

  function SoftwareBackend(p: Primitives, seed: Array32): Backend {
    Backend(p.public(seed), Software(seed))
  }

  function YubiBackend(public: Array32): Backend {
    Backend(public, Yubi)
  }

  // The signature, or the card's refusal; a software key always signs.
  function Sign(p: Primitives, b: Backend, msg: seq<byte>, cardReply: Result<Array64, string>)
    : Result<Array64, string>
  {
    match b.inner
    case Software(seed) => Ok(p.sign(seed, msg))
    case Yubi => cardReply
  }

  // ---------- effects ----------

  datatype Effect =
    | Get
    | Review(transaction: Transaction)
    | Touch
    | SignWith(msg: seq<byte>, outcome: Result<Array64, string>)
    | Post(body: seq<byte>)

  datatype FlowError =
    | NothingToSign
    | RequestFailed(text: string)
    | ChallengeFailed(status: nat)
    | SignFailed(text: string)
    | Rejected(text: string)

  type Response = Result<(nat, seq<byte>), string>

  // ---------- the server's answer ----------

  datatype Json =
    | Null
    | Bool(truth: bool)
    | Number(digits: string)
    | Str(text: string)
    | Array(items: seq<Json>)
    | Object(fields: map<string, Json>)

  // The reader of JSON text: a parameter.
  type JsonReader = seq<byte> -> Option<Json>

  // A body that is not JSON counts as null.
  function ValueOf(read: JsonReader, body: seq<byte>): Json {
    match read(body)
    case None => Null
    case Some(value) => value
  }

  // The text under a key, or a default where there is none.
  function TextAt(value: Json, key: string, otherwise: string): string {
    if value.Object? && key in value.fields && value.fields[key].Str? then value.fields[key].text else otherwise
  }

  function Decimal(n: nat): (s: string) {
    (if n < 10 then "" else Decimal(n / 10)) + [('0' as int + n % 10) as char]
  }

  function RejectionText(status: nat, value: Json): string {
    Key.Trim(TextAt(value, "error", "error") + " (" + Decimal(status) + ") " + TextAt(value, "detail", ""))
  }

  // A connection that will answer the challenge and the command as given.
  class Client {
    const challenge: Response
    const verdict: Response
    var effects: seq<Effect>

    constructor (challenge: Response, verdict: Response)
      ensures this.challenge == challenge && this.verdict == verdict && effects == []
    {
      this.challenge := challenge;
      this.verdict := verdict;
      effects := [];
    }

    method Record(e: Effect)
      modifies this
      ensures effects == old(effects) + [e]
    {
      effects := effects + [e];
    }
  }

  // The nonce of an acceptable challenge.
  function NonceOf(challenge: Response): Option<Array32> {
    match challenge
    case Err(_) => None
    case Ok((status, nonce)) => if status == 200 && |nonce| == 32 then Some(nonce) else None
  }

  // ---------- what a client may do next ----------

  datatype Phase =
    | Idle
    | Waiting
    | Reviewed(transaction: Transaction)
    | Touched(transaction: Transaction)
    | Signed(signed: SignedTransaction)

  function AfterSigning(b: Backend, t: Transaction, outcome: Result<Array64, string>): Phase {
    match outcome
    case Err(_) => Idle
    case Ok(signature) => Signed(SignedTransaction(t, b.public, signature))
  }

  // The authority protocol of one client: a challenge is fetched, a non-empty
  // batch is reviewed, a card is touched, what was reviewed is signed, and what
  // was signed is posted. A new attempt may begin at any time.
  function ClientStep(p: Primitives, b: Backend, phase: Phase, e: Effect): Option<Phase> {
    match e
    case Get => Some(Waiting)
    case Review(t) => if phase == Waiting && t.ops != [] then Some(Reviewed(t)) else None
    case Touch => if phase.Reviewed? && b.inner.Yubi? then Some(Touched(phase.transaction)) else None
    case SignWith(msg, outcome) =>
      if (if b.inner.Yubi? then phase.Touched? else phase.Reviewed?) && msg == SigningBytes(p, phase.transaction)
      then Some(AfterSigning(b, phase.transaction, outcome)) else None
    case Post(body) =>
      if phase.Signed? && body == SignedBytes(phase.signed) then Some(Idle) else None
  }

  // The phase after a whole list of effects, when each was allowed.
  function ClientRun(p: Primitives, b: Backend, phase: Phase, effects: seq<Effect>): Option<Phase>
    decreases |effects|
  {
    if effects == [] then Some(phase)
    else
      match ClientStep(p, b, phase, effects[0])
      case None => None
      case Some(next) => ClientRun(p, b, next, effects[1..])
  }

  lemma {:induction false} ClientRunMore(
      p: Primitives, b: Backend, phase: Phase, effects: seq<Effect>, e: Effect)
    requires ClientRun(p, b, phase, effects).Some?
    ensures ClientRun(p, b, phase, effects + [e])
         == ClientStep(p, b, ClientRun(p, b, phase, effects).value, e)
    decreases |effects|
  {
    var all := effects + [e];
    if effects == [] {
      assert all[1..] == [];
    } else {
      assert all[1..] == effects[1..] + [e];
      ClientRunMore(p, b, ClientStep(p, b, phase, effects[0]).value, effects[1..], e);
    }
  }

  // ---------- the flow ----------

  function Reviewing(b: Backend, t: Transaction): seq<Effect> {
    [Get, Review(t)] + (if b.inner.Yubi? then [Touch] else [])
  }

  function Submitting(b: Backend, t: Transaction, outcome: Result<Array64, string>): seq<Effect> {
    match outcome
    case Err(_) => []
    case Ok(signature) => [Post(SignedBytes(SignedTransaction(t, b.public, signature)))]
  }

  // Everything one attempt does, as far as it comes.
  function FlowEffects(
      p: Primitives, b: Backend, server: Array32, ops: seq<Operation>, challenge: Response,
      cardReply: Result<Array64, string>)
    : seq<Effect>
  {
    if ops == [] then [] else
    match NonceOf(challenge)
    case None => [Get]
    case Some(nonce) =>
      var t := Transaction(server, nonce, ops);
      var msg := SigningBytes(p, t);
      var outcome := Sign(p, b, msg, cardReply);
      Reviewing(b, t) + [SignWith(msg, outcome)] + Submitting(b, t, outcome)
  }

  // How the attempt ends: the value answered when the status is 200, or else the
  // first thing that went wrong.
  function FlowResult(
      p: Primitives, b: Backend, server: Array32, ops: seq<Operation>, challenge: Response,
      cardReply: Result<Array64, string>, verdict: Response, read: JsonReader)
    : Result<Json, FlowError>
  {
    if ops == [] then Err(NothingToSign) else
    if challenge.Err? then Err(RequestFailed(challenge.error)) else
    match NonceOf(challenge)
    case None => Err(ChallengeFailed(challenge.value.0))
    case Some(nonce) =>
      match Sign(p, b, SigningBytes(p, Transaction(server, nonce, ops)), cardReply)
      case Err(e) => Err(SignFailed(e))
      case Ok(_) =>
        match verdict
        case Err(e) => Err(RequestFailed(e))
        case Ok((status, body)) =>
          var value := ValueOf(read, body);
          if status == 200 then Ok(value) else Err(Rejected(RejectionText(status, value)))
  }

  method SignAndSubmit(
      c: Client, p: Primitives, b: Backend, server: Array32, ops: seq<Operation>,
      cardReply: Result<Array64, string>, read: JsonReader)
    returns (r: Result<Json, FlowError>)
    modifies c
    ensures c.effects == old(c.effects) + FlowEffects(p, b, server, ops, c.challenge, cardReply)
    ensures r == FlowResult(p, b, server, ops, c.challenge, cardReply, c.verdict, read)
  {
    hide SignedBytes, SigningBytes, TransactionBytes, TextAt, Decimal, Key.Trim, ValueOf, Utf8.Encode;
    if ops == [] {
      return Err(NothingToSign);
    }
    c.Record(Get);
    if c.challenge.Err? {
      return Err(RequestFailed(c.challenge.error));
    }
    var (status, nonceBytes) := c.challenge.value;
    if status != 200 || |nonceBytes| != 32 {
      return Err(ChallengeFailed(status));
    }
    var nonce: Array32 := nonceBytes;
    var t := Transaction(server, nonce, ops);
    c.Record(Review(t));
    if b.inner.Yubi? {
      c.Record(Touch);
    }
    assert c.effects == old(c.effects) + Reviewing(b, t);
    var msg := HashForSigning(p, t);
    var outcome := Sign(p, b, msg, cardReply);
    c.Record(SignWith(msg, outcome));
    ghost var signing := Reviewing(b, t) + [SignWith(msg, outcome)];
    assert c.effects == old(c.effects) + signing;
    if outcome.Err? {
      assert signing + [] == signing;
      return Err(SignFailed(outcome.error));
    }
    var signed := SignedTransaction(t, b.public, outcome.value);
    var body := Codec.EncodeSigned(signed);
    c.Record(Post(body));
    assert c.effects == old(c.effects) + (signing + [Post(body)]);
    if c.verdict.Err? {
      return Err(RequestFailed(c.verdict.error));
    }
    var (code, answer) := c.verdict.value;
    var value := ValueOf(read, answer);
    if code != 200 {
      var detail := TextAt(value, "detail", "");
      var kind := TextAt(value, "error", "error");
      return Err(Rejected(Key.Trim(kind + " (" + Decimal(code) + ") " + detail)));
    }
    r := Ok(value);
  }

  lemma ReviewPath(p: Primitives, b: Backend, phase: Phase, t: Transaction)
    requires t.ops != []
    ensures ClientRun(p, b, phase, Reviewing(b, t)) == Some(if b.inner.Yubi? then Touched(t) else Phase.Reviewed(t))
  {
    assert ClientRun(p, b, phase, []) == Some(phase);
    ClientRunMore(p, b, phase, [], Get);
    assert [] + [Get] == [Get];
    ClientRunMore(p, b, phase, [Get], Review(t));
    assert [Get] + [Review(t)] == [Get, Review(t)];
    if b.inner.Yubi? {
      ClientRunMore(p, b, phase, [Get, Review(t)], Touch);
    } else {
      assert [Get, Review(t)] + [] == [Get, Review(t)];
    }
  }

  // Whatever the client did before, and however far the attempt comes, its
  // effects are allowed by the protocol one by one.
  lemma FlowFollowsProtocol(
      p: Primitives, b: Backend, server: Array32, ops: seq<Operation>, challenge: Response,
      cardReply: Result<Array64, string>, phase: Phase)
    ensures ClientRun(p, b, phase, FlowEffects(p, b, server, ops, challenge, cardReply)).Some?
  {
    if ops != [] && NonceOf(challenge).Some? {
      var t := Transaction(server, NonceOf(challenge).value, ops);
      var msg := SigningBytes(p, t);
      var outcome := Sign(p, b, msg, cardReply);
      ReviewPath(p, b, phase, t);
      ClientRunMore(p, b, phase, Reviewing(b, t), SignWith(msg, outcome));
      var signing := Reviewing(b, t) + [SignWith(msg, outcome)];
      match outcome {
        case Err(_) => assert signing + [] == signing;
        case Ok(signature) =>
          ClientRunMore(p, b, phase, signing, Post(SignedBytes(SignedTransaction(t, b.public, signature))));
      }
    } else if ops != [] {
      assert [Get][1..] == [];
    }
  }

  // ---------- what arrives ----------

  // Success means the batch was posted and answered with 200, and its value is
  // the JSON of that answer, or null where the body is none. Whatever is
  // posted is the signed form of the one transaction shown for review, over the
  // caller's batch, the caller's server and the challenge; within the caps the
  // server reads back exactly what was shown.
  lemma PostedWasReviewed(
      p: Primitives, b: Backend, server: Array32, ops: seq<Operation>, challenge: Response,
      cardReply: Result<Array64, string>, verdict: Response, read: JsonReader, body: seq<byte>)
    ensures var effects := FlowEffects(p, b, server, ops, challenge, cardReply);
            && (FlowResult(p, b, server, ops, challenge, cardReply, verdict, read).Ok?
                <==> effects != [] && effects[|effects| - 1].Post? && verdict.Ok? && verdict.value.0 == 200)
            && (forall v :: FlowResult(p, b, server, ops, challenge, cardReply, verdict, read) == Ok(v) ==>
                  read(verdict.value.1) == Some(v) || (read(verdict.value.1) == None && v == Null))
            && (Post(body) in effects ==>
                  exists t: Transaction, signature: Array64 ::
                    && t.server == server && t.ops == ops && challenge == Ok((200, t.nonce))
                    && effects == Reviewing(b, t) + [SignWith(SigningBytes(p, t), Ok(signature)), Post(body)]
                    && body == SignedBytes(SignedTransaction(t, b.public, signature))
                    && (InBounds(DECODE_LIMITS, t) <==>
                          Decode(body) == Ok(SignedTransaction(t, b.public, signature))))
  {
    var effects := FlowEffects(p, b, server, ops, challenge, cardReply);
    if ops != [] && NonceOf(challenge).Some? {
      var t := Transaction(server, NonceOf(challenge).value, ops);
      var outcome := Sign(p, b, SigningBytes(p, t), cardReply);
      if outcome.Ok? {
        var s := SignedTransaction(t, b.public, outcome.value);
        SurvivesWireIffInBounds(s);
        assert effects == Reviewing(b, t) + [SignWith(SigningBytes(p, t), outcome), Post(SignedBytes(s))];
      }
      hide SignedBytes, SigningBytes, Decode, InBounds, Sign;
    }
  }

  // Without a batch nothing is sent, and without a good challenge nothing is
  // shown or signed; each way the attempt says which it was.
  lemma FlowStopsEarly(
      p: Primitives, b: Backend, server: Array32, ops: seq<Operation>, challenge: Response,
      cardReply: Result<Array64, string>, verdict: Response, read: JsonReader)
    ensures var effects := FlowEffects(p, b, server, ops, challenge, cardReply);
            var result := FlowResult(p, b, server, ops, challenge, cardReply, verdict, read);
            && (ops == [] ==> effects == [] && result == Err(NothingToSign))
            && (ops != [] && challenge.Err? ==> effects == [Get] && result == Err(RequestFailed(challenge.error)))
            && (ops != [] && challenge.Ok? && (challenge.value.0 != 200 || |challenge.value.1| != 32) ==>
                  effects == [Get] && result == Err(ChallengeFailed(challenge.value.0)))
  {
    hide SigningBytes, SignedBytes;
  }

  // On a good challenge: a software identity signs with its own seed, without a
  // touch; a card is touched first and its refusal ends the attempt; what was
  // signed is posted under the identity's key.
  lemma FlowSigns(
      p: Primitives, seed: Array32, public: Array32, t: Transaction, cardReply: Result<Array64, string>,
      verdict: Response, read: JsonReader)
    requires t.ops != []
    ensures var msg := SigningBytes(p, t);
            var sig := p.sign(seed, msg);
            var body := SignedBytes(SignedTransaction(t, p.public(seed), sig));
            var effects := [Get, Review(t), SignWith(msg, Ok(sig)), Post(body)];
            FlowEffects(p, SoftwareBackend(p, seed), t.server, t.ops, Ok((200, t.nonce)), cardReply) == effects
    ensures var msg, b := SigningBytes(p, t), YubiBackend(public);
            var effects := [Get, Review(t), Touch, SignWith(msg, cardReply)];
            match cardReply
            case Ok(sig) =>
              var body := SignedBytes(SignedTransaction(t, public, sig));
              FlowEffects(p, b, t.server, t.ops, Ok((200, t.nonce)), cardReply) == effects + [Post(body)]
            case Err(e) =>
              && FlowEffects(p, b, t.server, t.ops, Ok((200, t.nonce)), cardReply) == effects
              && FlowResult(p, b, t.server, t.ops, Ok((200, t.nonce)), cardReply, verdict, read) == Err(SignFailed(e))
  {
    hide SigningBytes, SignedBytes;
  }

  // Once posted, the attempt ends as the server answers: no answer, a refusal
  // with its text, or the value.
  lemma FlowEndsAs(
      p: Primitives, b: Backend, t: Transaction, cardReply: Result<Array64, string>,
      verdict: Response, read: JsonReader, value: Json)
    requires t.ops != [] && (b.inner.Software? || cardReply.Ok?)
    ensures var result := FlowResult(p, b, t.server, t.ops, Ok((200, t.nonce)), cardReply, verdict, read);
            match verdict
            case Err(e) => result == Err(RequestFailed(e))
            case Ok((status, body)) =>
              read(body) == Some(value) || (read(body) == None && value == Null) ==>
                result == if status == 200 then Ok(value) else Err(Rejected(RejectionText(status, value)))
  {
    hide SigningBytes, SignedBytes, RejectionText;
  }

  // From a software identity the posted value is the one `create` would make,
  // and the server accepts it exactly when the batch is within the caps.
  lemma SoftwarePost(p: Primitives, seed: Array32, t: Transaction, cardReply: Result<Array64, string>)
    requires p.Correct()
    ensures var b := SoftwareBackend(p, seed);
            var outcome := Sign(p, b, SigningBytes(p, t), cardReply);
            && outcome.Ok?
            && var s := SignedTransaction(t, b.public, outcome.value);
               && s == Create(p, t, seed)
               && (Decode(SignedBytes(s)) == Ok(s) <==> InBounds(DECODE_LIMITS, t))
               && Verify(p, s, t.server) == Ok(())
  {
    SoftwareEndToEnd(p, t, seed, t.server);
  }

  predicate HasText(value: Json, key: string, text: string) {
    value.Object? && key in value.fields && value.fields[key] == Str(text)
  }

  // The text an answer has under `key`, or the one given where it has none.
  ghost predicate IsText(value: Json, key: string, otherwise: string, text: string) {
    HasText(value, key, text) || (text == otherwise && forall t :: !HasText(value, key, t))
  }

  lemma TextAtIs(value: Json, key: string, otherwise: string)
    ensures IsText(value, key, otherwise, TextAt(value, key, otherwise))
  {}

  // The value of decimal digits.
  function DecimalDigits(s: string): seq<nat>
    requires forall i :: 0 <= i < |s| ==> '0' <= s[i] <= '9'
  {
    seq(|s|, i requires 0 <= i < |s| => s[i] as int - '0' as int)
  }

  // The text is the usual decimal numeral: no leading zero but for zero itself.
  ghost predicate IsDecimal(s: string, n: nat) {
    && s != "" && (forall i :: 0 <= i < |s| ==> '0' <= s[i] <= '9')
    && Radix.Value(10, DecimalDigits(s)) == n
    && (|s| > 1 ==> s[0] != '0')
  }

  lemma {:induction false} DecimalReads(n: nat)
    ensures IsDecimal(Decimal(n), n)
    ensures n > 0 ==> Decimal(n)[0] != '0'
  {
    var d := n % 10;
    if n < 10 {
      LastDigit("", d);
      assert Radix.Value(10, []) == 0;
      assert "" + [('0' as int + d) as char] == Decimal(n);
    } else {
      DecimalReads(n / 10);
      LastDigit(Decimal(n / 10), d);
    }
  }

  lemma LastDigit(s: string, d: nat)
    requires d < 10 && forall i :: 0 <= i < |s| ==> '0' <= s[i] <= '9'
    ensures var t := s + [('0' as int + d) as char];
            && (forall i :: 0 <= i < |t| ==> '0' <= t[i] <= '9')
            && Radix.Value(10, DecimalDigits(t)) == Radix.Value(10, DecimalDigits(s)) * 10 + d
  {
    var t := s + [('0' as int + d) as char];
    assert DecimalDigits(t) == DecimalDigits(s) + [d];
    Radix.ValueSnoc(10, DecimalDigits(s), d);
    hide Radix.Value;
  }

  // A refusal reads "kind (status) detail", whatever the two texts: white space
  // around the whole is gone, and with it the blanks left by a text that has
  // nothing else in it.
  lemma RejectionReads(status: nat, value: Json)
    ensures var kind, detail := TextAt(value, "error", "error"), TextAt(value, "detail", "");
            && IsText(value, "error", "error", kind) && IsText(value, "detail", "", detail)
            && IsDecimal(Decimal(status), status)
    ensures var kind, detail := TextAt(value, "error", "error"), TextAt(value, "detail", "");
            var front := if Key.AllWhite(kind) then "" else Key.TrimStart(kind) + " ";
            var back := if Key.AllWhite(detail) then "" else " " + Key.TrimEnd(detail);
            RejectionText(status, value) == front + ("(" + Decimal(status) + ")") + back
  {
    hide Key.Trim, Key.TrimStart, Key.TrimEnd, Key.AllWhite, Decimal, TextAt;
    var kind, detail := TextAt(value, "error", "error"), TextAt(value, "detail", "");
    TextAtIs(value, "error", "error");
    TextAtIs(value, "detail", "");
    DecimalReads(status);
    RejectionParts(kind, Decimal(status), detail);
    RejectionTrims(kind, "(" + Decimal(status) + ")", detail);
  }

  lemma RejectionParts(kind: string, digits: string, detail: string)
    ensures kind + " (" + digits + ") " + detail == kind + " " + ("(" + digits + ")") + " " + detail
  {
    assert " (" == " " + "(" && ") " == ")" + " ";
  }

  lemma RejectionTrims(kind: string, code: string, detail: string)
    requires |code| >= 2 && code[0] == '(' && code[|code| - 1] == ')'
    ensures Key.Trim(kind + " " + code + " " + detail)
         == (if Key.AllWhite(kind) then "" else Key.TrimStart(kind) + " ")
            + code
            + (if Key.AllWhite(detail) then "" else " " + Key.TrimEnd(detail))
  {
    assert kind + " " + code + " " + detail == (kind + " ") + (code + (" " + detail));
    assert !Key.IsWhite('(') && !Key.IsWhite(')');
    hide Key.IsWhite, Key.TrimStart, Key.TrimEnd, Key.AllWhite;
    Key.TrimStartBefore(kind + " ", code + (" " + detail));
    Key.BlankAfter(kind);
    var front := Key.TrimStart(kind + " ") + code;
    assert Key.TrimStart(kind + " ") + (code + (" " + detail)) == front + (" " + detail);
    Key.TrimEndAfter(front, " " + detail);
    Key.BlankBefore(detail);
  }
}
