// What each request does to the card, call by call, and what its answer means:
// every text and every value told apart, for every request, card and environment.
module CardAnswers {
  import opened Bytes
  import opened CardText
  import opened Card
  import opened CardRuns
  import opened CardSafety
  import Utf8

  // ---------- the calls ----------

  // The calls a request makes when none of them fails, with the PIN or message
  // each of them carries.
  function Script(req: Req): seq<Op> {
    match req
    case Pubkey(_) => [ReadKey]
    case Unlock(pin, _) => [VerifyPw1(Utf8.Encode(pin))]
    case Sign(msg, _) => [Authenticate(msg)]
    case Provision(pin, _) =>
      if |Utf8.Encode(pin)| < 8 then [] else [VerifyPw3(Utf8.Encode(pin)), SetAlgorithm, GenerateKey]
  }

  ghost predicate Follows(calls: seq<Call>, script: seq<Op>) {
    && |calls| <= |script|
    && (forall i :: 0 <= i < |calls| ==> calls[i].op == script[i])
    && (forall i :: 0 <= i < |calls| - 1 ==> calls[i].error.None?)
    && (|calls| < |script| ==> calls != [] && calls[|calls| - 1].error.Some?)
  }

  // A handled request makes its calls in order, with its own PIN or message,
  // and stops early only where one fails.
  lemma CallsFollowScript(turns: Turns, w: World, req: Req)
    ensures var w' := Handle(turns, w, req).0;
            w'.calls == w.calls + Between(w, w') && Follows(Between(w, w'), Script(req))
  {
    hide Wrapped, NoAuthKey, ShortPin, Utf8.Encode;
    if req.Provision? { ProvisionFollows(turns, w, req.pin); }
  }

  lemma ProvisionFollows(turns: Turns, w: World, pin: string)
    ensures var w' := ProvisionAuth(turns, w, pin).0;
            var pw3 := VerifyPw3(Utf8.Encode(pin));
            && w'.calls == w.calls + Between(w, w')
            && Follows(Between(w, w'), if |Utf8.Encode(pin)| < 8 then [] else [pw3, SetAlgorithm, GenerateKey])
  {
    hide Wrapped, ShortPin, Utf8.Encode, Refuses, Effect, FailedEffect;
  }

  // ---------- the complaints ----------

  // The sentence an error of the card is put into, by the call that failed.
  function Complaint(op: Op, e: string): string {
    match op
    case ReadKey => "no Ed25519 auth key (" + e + "); generate one with" + " `sqnr --yubikey provision`"
    case VerifyPw1(_) => "PIN rejected: " + e
    case Authenticate(_) => "sign failed: " + e
    case VerifyPw3(_) => "admin PIN rejected: " + e
    case SetAlgorithm => "could not set the slot to Ed25519: " + e
    case GenerateKey => "key generation failed: " + e
    case _ => e
  }

  lemma ShortComplaints(e: string)
    ensures Wrapped(PIN_REJECTED, e) == "PIN rejected: " + e
    ensures Wrapped(SIGN_FAILED, e) == "sign failed: " + e
    ensures Wrapped(ADMIN_PIN_REJECTED, e) == "admin PIN rejected: " + e
  {
    assert PIN_REJECTED + ": " == "PIN rejected: ";
    assert SIGN_FAILED + ": " == "sign failed: ";
    assert ADMIN_PIN_REJECTED + ": " == "admin PIN rejected: ";
  }

  lemma LongComplaints(e: string)
    ensures Wrapped(SET_ALGORITHM_FAILED, e) == "could not set the slot to Ed25519: " + e
    ensures Wrapped(GENERATION_FAILED, e) == "key generation failed: " + e
  {
    assert SET_ALGORITHM_FAILED + ": " == "could not set the slot to Ed25519: ";
    assert GENERATION_FAILED + ": " == "key generation failed: ";
  }

  lemma KeyComplaint(e: string)
    ensures NoAuthKey(e) == "no Ed25519 auth key (" + e + "); generate one with" + " `sqnr --yubikey provision`"
  {
    assert NO_AUTH_KEY + "(" == "no Ed25519 auth key (";
    assert ")" + "; generate one with" == "); generate one with";
    assert PROVISION_COMMAND == " `sqnr --yubikey provision`";
    hide NO_AUTH_KEY, PROVISION_COMMAND;
    KeyComplaintParts(e, "; generate one with", PROVISION_COMMAND);
  }

  lemma KeyComplaintParts(e: string, hint: string, command: string)
    ensures NO_AUTH_KEY + "(" + e + ")" + (hint + command) == (NO_AUTH_KEY + "(") + e + (")" + hint) + command
  {}

  // A card call that fails ends the request, and the answer is its error in the
  // sentence of that call.
  lemma FailureIsNamed(turns: Turns, w: World, req: Req)
    ensures var (w', answer) := Handle(turns, w, req);
            var calls := Between(w, w');
            LastError(calls).Some? ==>
              answer == Err(Complaint(calls[|calls| - 1].op, LastError(calls).value))
  {
    hide Wrapped, NoAuthKey, ShortPin, Utf8.Encode, Complaint;
    var (w', answer) := Handle(turns, w, req);
    var calls := Between(w, w');
    CallsFollowScript(turns, w, req);
    if LastError(calls).Some? {
      var e := LastError(calls).value;
      Complaints(e);
      if req.Provision? { ProvisionFails(turns, w, req.pin); }
    }
  }

  lemma Complaints(e: string)
    ensures Complaint(ReadKey, e) == NoAuthKey(e)
    ensures forall pin :: Complaint(VerifyPw1(pin), e) == Wrapped(PIN_REJECTED, e)
    ensures forall msg :: Complaint(Authenticate(msg), e) == Wrapped(SIGN_FAILED, e)
    ensures forall pin :: Complaint(VerifyPw3(pin), e) == Wrapped(ADMIN_PIN_REJECTED, e)
    ensures Complaint(SetAlgorithm, e) == Wrapped(SET_ALGORITHM_FAILED, e)
    ensures Complaint(GenerateKey, e) == Wrapped(GENERATION_FAILED, e)
  {
    KeyComplaint(e);
    ShortComplaints(e);
    LongComplaints(e);
    hide Wrapped, NoAuthKey;
    hide PIN_REJECTED, SIGN_FAILED, ADMIN_PIN_REJECTED, SET_ALGORITHM_FAILED, GENERATION_FAILED;
  }

  lemma ProvisionFails(turns: Turns, w: World, pin: string)
    ensures var (w', answer) := ProvisionAuth(turns, w, pin);
            var calls := Between(w, w');
            LastError(calls).Some? ==>
              && |calls| > 0
              && answer == Err(Wrapped([ADMIN_PIN_REJECTED, SET_ALGORITHM_FAILED, GENERATION_FAILED][|calls| - 1],
                                       LastError(calls).value))
  {
    hide Wrapped, ShortPin, Utf8.Encode, Refuses, Effect, FailedEffect;
    hide ADMIN_PIN_REJECTED, SET_ALGORITHM_FAILED, GENERATION_FAILED;
  }

  // ---------- what it takes ----------

  // A request begins exactly when the card can be opened, if it is not, and a
  // transaction begun; otherwise the error of the call that failed is the answer
  // as it stands.
  lemma BegunExactly(turns: Turns, s: Session, req: Req)
    ensures var e, first, second := Serve(turns, s, req), turns(s.world.clock), turns(s.world.clock + 1);
            if s.held then
              if first.fault.Some? then e.begun == None && e.answer == Err(first.fault.value)
              else e.begun.Some? && e.begun.value.clock == s.world.clock + 1
            else
              if first.fault.Some? then e.begun == None && e.answer == Err(first.fault.value)
              else if second.fault.Some? then e.begun == None && e.answer == Err(second.fault.value)
              else e.begun.Some? && e.begun.value.clock == s.world.clock + 2
  {
    hide Handle, Effect, FailedEffect, AfterOthers;
  }

  // Unlocking needs nothing but that the card's call succeeds.
  lemma UnlockSucceedsIff(turns: Turns, s: Session, pin: string, reply: nat)
    requires Serve(turns, s, Unlock(pin, reply)).begun.Some?
    ensures var e := Serve(turns, s, Unlock(pin, reply));
            e.answer == Ok(Unlocked) <==> turns(e.begun.value.clock).fault.None?
  {
    ServeBegins(turns, s, Unlock(pin, reply));
    UnlockAnswers(turns, Serve(turns, s, Unlock(pin, reply)).begun.value, pin, reply);
    hide Serve, Handle, Between, Wrapped;
  }

  // The signature handed on is the one the card gave for the message, and it is
  // given exactly with the PIN verified and a key in the slot.
  lemma SignSucceedsIff(turns: Turns, s: Session, msg: seq<byte>, reply: nat, sig: Array64)
    requires Serve(turns, s, Card.Sign(msg, reply)).begun.Some?
    ensures var e := Serve(turns, s, Card.Sign(msg, reply));
            var w := e.begun.value;
            e.answer == Ok(Signature(sig)) <==>
              w.card.pw1 && w.card.slot.Some? && turns(w.clock).fault.None? && turns(w.clock).signature == sig
  {
    ServeBegins(turns, s, Card.Sign(msg, reply));
    hide Serve, Between, Wrapped, IsCommText, FailedEffect;
  }

  lemma ProvisionMakes(turns: Turns, w: World, pin: string, k: Array32)
    ensures ProvisionAuth(turns, w, pin).1 == Ok(Point(k)) <==>
              && |Utf8.Encode(pin)| >= 8
              && turns(w.clock).fault.None? && turns(w.clock + 1).fault.None? && turns(w.clock + 2).fault.None?
              && turns(w.clock + 2).made == Ecc(k)
  {
    hide Wrapped, ShortPin, Utf8.Encode, FailedEffect;
  }

  // A provisioning succeeds exactly when its PIN has eight bytes or more, the
  // card takes that PIN, the algorithm and the generation, and makes a 32-byte
  // point; that point is the answer.
  lemma ProvisionSucceedsIff(turns: Turns, s: Session, pin: string, reply: nat, k: Array32)
    ensures var e := Serve(turns, s, Provision(pin, reply));
            e.answer == Ok(Point(k)) <==>
              && e.begun.Some? && |Utf8.Encode(pin)| >= 8
              && var t := e.begun.value.clock;
                 && turns(t).fault.None? && turns(t + 1).fault.None? && turns(t + 2).fault.None?
                 && turns(t + 2).made == Ecc(k)
  {
    hide Serve, ProvisionAuth, Between, Utf8.Encode;
    var e := Serve(turns, s, Provision(pin, reply));
    if e.begun.Some? {
      ServeBegins(turns, s, Provision(pin, reply));
      ProvisionMakes(turns, e.begun.value, pin, k);
    } else {
      ServeFails(turns, s, Provision(pin, reply));
    }
  }

  // ---------- the refusals of our own ----------

  // The complaint about an admin PIN of `n` bytes, with that number in it.
  function ShortPinSentence(n: nat): string
    requires n < 8
  {
    "admin PIN is " + "01234567"[n..n + 1] + " characters; PW3 needs"
    + (" at least 8. That is the" + (" ADMIN PIN" + (" (default 12345678)," + " not the 6-digit user PIN.")))
  }

  lemma ShortPinReads(n: nat)
    requires n < 8
    ensures ShortPin(n) == ShortPinSentence(n)
  {
    assert [('0' as int + n) as char] == "01234567"[n..n + 1];
    assert NOT_USER_PIN == " not the 6-digit user PIN.";
    hide NOT_USER_PIN;
  }

  lemma KeyTextsRead()
    ensures NOT_A_POINT == "auth key is not a 32-byte Ed25519" + " point"
    ensures IS_RSA == "auth key is RSA, not Ed25519"
  {}

  lemma SignatureTextReads()
    ensures BAD_SIGNATURE_LENGTH == "card returned a non-64-byte" + " signature"
  {}

  lemma GenerationTextsRead()
    ensures GENERATED_NOT_A_POINT == "generated key is not a 32-byte" + " Ed25519 point"
    ensures GENERATED_NOT_ECC == "card generated a non-ECC key"
  {}

  // Where every call succeeded and the answer is an error all the same, the card
  // gave something of the wrong kind or length, or the admin PIN was too short
  // to be sent.
  lemma OwnRefusals(turns: Turns, w: World, req: Req)
    ensures var (w', answer) := Handle(turns, w, req);
            LastError(Between(w, w')).None? && answer.Err? ==>
              match req
              case Pubkey(_) =>
                (match w.card.slot
                 case Some(Rsa) => answer.error == "auth key is RSA, not Ed25519"
                 case Some(Ecc(d)) => |d| != 32 && answer.error == "auth key is not a 32-byte Ed25519" + " point"
                 case None => false)
              case Unlock(_, _) => false
              case Sign(_, _) =>
                |turns(w.clock).signature| != 64 && answer.error == "card returned a non-64-byte" + " signature"
              case Provision(pin, _) =>
                if |Utf8.Encode(pin)| < 8 then answer.error == ShortPinSentence(|Utf8.Encode(pin)|)
                else
                  match turns(w.clock + 2).made
                  case Rsa => answer.error == "card generated a non-ECC key"
                  case Ecc(d) => |d| != 32 && answer.error == "generated key is not a 32-byte" + " Ed25519 point"
  {
    hide Wrapped, NoAuthKey, ShortPin, ShortPinSentence, Utf8.Encode, FailedEffect, LOCAL_TEXTS;
    hide NOT_A_POINT, IS_RSA, BAD_SIGNATURE_LENGTH, GENERATED_NOT_A_POINT, GENERATED_NOT_ECC;
    KeyTextsRead();
    SignatureTextReads();
    GenerationTextsRead();
    match req {
      case Provision(pin, _) =>
        if |Utf8.Encode(pin)| < 8 { ShortPinReads(|Utf8.Encode(pin)|); }
        ProvisionRefuses(turns, w, pin);
      case _ =>
    }
  }

  lemma ProvisionRefuses(turns: Turns, w: World, pin: string)
    ensures var (w', answer) := ProvisionAuth(turns, w, pin);
            LastError(Between(w, w')).None? && answer.Err? ==>
              if |Utf8.Encode(pin)| < 8 then answer.error == ShortPin(|Utf8.Encode(pin)|)
              else
                match turns(w.clock + 2).made
                case Rsa => answer.error == GENERATED_NOT_ECC
                case Ecc(d) => |d| != 32 && answer.error == GENERATED_NOT_A_POINT
  {
    hide Wrapped, ShortPin, Utf8.Encode, Refuses, Effect, FailedEffect, GENERATED_NOT_ECC, GENERATED_NOT_A_POINT;
  }
}
