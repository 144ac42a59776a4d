// From the key the card reports to the transaction the server verifies: what a
// run of the card thread says about a signature posted for a YubiKey.
module CardSigning {
  import opened Bytes
  import opened TxFormat
  import opened Canonical
  import opened Signing
  import opened Card
  import opened CardRuns
  import opened CardSafety
  import Flow
  import Utf8

  // The card when the request's transaction began, or when it failed to.
  function Arrived(e: Entry): World {
    if e.begun.Some? then e.begun.value else e.after.world
  }

  // Nobody else changed the key before the request was handled.
  predicate SlotSpared(e: Entry) {
    Arrived(e).card.slot == e.before.world.card.slot
  }

  // From after request `i` until request `j` is handled, the key is changed
  // neither by a Provision of ours nor by anyone else.
  ghost predicate SlotKept(run: seq<Entry>, i: nat, j: nat) {
    && i < j < |run|
    && (forall m :: i < m < j ==> !run[m].req.Provision?)
    && (forall m :: i < m <= j ==> SlotSpared(run[m]))
  }

  // What the card signed is a signature under the key in its slot.
  ghost predicate SignsWithSlot(p: Primitives, e: Entry) {
    forall k: Array32, sig: Array64 ::
      e.req.Sign? && e.begun.Some? && e.begun.value.card.slot == Some(Ecc(k)) && e.answer == Ok(Signature(sig))
      ==> p.isPoint(k) && p.verifies(k, e.req.msg, sig)
  }

  // ---------- the slot over a run ----------

  lemma AloneSparesSlot(turns: Turns, s: Session, req: Req)
    requires forall t: nat :: turns(t).others.None?
    ensures SlotSpared(Serve(turns, s, req))
  {
    hide Handle, Refuses;
  }

  // Where nobody else uses the card, the key is kept as long as no Provision
  // comes in between.
  lemma SoleUserKeepsSlot(turns: Turns, s: Session, reqs: seq<Req>, i: nat, j: nat)
    requires forall t: nat :: turns(t).others.None?
    requires i < j < |reqs|
    ensures SlotKept(Run(turns, s, reqs), i, j) <==> forall m :: i < m < j ==> !reqs[m].Provision?
  {
    hide Serve, Run, SlotSpared;
    var run := Run(turns, s, reqs);
    forall m | 0 <= m < |reqs| ensures SlotSpared(run[m]) && run[m].req == reqs[m] {
      RunAt(turns, s, reqs, m);
      AloneSparesSlot(turns, run[m].before, reqs[m]);
    }
  }

  lemma StepSlot(turns: Turns, s: Session, req: Req)
    requires !req.Provision? && SlotSpared(Serve(turns, s, req))
    ensures Serve(turns, s, req).after.world.card.slot == s.world.card.slot
  {
    var e := Serve(turns, s, req);
    ServeFrom(turns, s, req);
    if e.begun.Some? {
      ServeBegins(turns, s, req);
      HandleSlot(turns, e.begun.value, req);
    }
    hide Serve, Handle, Between, ProvisionCalls, Utf8.Encode;
  }

  // A key that is reported, read or just made, is the one left in the slot.
  lemma ReportedIsInSlot(turns: Turns, s: Session, req: Req, k: Array32)
    requires Serve(turns, s, req).answer == Ok(Point(k))
    ensures Serve(turns, s, req).after.world.card.slot == Some(Ecc(k))
  {
    var e := Serve(turns, s, req);
    ServeSuits(turns, s, req);
    if e.begun.None? { ServeFails(turns, s, req); }
    match req {
      case Pubkey(reply) =>
        PubkeyReportsSlot(turns, s, reply, k);
        ServeBegins(turns, s, req);
        HandleSlot(turns, e.begun.value, req);
      case Provision(pin, reply) => ProvisionReportsNewKey(turns, s, pin, reply);
      case _ =>
    }
    hide Serve, Handle, Between, ProvisionCalls, Utf8.Encode;
  }

  lemma {:induction false} ReportedStays(turns: Turns, s: Session, reqs: seq<Req>, i: nat, j: nat, k: Array32)
    requires i < j < |reqs|
    requires var run := Run(turns, s, reqs);
             run[i].answer == Ok(Point(k)) && SlotKept(run, i, j)
    ensures Arrived(Run(turns, s, reqs)[j]).card.slot == Some(Ecc(k))
    decreases j
  {
    hide Serve, Run, Arrived;
    var run := Run(turns, s, reqs);
    RunAt(turns, s, reqs, j);
    assert SlotSpared(run[j]);
    if i + 1 == j {
      RunAt(turns, s, reqs, i);
      ReportedIsInSlot(turns, run[i].before, reqs[i], k);
    } else {
      ReportedStays(turns, s, reqs, i, j - 1, k);
      RunAt(turns, s, reqs, j - 1);
      assert SlotSpared(run[j - 1]);
      StepSlot(turns, run[j - 1].before, reqs[j - 1]);
    }
  }

  lemma SignedIsBegun(turns: Turns, s: Session, reqs: seq<Req>, j: nat)
    requires j < |reqs| && Run(turns, s, reqs)[j].answer.Ok?
    ensures Run(turns, s, reqs)[j].begun.Some? && Run(turns, s, reqs)[j].req == reqs[j]
  {
    RunAt(turns, s, reqs, j);
    var e := Run(turns, s, reqs)[j];
    if e.begun.None? { ServeFails(turns, e.before, reqs[j]); }
    hide Serve, Run;
  }

  // ---------- the signature over a run ----------

  // A signature the card gives verifies, for the server named in the
  // transaction, under the key it reported before, if the slot was left alone
  // in between.
  lemma SignedByReportedKey(
      p: Primitives, turns: Turns, s: Session, reqs: seq<Req>, i: nat, j: nat,
      t: Transaction, reply: nat, k: Array32, sig: Array64)
    requires i < j < |reqs| && reqs[j] == Card.Sign(SigningBytes(p, t), reply)
    requires var run := Run(turns, s, reqs);
             && run[i].answer == Ok(Point(k)) && run[j].answer == Ok(Signature(sig))
             && SlotKept(run, i, j) && SignsWithSlot(p, run[j])
    ensures Verify(p, SignedTransaction(t, k, sig), t.server) == Ok(())
  {
    ReportedStays(turns, s, reqs, i, j, k);
    SignedIsBegun(turns, s, reqs, j);
    hide Serve, Run, SlotKept, SigningBytes;
  }

  // Where a signature verifies under no key but the one that made it, that is
  // also needed: a transaction that names any other key than the one in the
  // slot at the signature is refused, whatever the card reported before.
  lemma OnlySlotKeyVerifies(
      p: Primitives, turns: Turns, s: Session, reqs: seq<Req>, j: nat,
      t: Transaction, reply: nat, slot: Array32, sig: Array64, admin: Array32)
    requires j < |reqs| && reqs[j] == Card.Sign(SigningBytes(p, t), reply)
    requires var run := Run(turns, s, reqs);
             && run[j].answer == Ok(Signature(sig)) && Arrived(run[j]).card.slot == Some(Ecc(slot))
             && SignsWithSlot(p, run[j])
    requires forall k: Array32 :: p.verifies(k, SigningBytes(p, t), sig) ==> k == slot
    ensures Verify(p, SignedTransaction(t, admin, sig), t.server).Ok? <==> admin == slot
  {
    SignedIsBegun(turns, s, reqs, j);
    hide Serve, Run, SigningBytes;
  }

  // Making a new key ends the identity of the old one: what the card signs
  // after a Provision verifies under the new key and not under the key it
  // reported before.
  lemma ProvisionEndsOldKey(
      p: Primitives, turns: Turns, s: Session, reqs: seq<Req>, m: nat, j: nat,
      t: Transaction, reply: nat, former: Array32, made: Array32, sig: Array64)
    requires m < j < |reqs| && reqs[m].Provision? && reqs[j] == Card.Sign(SigningBytes(p, t), reply)
    requires var run := Run(turns, s, reqs);
             && run[m].answer == Ok(Point(made)) && run[j].answer == Ok(Signature(sig))
             && SlotKept(run, m, j) && SignsWithSlot(p, run[j])
    requires forall k: Array32 :: p.verifies(k, SigningBytes(p, t), sig) ==> k == made
    requires former != made
    ensures Verify(p, SignedTransaction(t, made, sig), t.server) == Ok(())
    ensures Verify(p, SignedTransaction(t, former, sig), t.server).Err?
  {
    SignedByReportedKey(p, turns, s, reqs, m, j, t, reply, made, sig);
    ReportedStays(turns, s, reqs, m, j, made);
    OnlySlotKeyVerifies(p, turns, s, reqs, j, t, reply, made, sig, former);
    hide Serve, Run, SigningBytes, SlotKept;
  }

  // ---------- the flow on a card ----------

  // What the card thread's answer to a Sign is to the flow. It is never a value
  // of another kind (`CardRuns.OneReplyEach`).
  function CardReply(answer: Answer): Result<Array64, string> {
    match answer
    case Ok(Signature(sig)) => Ok(sig)
    case Ok(_) => Err("")
    case Err(e) => Err(e)
  }

  // One attempt with a card whose key was read, or made, earlier in the run:
  // it posts exactly when the card signs, what it posts names that key and
  // verifies for the server, and the server reads it back exactly within the
  // caps.
  lemma CardEndToEnd(
      p: Primitives, turns: Turns, s: Session, reqs: seq<Req>, i: nat, j: nat, k: Array32,
      t: Transaction, reply: nat, body: seq<byte>)
    requires t.ops != []
    requires i < j < |reqs| && reqs[j] == Card.Sign(SigningBytes(p, t), reply)
    requires var run := Run(turns, s, reqs);
             run[i].answer == Ok(Point(k)) && SlotKept(run, i, j) && SignsWithSlot(p, run[j])
    ensures var answer := Run(turns, s, reqs)[j].answer;
            var effects := Flow.FlowEffects(
              p, Flow.YubiBackend(k), t.server, t.ops, Ok((200, t.nonce)), CardReply(answer));
            Flow.Post(body) in effects <==>
              && answer.Ok? && answer.value.Signature?
              && var posted := SignedTransaction(t, k, answer.value.signature);
                 && body == SignedBytes(posted)
                 && Verify(p, posted, t.server) == Ok(())
                 && (Decode(body) == Ok(posted) <==> InBounds(DECODE_LIMITS, t))
  {
    var answer := Run(turns, s, reqs)[j].answer;
    var b := Flow.YubiBackend(k);
    CardEffects(p, k, t, CardReply(answer));
    match answer {
      case Ok(Signature(sig)) =>
        SignedByReportedKey(p, turns, s, reqs, i, j, t, reply, k, sig);
        SurvivesWireIffInBounds(SignedTransaction(t, k, sig));
      case _ =>
    }
    hide *;
  }

  // A card that does not sign ends the attempt with its own words, nothing posted.
  lemma CardRefusalEndsFlow(
      p: Primitives, turns: Turns, s: Session, req: Req, k: Array32, t: Transaction,
      verdict: Flow.Response, read: Flow.JsonReader)
    requires t.ops != [] && req.Sign?
    ensures var answer, b := Serve(turns, s, req).answer, Flow.YubiBackend(k);
            var result := Flow.FlowResult(
              p, b, t.server, t.ops, Ok((200, t.nonce)), CardReply(answer), verdict, read);
            answer.Err? ==> result == Err(Flow.SignFailed(answer.error))
    ensures var answer := Serve(turns, s, req).answer;
            answer.Ok? ==> CardReply(answer).Ok? && answer == Ok(Signature(CardReply(answer).value))
  {
    ServeSuits(turns, s, req);
    Flow.FlowSigns(p, k, k, t, CardReply(Serve(turns, s, req).answer), verdict, read);
    hide Serve, Flow.FlowResult, Flow.FlowEffects;
  }

  lemma CardEffects(p: Primitives, k: Array32, t: Transaction, cardReply: Result<Array64, string>)
    requires t.ops != []
    ensures var effects := Flow.FlowEffects(p, Flow.YubiBackend(k), t.server, t.ops, Ok((200, t.nonce)), cardReply);
            forall body :: Flow.Post(body) in effects <==>
              cardReply.Ok? && body == SignedBytes(SignedTransaction(t, k, cardReply.value))
  {
    hide SigningBytes, SignedBytes;
  }
}
