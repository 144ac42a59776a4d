// The card thread: one connection held across requests, opened only when a
// request is in hand and dropped when the card seems gone. The card, its
// reader and the other users of the card are an environment that decides
// freely, at each call, what goes wrong.
module Card {
  import opened Bytes
  import opened CardText
  import Utf8

  // ---------- the card ----------

  datatype Material = Ecc(data: seq<byte>) | Rsa

  datatype CardState = CardState(
    pw1: bool,               // the user PIN is verified
    pw3: bool,               // the admin PIN is verified
    pw3Tries: nat,           // admin PIN attempts left
    ed25519: bool,           // the Authentication slot is set to Ed25519
    slot: Option<Material>)  // the key in the Authentication slot

  // What is sent to the card: the PINs are the bytes of their texts.
  datatype Op =
    | Open
    | Begin
    | VerifyPw1(pin: seq<byte>)
    | ReadKey
    | Authenticate(msg: seq<byte>)
    | VerifyPw3(pin: seq<byte>)
    | SetAlgorithm
    | GenerateKey

  // What became of a PIN in a call that failed: the card never looked at it,
  // refused it, or accepted it and the answer was lost.
  datatype PinFate = Unseen | Refused | AcceptedUnheard

  // What the environment does at one call. A fault may strike before or after
  // the card acted, on a PIN or on the slot, and may reset the card. Between
  // transactions others may have used the card.
  datatype Turn = Turn(
    fault: Option<string>,
    pin: PinFate,
    acted: bool,
    reset: bool,
    refusal: string,
    made: Material,
    signature: seq<byte>,
    others: Option<CardState>)

  type Turns = nat -> Turn

  datatype Call = Call(op: Op, error: Option<string>)

  datatype World = World(clock: nat, card: CardState, calls: seq<Call>)

  // What the card itself refuses.
  predicate Refuses(card: CardState, op: Op) {
    match op
    case Authenticate(_) => !card.pw1 || card.slot.None?
    case SetAlgorithm => !card.pw3
    case GenerateKey => !card.pw3
    case ReadKey => card.slot.None?
    case _ => false
  }

  // Others may lock the card or change its key, but never unlock it for us.
  function AfterOthers(card: CardState, turn: Turn): CardState {
    match turn.others
    case None => card
    case Some(c) => c.(pw1 := card.pw1 && c.pw1)
  }

  // The state after the card carried the call out.
  function Effect(card: CardState, op: Op, turn: Turn): CardState {
    match op
    case Open => card.(pw1 := false, pw3 := false)
    case VerifyPw1(_) => card.(pw1 := true)
    case VerifyPw3(_) => card.(pw3 := true, pw3Tries := 3)
    case SetAlgorithm => card.(ed25519 := true, slot := None)
    case GenerateKey => card.(slot := Some(turn.made))
    case _ => card
  }

  // The state after a call that failed. Whatever the card did before its answer
  // was lost still counts.
  function FailedEffect(card: CardState, op: Op, turn: Turn): CardState {
    var c :=
      match op
      case VerifyPw1(_) =>
        (match turn.pin
         case Unseen => card
         case Refused => card.(pw1 := false)
         case AcceptedUnheard => Effect(card, op, turn))
      case VerifyPw3(_) =>
        (match turn.pin
         case Unseen => card
         case Refused => card.(pw3 := false, pw3Tries := if card.pw3Tries > 0 then card.pw3Tries - 1 else 0)
         case AcceptedUnheard => Effect(card, op, turn))
      case SetAlgorithm => if turn.acted && card.pw3 then Effect(card, op, turn) else card
      case GenerateKey => if turn.acted && card.pw3 then Effect(card, op, turn) else card
      case _ => card;
    if turn.reset then c.(pw1 := false, pw3 := false) else c
  }

  // One call to the card, and the error it gave.
  function Do(turns: Turns, w: World, op: Op): (World, Option<string>) {
    var turn := turns(w.clock);
    var card := if op.Begin? then AfterOthers(w.card, turn) else w.card;
    var error := if turn.fault.Some? then turn.fault
                 else if Refuses(card, op) then Some(turn.refusal)
                 else None;
    var card' := if error.Some? then FailedEffect(card, op, turn) else Effect(card, op, turn);
    (World(w.clock + 1, card', w.calls + [Call(op, error)]), error)
  }

  // ---------- requests ----------

  // Each request carries the channel its reply goes to.
  datatype Req =
    | Pubkey(reply: nat)
    | Unlock(pin: string, reply: nat)
    | Sign(msg: seq<byte>, reply: nat)
    | Provision(pin: string, reply: nat)

  datatype Value = Point(point: Array32) | Unlocked | Signature(signature: Array64)

  type Answer = Result<Value, string>

  datatype Reply = Reply(to: nat, answer: Answer)

  function ReadPubkey(turns: Turns, w: World): (World, Answer) {
    var (w1, e) := Do(turns, w, ReadKey);
    if e.Some? then (w1, Err(NoAuthKey(e.value)))
    else (w1, match w.card.slot
              case Some(Ecc(data)) => if |data| == 32 then Ok(Point(data)) else Err(NOT_A_POINT)
              case _ => Err(IS_RSA))
  }

  function UnlockUser(turns: Turns, w: World, pin: string): (World, Answer) {
    var (w1, e) := Do(turns, w, VerifyPw1(Utf8.Encode(pin)));
    (w1, if e.Some? then Err(Wrapped(PIN_REJECTED, e.value)) else Ok(Unlocked))
  }

  function SignMessage(turns: Turns, w: World, msg: seq<byte>): (World, Answer) {
    var (w1, e) := Do(turns, w, Authenticate(msg));
    var s := turns(w.clock).signature;
    (w1, if e.Some? then Err(Wrapped(SIGN_FAILED, e.value))
         else if |s| == 64 then Ok(Signature(s))
         else Err(BAD_SIGNATURE_LENGTH))
  }

  function ProvisionAuth(turns: Turns, w: World, pin: string): (World, Answer) {
    var len := |Utf8.Encode(pin)|;
    if len < 8 then (w, Err(ShortPin(len))) else
    var (w1, e1) := Do(turns, w, VerifyPw3(Utf8.Encode(pin)));
    if e1.Some? then (w1, Err(Wrapped(ADMIN_PIN_REJECTED, e1.value))) else
    var (w2, e2) := Do(turns, w1, SetAlgorithm);
    if e2.Some? then (w2, Err(Wrapped(SET_ALGORITHM_FAILED, e2.value))) else
    var (w3, e3) := Do(turns, w2, GenerateKey);
    if e3.Some? then (w3, Err(Wrapped(GENERATION_FAILED, e3.value)))
    else (w3, match turns(w2.clock).made
              case Ecc(data) => if |data| == 32 then Ok(Point(data)) else Err(GENERATED_NOT_A_POINT)
              case Rsa => Err(GENERATED_NOT_ECC))
  }

  function Handle(turns: Turns, w: World, req: Req): (World, Answer) {
    match req
    case Pubkey(_) => ReadPubkey(turns, w)
    case Unlock(pin, _) => UnlockUser(turns, w, pin)
    case Sign(msg, _) => SignMessage(turns, w, msg)
    case Provision(pin, _) => ProvisionAuth(turns, w, pin)
  }

  // ---------- a server holding an optional connection ----------

  datatype Session = Session(held: bool, world: World)

  // One request served: whether it opened the card, the world in which its
  // transaction began if it did, what was answered, and what is held after.
  datatype Entry = Entry(
    before: Session, req: Req, reopened: bool, begun: Option<World>, answer: Answer, after: Session)

  function Serve(turns: Turns, s: Session, req: Req): Entry {
    var (w1, e1) := if s.held then (s.world, None) else Do(turns, s.world, Open);
    if e1.Some? then Entry(s, req, false, None, Err(e1.value), Session(false, w1)) else
    var (w2, e2) := Do(turns, w1, Begin);
    if e2.Some? then Entry(s, req, !s.held, None, Err(e2.value), Session(false, w2)) else
    var (w3, answer) := Handle(turns, w2, req);
    Entry(s, req, !s.held, Some(w2), answer, Session(!IsCommFailure(answer), w3))
  }

  function Run(turns: Turns, s: Session, reqs: seq<Req>): (run: seq<Entry>)
    ensures |run| == |reqs|
    decreases |reqs|
  {
    if reqs == [] then []
    else
      var e := Serve(turns, s, reqs[0]);
      [e] + Run(turns, e.after, reqs[1..])
  }

  function RepliesOf(run: seq<Entry>): seq<Reply> {
    if run == [] then [] else [Reply(run[0].req.reply, run[0].answer)] + RepliesOf(run[1..])
  }

  function Final(s: Session, run: seq<Entry>): Session {
    if run == [] then s else run[|run| - 1].after
  }

  // ---------- the thread ----------

  // The card as seen through PC/SC.
  class Device {
    const turns: Turns
    var world: World

    constructor (turns: Turns, world: World)
      ensures this.turns == turns && this.world == world
    {
      this.turns := turns;
      this.world := world;
    }

    method Perform(op: Op) returns (error: Option<string>)
      modifies this
      ensures (world, error) == Do(turns, old(world), op)
    {
      var (w, e) := Do(turns, world, op);
      world := w;
      error := e;
    }
  }

  // The receiving end of the request queue; it closes when the queue is empty
  // and every sender is gone.
  class Receiver {
    var queue: seq<Req>

    method Recv() returns (req: Option<Req>)
      modifies this
      ensures if old(queue) == [] then req == None && queue == []
              else req == Some(old(queue)[0]) && queue == old(queue)[1..]
    {
      if queue == [] {
        req := None;
      } else {
        req := Some(queue[0]);
        queue := queue[1..];
      }
    }
  }

  // Every reply sent, in order.
  class Outbox {
    var sent: seq<Reply>

    method Send(to: nat, answer: Answer)
      modifies this
      ensures sent == old(sent) + [Reply(to, answer)]
    {
      sent := sent + [Reply(to, answer)];
    }
  }

  method ReplyErr(req: Req, err: string, out: Outbox)
    modifies out
    ensures out.sent == old(out.sent) + [Reply(req.reply, Err(err))]
  {
    out.Send(req.reply, Err(err));
  }

  method ReadPubkeyOn(card: Device) returns (r: Answer)
    modifies card
    ensures (card.world, r) == ReadPubkey(card.turns, old(card.world))
  {
    var slot := card.world.card.slot;
    var e := card.Perform(ReadKey);
    if e.Some? {
      return Err(NoAuthKey(e.value));
    }
    match slot {
      case Some(Ecc(data)) => r := if |data| == 32 then Ok(Point(data)) else Err(NOT_A_POINT);
      case _ => r := Err(IS_RSA);
    }
  }

  method ProvisionOn(card: Device, pin: string) returns (r: Answer)
    modifies card
    ensures (card.world, r) == ProvisionAuth(card.turns, old(card.world), pin)
  {
    var len := |Utf8.Encode(pin)|;
    if len < 8 {
      return Err(ShortPin(len));
    }
    var e := card.Perform(VerifyPw3(Utf8.Encode(pin)));
    if e.Some? {
      return Err(Wrapped(ADMIN_PIN_REJECTED, e.value));
    }
    e := card.Perform(SetAlgorithm);
    if e.Some? {
      return Err(Wrapped(SET_ALGORITHM_FAILED, e.value));
    }
    var made := card.turns(card.world.clock).made;
    e := card.Perform(GenerateKey);
    if e.Some? {
      return Err(Wrapped(GENERATION_FAILED, e.value));
    }
    match made {
      case Ecc(data) => r := if |data| == 32 then Ok(Point(data)) else Err(GENERATED_NOT_A_POINT);
      case Rsa => r := Err(GENERATED_NOT_ECC);
    }
  }

  // Whatever becomes of a request, one reply goes out, and the result says
  // whether the connection may serve the next one.
  method HandleOn(card: Device, req: Req, out: Outbox) returns (keep: bool)
    modifies card, out
    ensures var (w, answer) := Handle(card.turns, old(card.world), req);
            && card.world == w
            && out.sent == old(out.sent) + [Reply(req.reply, answer)]
            && keep == !IsCommFailure(answer)
  {
    var r: Answer;
    match req {
      case Pubkey(_) =>
        r := ReadPubkeyOn(card);
      case Unlock(pin, _) =>
        var e := card.Perform(VerifyPw1(Utf8.Encode(pin)));
        r := if e.Some? then Err(Wrapped(PIN_REJECTED, e.value)) else Ok(Unlocked);
      case Provision(pin, _) =>
        r := ProvisionOn(card, pin);
      case Sign(msg, _) =>
        var s := card.turns(card.world.clock).signature;
        var e := card.Perform(Authenticate(msg));
        r := if e.Some? then Err(Wrapped(SIGN_FAILED, e.value))
             else if |s| == 64 then Ok(Signature(s))
             else Err(BAD_SIGNATURE_LENGTH);
    }
    keep := !IsCommFailure(r);
    out.Send(req.reply, r);
  }

  // A request whose transaction cannot begin is answered with that error and
  // costs the connection.
  method HandleReq(card: Device, req: Req, out: Outbox) returns (keep: bool)
    modifies card, out
    ensures var e := Serve(card.turns, Session(true, old(card.world)), req);
            && Session(keep, card.world) == e.after
            && out.sent == old(out.sent) + [Reply(req.reply, e.answer)]
  {
    var e := card.Perform(Begin);
    if e.Some? {
      ReplyErr(req, e.value, out);
      return false;
    }
    keep := HandleOn(card, req, out);
  }

  // What is left to answer, and the card at the end, seen from session `s`.
  ghost function Rest(turns: Turns, s: Session, reqs: seq<Req>): (seq<Reply>, World) {
    var run := Run(turns, s, reqs);
    (RepliesOf(run), Final(s, run).world)
  }

  lemma RestStep(turns: Turns, s: Session, reqs: seq<Req>)
    requires reqs != []
    ensures var e := Serve(turns, s, reqs[0]);
            var (replies, w) := Rest(turns, e.after, reqs[1..]);
            Rest(turns, s, reqs) == ([Reply(reqs[0].reply, e.answer)] + replies, w)
  {
    var e := Serve(turns, s, reqs[0]);
    var run := Run(turns, e.after, reqs[1..]);
    assert ([e] + run)[1..] == run;
  }

  // The replies sent so far and those to come are the replies of the whole run.
  ghost predicate OnTrack(
      sent: seq<Reply>, rest: (seq<Reply>, World), before: seq<Reply>, whole: (seq<Reply>, World))
  {
    sent + rest.0 == before + whole.0 && rest.1 == whole.1
  }

  lemma OnTrackStep(
      turns: Turns, s: Session, reqs: seq<Req>, sent: seq<Reply>, before: seq<Reply>, whole: (seq<Reply>, World))
    requires reqs != [] && OnTrack(sent, Rest(turns, s, reqs), before, whole)
    ensures var e := Serve(turns, s, reqs[0]);
            OnTrack(sent + [Reply(reqs[0].reply, e.answer)], Rest(turns, e.after, reqs[1..]), before, whole)
  {
    RestStep(turns, s, reqs);
    var e := Serve(turns, s, reqs[0]);
    var reply, rest := [Reply(reqs[0].reply, e.answer)], Rest(turns, e.after, reqs[1..]).0;
    assert sent + (reply + rest) == (sent + reply) + rest;
  }

  // The thread answers everything queued before the senders went away exactly
  // as the simple server with an optional connection does, then returns.
  method CardLoop(rx: Receiver, card: Device, out: Outbox)
    modifies rx, card, out
    ensures rx.queue == []
    ensures var run := Run(card.turns, Session(false, old(card.world)), old(rx.queue));
            && out.sent == old(out.sent) + RepliesOf(run)
            && card.world == Final(Session(false, old(card.world)), run).world
  {
    ghost var turns, before := card.turns, out.sent;
    ghost var whole := Rest(turns, Session(false, card.world), rx.queue);
    while true
      invariant OnTrack(out.sent, Rest(turns, Session(false, card.world), rx.queue), before, whole)
      decreases |rx.queue|
    {
      ghost var start, queue, world := rx.queue, rx.queue, card.world;
      var first := rx.Recv();
      if first.None? { return; }
      OnTrackStep(turns, Session(false, world), queue, out.sent, before, whole);
      hide Rest, OnTrack, Handle;
      var e := card.Perform(Open);
      if e.Some? {
        ReplyErr(first.value, e.value, out);
        continue;
      }
      var keep := HandleReq(card, first.value, out);
      if !keep { continue; }
      while true
        invariant |rx.queue| < |start|
        invariant OnTrack(out.sent, Rest(turns, Session(true, card.world), rx.queue), before, whole)
        decreases |rx.queue|
      {
        queue, world := rx.queue, card.world;
        var req := rx.Recv();
        if req.None? { return; }
        OnTrackStep(turns, Session(true, world), queue, out.sent, before, whole);
        keep := HandleReq(card, req.value, out);
        if !keep { break; }
      }
    }
  }
}
