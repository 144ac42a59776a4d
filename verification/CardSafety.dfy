// What the card thread guarantees about the PINs and the key on the card.
module CardSafety {
  import opened Bytes
  import opened CardText
  import opened Card
  import opened CardRuns
  import Utf8

  // ---------- one PIN entry per connection ----------

  predicate UnlockedHeld(s: Session) {
    s.held && s.world.card.pw1
  }

  // The PIN was accepted by the card in this call, whether or not it could say so.
  predicate PinTaken(turn: Turn, error: Option<string>) {
    error.None? || turn.pin.AcceptedUnheard?
  }

  // Only a PIN the card accepted verifies it, and opening the card forgets it.
  lemma DoPw1(turns: Turns, w: World, op: Op)
    ensures var (w', e) := Do(turns, w, op);
            && (w'.card.pw1 ==> w.card.pw1 || (op.VerifyPw1? && PinTaken(turns(w.clock), e)))
            && (op == Open && e.None? ==> !w'.card.pw1)
            && (op.Authenticate? && e.None? ==> w.card.pw1)
  {}

  // A request that, begun in world `w`, had its PIN accepted by the card: it
  // was answered Ok, or the answer was lost and came back as an error.
  predicate Unlocks(turns: Turns, w: World, req: Req, answer: Answer) {
    req.Unlock? && (answer.Ok? || turns(w.clock).pin.AcceptedUnheard?)
  }

  lemma HandlePw1(turns: Turns, w: World, req: Req)
    ensures var (w', answer) := Handle(turns, w, req);
            && (w'.card.pw1 ==> w.card.pw1 || Unlocks(turns, w, req, answer))
            && (req.Sign? && answer.Ok? ==> w.card.pw1)
  {
    match req {
      case Pubkey(_) => DoPw1(turns, w, ReadKey);
      case Unlock(pin, _) => DoPw1(turns, w, VerifyPw1(Utf8.Encode(pin)));
      case Sign(msg, _) =>
        DoPw1(turns, w, Authenticate(msg));
        assert SignMessage(turns, w, msg).1.Ok? ==> Do(turns, w, Authenticate(msg)).1.None?;
      case Provision(pin, _) =>
        var (w1, _) := Do(turns, w, VerifyPw3(Utf8.Encode(pin)));
        DoPw1(turns, w, VerifyPw3(Utf8.Encode(pin)));
        var (w2, _) := Do(turns, w1, SetAlgorithm);
        DoPw1(turns, w1, SetAlgorithm);
        DoPw1(turns, w2, GenerateKey);
    }
    hide Do;
  }

  lemma BegunPw1(turns: Turns, s: Session, req: Req)
    requires Serve(turns, s, req).begun.Some?
    ensures Serve(turns, s, req).begun.value.card.pw1 ==> UnlockedHeld(s)
  {
    var w1 := if s.held then s.world else Do(turns, s.world, Open).0;
    DoPw1(turns, s.world, Open);
    DoPw1(turns, w1, Begin);
    hide Do, Handle;
  }

  // An Unlock after which the card is unlocked on a connection that was kept: it
  // was answered Ok, or the card had accepted the PIN and the error that came
  // back in its place does not say that the card is gone.
  predicate UnlockTook(turns: Turns, e: Entry) {
    && e.req.Unlock? && e.begun.Some? && UnlockedHeld(e.after)
    && (e.answer.Ok? || UnheardUnlock(turns(e.begun.value.clock), e.answer))
  }

  predicate UnheardUnlock(turn: Turn, answer: Answer) {
    && turn.pin.AcceptedUnheard? && turn.fault.Some? && !IsCommText(turn.fault.value)
    && answer == Err(Wrapped(PIN_REJECTED, turn.fault.value))
  }

  lemma UnlockAnswers(turns: Turns, w: World, pin: string, reply: nat)
    ensures var (w', answer) := Handle(turns, w, Unlock(pin, reply));
            && w'.clock == w.clock + 1
            && (if turns(w.clock).fault.None? then answer == Ok(Unlocked)
                else answer == Err(Wrapped(PIN_REJECTED, turns(w.clock).fault.value)))
            && (turns(w.clock).fault.Some? && turns(w.clock).reset ==> !w'.card.pw1)
  {
    hide Wrapped;
  }

  lemma StepPw1(turns: Turns, s: Session, req: Req)
    ensures var e := Serve(turns, s, req);
            UnlockedHeld(e.after) ==> UnlockedHeld(s) || UnlockTook(turns, e)
  {
    var e := Serve(turns, s, req);
    ServeFrom(turns, s, req);
    if e.begun.Some? {
      var w := e.begun.value;
      ServeBegins(turns, s, req);
      BegunPw1(turns, s, req);
      HandlePw1(turns, w, req);
      hide Serve, Handle, Between, Wrapped, IsCommText;
      if req.Unlock? && e.after.held {
        UnlockAnswers(turns, w, req.pin, req.reply);
        if e.answer.Err? { Wrappers(turns(w.clock).fault.value); }
      }
    } else {
      ServeFails(turns, s, req);
      hide Serve, Handle, Between;
    }
  }

  // The environment lets a Sign on this card through, the user PIN apart: its
  // transaction begins, nobody has locked the card or emptied its slot by then,
  // and the card returns 64 bytes.
  predicate Grants(turns: Turns, w: World) {
    var begin, sign := turns(w.clock), turns(w.clock + 1);
    && begin.fault.None? && sign.fault.None? && |sign.signature| == 64
    && match begin.others
       case None => w.card.slot.Some?
       case Some(c) => c.pw1 && c.slot.Some?
  }

  lemma SignIff(turns: Turns, s: Session, req: Req)
    requires req.Sign?
    ensures Serve(turns, s, req).answer.Ok? <==> UnlockedHeld(s) && Grants(turns, s.world)
  {
    var e := Serve(turns, s, req);
    if e.begun.Some? {
      ServeBegins(turns, s, req);
      BegunPw1(turns, s, req);
      HandlePw1(turns, e.begun.value, req);
      if UnlockedHeld(s) {
        SignHeld(turns, s, req);
      }
    } else {
      ServeFails(turns, s, req);
      if s.held { BeginFails(turns, s, req); }
    }
    hide Serve, Handle, Between, Grants;
  }

  lemma SignHeld(turns: Turns, s: Session, req: Req)
    requires UnlockedHeld(s) && req.Sign?
    ensures Serve(turns, s, req).answer.Ok? <==> Grants(turns, s.world)
  {
    hide Wrapped, IsCommText;
  }

  lemma BeginFails(turns: Turns, s: Session, req: Req)
    requires s.held && Serve(turns, s, req).begun.None?
    ensures !Grants(turns, s.world)
  {
    hide Handle;
  }

  // Request `i` unlocked the card, and it stayed unlocked and connected until
  // request `j`.
  ghost predicate Stays(turns: Turns, run: seq<Entry>, i: nat, j: nat) {
    && i < j <= |run|
    && UnlockTook(turns, run[i])
    && forall k :: i <= k < j ==> UnlockedHeld(run[k].after)
  }

  lemma {:induction false} UnlockedSince(turns: Turns, w: World, reqs: seq<Req>, j: nat)
    requires 0 < j <= |reqs|
    ensures var run := Run(turns, Session(false, w), reqs);
            UnlockedHeld(run[j - 1].after) <==> exists i: nat :: Stays(turns, run, i, j)
  {
    hide Serve, Run, UnlockTook, UnlockedHeld;
    var run := Run(turns, Session(false, w), reqs);
    RunAt(turns, Session(false, w), reqs, j - 1);
    StepPw1(turns, run[j - 1].before, reqs[j - 1]);
    if UnlockedHeld(run[j - 1].after) {
      if UnlockTook(turns, run[j - 1]) {
        assert Stays(turns, run, j - 1, j);
      } else if j > 1 {
        UnlockedSince(turns, w, reqs, j - 1);
        var i: nat :| Stays(turns, run, i, j - 1);
        assert Stays(turns, run, i, j);
      } else {
        NotHeld(w);
      }
    }
  }

  lemma NotHeld(w: World)
    ensures !UnlockedHeld(Session(false, w))
  {}

  // Over every run and in every environment, a Sign is answered Ok exactly when
  // an earlier Unlock took, the card has stayed unlocked on that connection ever
  // since, and the environment grants the Sign itself.
  lemma SignIffUnlocked(turns: Turns, w: World, reqs: seq<Req>, j: nat)
    requires j < |reqs| && reqs[j].Sign?
    ensures var run := Run(turns, Session(false, w), reqs);
            run[j].answer.Ok? <==>
              Grants(turns, run[j].before.world) && exists i: nat :: Stays(turns, run, i, j)
  {
    hide Serve, Run, UnlockTook, Grants, UnlockedHeld;
    var run := Run(turns, Session(false, w), reqs);
    RunAt(turns, Session(false, w), reqs, j);
    SignIff(turns, run[j].before, reqs[j]);
    if j > 0 {
      UnlockedSince(turns, w, reqs, j);
    } else {
      NotHeld(w);
    }
  }

  // ---------- an Unlock answered Ok ----------

  // Request `i` is an Unlock answered Ok, on the connection that request `j` finds.
  ghost predicate OkUnlock(run: seq<Entry>, i: nat, j: nat) {
    && i < j <= |run| && run[i].req.Unlock? && run[i].answer.Ok?
    && forall k :: i <= k < j ==> run[k].after.held
  }

  // What the documentation asks for: a Sign is answered Ok only after an Unlock
  // answered Ok on the same connection.
  ghost predicate UnlockedFirst(turns: Turns, w: World, reqs: seq<Req>, j: nat) {
    var run := Run(turns, Session(false, w), reqs);
    j < |reqs| && reqs[j].Sign? && run[j].answer.Ok? ==> exists i: nat :: OkUnlock(run, i, j)
  }

  ghost predicate AlwaysUnlockedFirst(turns: Turns) {
    forall w, reqs, j: nat :: UnlockedFirst(turns, w, reqs, j)
  }

  // At its call `t` the card accepts a PIN without a reset, and the answer is
  // lost behind a text that is not a lost-card text. No PIN is ever looked at
  // before call 2: the card is opened and a transaction begun first.
  predicate LosesAt(turns: Turns, t: nat) {
    var turn := turns(t);
    && t >= 2 && turn.pin.AcceptedUnheard? && !turn.reset
    && turn.fault.Some? && !IsCommText(turn.fault.value)
  }

  lemma HandleClock(turns: Turns, w: World, req: Req)
    ensures Handle(turns, w, req).0.clock >= w.clock
  {
    hide Wrapped, NoAuthKey, ShortPin, Utf8.Encode, Refuses, Effect, FailedEffect;
  }

  lemma StepClock(turns: Turns, s: Session, req: Req)
    requires s.held ==> s.world.clock >= 2
    ensures var e := Serve(turns, s, req);
            (e.begun.Some? ==> e.begun.value.clock >= 2) && (e.after.held ==> e.after.world.clock >= 2)
  {
    hide Handle, Refuses, Effect, FailedEffect;
    var e := Serve(turns, s, req);
    if e.begun.Some? {
      HandleClock(turns, e.begun.value, req);
    }
  }

  lemma {:induction false} RunClock(turns: Turns, w: World, reqs: seq<Req>, i: nat)
    requires i < |reqs|
    ensures var e := Run(turns, Session(false, w), reqs)[i];
            (e.begun.Some? ==> e.begun.value.clock >= 2) && (e.after.held ==> e.after.world.clock >= 2)
  {
    hide Serve, Run;
    RunAt(turns, Session(false, w), reqs, i);
    if i > 0 { RunClock(turns, w, reqs, i - 1); }
    StepClock(turns, Run(turns, Session(false, w), reqs)[i].before, reqs[i]);
  }

  lemma UnheardLoses(turns: Turns, s: Session, req: Req)
    requires var e := Serve(turns, s, req);
             UnlockTook(turns, e) && e.answer.Err? && e.begun.value.clock >= 2
    ensures LosesAt(turns, Serve(turns, s, req).begun.value.clock)
  {
    ServeFrom(turns, s, req);
    ServeBegins(turns, s, req);
    var w := Serve(turns, s, req).begun.value;
    UnlockAnswers(turns, w, req.pin, req.reply);
    hide Serve, Handle, Between, IsCommText, Wrapped;
  }

  // In every environment that loses no such answer, an Unlock answered Ok is needed.
  lemma SignNeedsOkUnlock(turns: Turns)
    requires forall t: nat :: !LosesAt(turns, t)
    ensures AlwaysUnlockedFirst(turns)
  {
    forall w, reqs, j: nat ensures UnlockedFirst(turns, w, reqs, j) {
      OkUnlockBefore(turns, w, reqs, j);
    }
  }

  lemma OkUnlockBefore(turns: Turns, w: World, reqs: seq<Req>, j: nat)
    requires forall t: nat :: !LosesAt(turns, t)
    ensures UnlockedFirst(turns, w, reqs, j)
  {
    hide Serve, Run, Grants, LosesAt, IsCommText, UnheardUnlock;
    var run := Run(turns, Session(false, w), reqs);
    if j < |reqs| && reqs[j].Sign? && run[j].answer.Ok? {
      SignIffUnlocked(turns, w, reqs, j);
      var i: nat :| Stays(turns, run, i, j);
      RunAt(turns, Session(false, w), reqs, i);
      RunClock(turns, w, reqs, i);
      if run[i].answer.Err? {
        UnheardLoses(turns, run[i].before, reqs[i]);
      }
      assert OkUnlock(run, i, j);
    }
  }

  // The environment leaves the card alone for `n` calls from `clock` on.
  ghost predicate Calm(turns: Turns, clock: nat, n: nat) {
    forall t: nat :: clock <= t < clock + n ==>
      turns(t).fault.None? && turns(t).others.None? && |turns(t).signature| == 64
  }

  lemma DoCalm(turns: Turns, w: World, op: Op)
    requires Calm(turns, w.clock, 1) && !Refuses(w.card, op)
    ensures var (w', e) := Do(turns, w, op);
            e.None? && w'.clock == w.clock + 1
            && (op == Begin || op.Authenticate? ==> w'.card == w.card)
            && (op.VerifyPw1? ==> w'.card.pw1)
            && (op == Open || op.VerifyPw1? ==> w'.card.slot == w.card.slot)
  {}

  lemma SignCalm(turns: Turns, s: Session, req: Req)
    requires Calm(turns, s.world.clock, 2) && UnlockedHeld(s) && s.world.card.slot.Some? && req.Sign?
    ensures var e := Serve(turns, s, req);
            && e.answer.Ok? && UnlockedHeld(e.after) && e.after.world.clock == s.world.clock + 2
            && e.after.world.card.slot == s.world.card.slot
  {
    var w := Do(turns, s.world, Begin).0;
    DoCalm(turns, s.world, Begin);
    DoCalm(turns, w, Authenticate(req.msg));
    assert |turns(w.clock).signature| == 64;
    hide Do;
  }

  lemma {:induction false} SignsServed(turns: Turns, s: Session, signs: seq<Req>)
    requires UnlockedHeld(s) && s.world.card.slot.Some? && (forall r :: r in signs ==> r.Sign?)
    requires Calm(turns, s.world.clock, 2 * |signs|)
    ensures forall e :: e in Run(turns, s, signs) ==> e.answer.Ok?
    decreases |signs|
  {
    if signs != [] {
      SignCalm(turns, s, signs[0]);
      hide Serve;
      SignsServed(turns, Serve(turns, s, signs[0]).after, signs[1..]);
    }
  }

  // With a key in the slot and nothing going wrong, one PIN serves any number of
  // signatures, whether the connection was already held or is opened for the
  // Unlock.
  lemma OneUnlockManySigns(turns: Turns, s: Session, unlock: Req, signs: seq<Req>)
    requires unlock.Unlock? && s.world.card.slot.Some? && (forall r :: r in signs ==> r.Sign?)
    requires Calm(turns, s.world.clock, 3 + 2 * |signs|)
    ensures forall e :: e in Run(turns, s, [unlock] + signs) ==> e.answer.Ok?
  {
    var e := Serve(turns, s, unlock);
    assert UnlockedHeld(e.after) && e.after.world.card.slot.Some? && e.answer.Ok?
           && e.after.world.clock <= s.world.clock + 3 by {
      var w1 := if s.held then s.world else Do(turns, s.world, Open).0;
      DoCalm(turns, s.world, Open);
      var w2 := Do(turns, w1, Begin).0;
      DoCalm(turns, w1, Begin);
      DoCalm(turns, w2, VerifyPw1(Utf8.Encode(unlock.pin)));
      hide Do;
    }
    assert e.after.world.clock >= s.world.clock;
    SignsServed(turns, e.after, signs);
    hide Serve;
    assert ([unlock] + signs)[1..] == signs;
  }

  // The two calls before a lost answer, and the two after it, are left alone.
  ghost predicate CalmAround(turns: Turns, t: nat) {
    t >= 2 && Calm(turns, t - 2, 2) && Calm(turns, t + 1, 2)
  }

  lemma LostUnlock(turns: Turns, t: nat, w: World, pin: string)
    requires LosesAt(turns, t) && CalmAround(turns, t) && w.clock == t - 2 && w.card.slot.Some?
    ensures var e := Serve(turns, Session(false, w), Unlock(pin, 0));
            && e.answer == Err(Wrapped(PIN_REJECTED, turns(t).fault.value)) && UnlockedHeld(e.after)
            && e.after.world.clock == t + 1 && e.after.world.card.slot.Some?
  {
    DoCalm(turns, w, Open);
    var w1 := Do(turns, w, Open).0;
    DoCalm(turns, w1, Begin);
    var w2 := Do(turns, w1, Begin).0;
    DoLost(turns, w2, Utf8.Encode(pin));
    Wrappers(turns(t).fault.value);
    hide Do, Wrapped, IsCommText, LosesAt, Calm;
  }

  lemma DoLost(turns: Turns, w: World, pin: seq<byte>)
    requires LosesAt(turns, w.clock)
    ensures var (w', e) := Do(turns, w, VerifyPw1(pin));
            e == turns(w.clock).fault && w'.card == w.card.(pw1 := true) && w'.clock == w.clock + 1
    ensures turns(w.clock).fault.Some? && !IsCommText(turns(w.clock).fault.value)
  {
    hide IsCommText;
  }

  // One such answer is enough: the operator is told that the PIN was rejected,
  // the connection is kept, and the next Sign is answered Ok.
  lemma LostAnswerUnlocks(turns: Turns, t: nat, w: World, pin: string, msg: seq<byte>)
    requires LosesAt(turns, t) && CalmAround(turns, t) && w.clock == t - 2 && w.card.slot.Some?
    ensures var reqs := [Unlock(pin, 0), Card.Sign(msg, 1)];
            var run := Run(turns, Session(false, w), reqs);
            && run[0].answer == Err(Wrapped(PIN_REJECTED, turns(t).fault.value)) && run[0].after.held
            && run[1].answer.Ok?
            && !UnlockedFirst(turns, w, reqs, 1)
  {
    var s := Session(false, w);
    var reqs := [Unlock(pin, 0), Card.Sign(msg, 1)];
    RunAt(turns, s, reqs, 0);
    RunAt(turns, s, reqs, 1);
    LostUnlock(turns, t, w, pin);
    SignCalm(turns, Serve(turns, s, reqs[0]).after, reqs[1]);
    hide Serve, Run, Wrapped, LosesAt, Calm;
  }

  // So the rule holds exactly where no answer is lost in that way, in every
  // environment that leaves the four calls around each such answer alone.
  lemma OkUnlockNeededIff(turns: Turns)
    requires forall t: nat :: LosesAt(turns, t) ==> CalmAround(turns, t)
    ensures AlwaysUnlockedFirst(turns) <==> forall t: nat :: !LosesAt(turns, t)
  {
    hide LosesAt, CalmAround, UnlockedFirst;
    if t: nat :| LosesAt(turns, t) {
      var w := StartAt(turns, t);
      LostAnswerUnlocks(turns, t, w, "", []);
    } else {
      SignNeedsOkUnlock(turns);
    }
  }

  lemma StartAt(turns: Turns, t: nat) returns (w: World)
    requires LosesAt(turns, t)
    ensures w.clock == t - 2 && w.card.slot.Some?
  {
    w := World(t - 2, CardState(false, false, 0, false, Some(Rsa)), []);
  }

  // There is such an environment: a reader that times out on the third call.
  function LosesUnlockAnswer(): Turns {
    (t: nat) => Turn(if t == 2 then Some("timeout") else None, AcceptedUnheard, false, false, "", Rsa,
                     seq(64, _ => 0), None)
  }

  lemma TimeoutLoses()
    ensures forall t: nat :: LosesAt(LosesUnlockAnswer(), t) <==> t == 2
    ensures CalmAround(LosesUnlockAnswer(), 2)
  {
    assert Quiet("timeout");
    QuietIsNotComm("timeout");
    hide IsCommText;
  }

  // ---------- the key on the card ----------

  lemma DoSlot(turns: Turns, w: World, op: Op)
    requires op != Begin
    ensures var (w', e) := Do(turns, w, op);
            && w'.calls == w.calls + [Call(op, e)]
            && (op != SetAlgorithm && op != GenerateKey ==>
                  w'.card.slot == w.card.slot && w'.card.ed25519 == w.card.ed25519)
            && (op == SetAlgorithm ==> w'.card.slot == w.card.slot || w'.card.slot == None)
  {}

  // What the calls of a provisioning request must have been for the slot to
  // have changed, and for a new key to be in it.
  predicate ProvisionCalls(calls: seq<Call>, newKey: bool) {
    && |calls| >= 2
    && calls[0].op.VerifyPw3? && calls[0].error.None?
    && calls[1].op == SetAlgorithm
    && (newKey ==> |calls| == 3 && calls[1].error.None? && calls[2].op == GenerateKey)
  }

  lemma ProvisionSlot(turns: Turns, w: World, pin: string)
    ensures var (w', answer) := ProvisionAuth(turns, w, pin);
            var calls := Between(w, w');
            w'.card.slot != w.card.slot || w'.card.ed25519 != w.card.ed25519 ==>
              && |Utf8.Encode(pin)| >= 8
              && ProvisionCalls(calls, w'.card.slot.Some? && w'.card.slot != w.card.slot)
  {
    var (w1, e1) := Do(turns, w, VerifyPw3(Utf8.Encode(pin)));
    DoSlot(turns, w, VerifyPw3(Utf8.Encode(pin)));
    var (w2, e2) := Do(turns, w1, SetAlgorithm);
    DoSlot(turns, w1, SetAlgorithm);
    var (w3, e3) := Do(turns, w2, GenerateKey);
    DoSlot(turns, w2, GenerateKey);
    hide Do, Utf8.Encode, Wrapped, ShortPin;
    assert Between(w, w1) == [Call(VerifyPw3(Utf8.Encode(pin)), e1)];
    assert Between(w, w2) == [Call(VerifyPw3(Utf8.Encode(pin)), e1), Call(SetAlgorithm, e2)];
    assert Between(w, w3) == [Call(VerifyPw3(Utf8.Encode(pin)), e1), Call(SetAlgorithm, e2), Call(GenerateKey, e3)];
  }

  lemma HandleSlot(turns: Turns, w: World, req: Req)
    ensures var (w', _) := Handle(turns, w, req);
            w'.card.slot != w.card.slot || w'.card.ed25519 != w.card.ed25519 ==>
              && req.Provision? && |Utf8.Encode(req.pin)| >= 8
              && ProvisionCalls(Between(w, w'), w'.card.slot.Some? && w'.card.slot != w.card.slot)
  {
    match req {
      case Pubkey(_) => DoSlot(turns, w, ReadKey);
      case Unlock(pin, _) => DoSlot(turns, w, VerifyPw1(Utf8.Encode(pin)));
      case Sign(msg, _) => DoSlot(turns, w, Authenticate(msg));
      case Provision(pin, _) => ProvisionSlot(turns, w, pin);
    }
    hide Do, ProvisionAuth, Between, ProvisionCalls, Utf8.Encode;
  }

  // Over every run, the slot and its algorithm change within a transaction of
  // ours only in a Provision request with a PIN of eight bytes or more, after
  // the card accepted that PIN in the same request and was told the algorithm;
  // and a new key appears only once it had confirmed the algorithm.
  lemma SlotChangesOnlyByProvision(turns: Turns, s: Session, reqs: seq<Req>, i: nat)
    requires i < |reqs| && Run(turns, s, reqs)[i].begun.Some?
    ensures var e := Run(turns, s, reqs)[i];
            var w, w' := e.begun.value, e.after.world;
            w'.card.slot != w.card.slot || w'.card.ed25519 != w.card.ed25519 ==>
              && reqs[i].Provision? && |Utf8.Encode(reqs[i].pin)| >= 8
              && ProvisionCalls(Between(w, w'), w'.card.slot.Some? && w'.card.slot != w.card.slot)
  {
    RunAt(turns, s, reqs, i);
    var e := Run(turns, s, reqs)[i];
    ServeBegins(turns, e.before, reqs[i]);
    HandleSlot(turns, e.begun.value, reqs[i]);
    hide Run, Serve, Handle, Between, ProvisionCalls, Utf8.Encode;
  }

  // A PIN of fewer than eight bytes never reaches the card: no call is made,
  // so slot, algorithm and retry counter stay, and the connection is kept.
  lemma ShortPinSparesCard(turns: Turns, s: Session, pin: string, reply: nat)
    requires |Utf8.Encode(pin)| < 8 && Serve(turns, s, Provision(pin, reply)).begun.Some?
    ensures var e := Serve(turns, s, Provision(pin, reply));
            && e.after == Session(true, e.begun.value)
            && e.answer == Err(ShortPin(|Utf8.Encode(pin)|))
  {
    LocalTexts();
    hide IsCommText, ShortPin, Do, Utf8.Encode;
  }

  // ---------- the key that is reported ----------

  // A key is reported exactly when the slot holds that 32-byte Ed25519 point
  // and the card let it be read.
  lemma PubkeyReportsSlot(turns: Turns, s: Session, reply: nat, k: Array32)
    requires Serve(turns, s, Pubkey(reply)).begun.Some?
    ensures var e := Serve(turns, s, Pubkey(reply));
            var w := e.begun.value;
            e.answer == Ok(Point(k)) <==> w.card.slot == Some(Ecc(k)) && turns(w.clock).fault.None?
  {}

  // A provisioning answered Ok leaves the slot on Ed25519 with the very key it
  // reports, on a connection that is kept.
  lemma ProvisionReportsNewKey(turns: Turns, s: Session, pin: string, reply: nat)
    requires Serve(turns, s, Provision(pin, reply)).answer.Ok?
    ensures var e := Serve(turns, s, Provision(pin, reply));
            && e.answer.value.Point? && e.after.held
            && e.after.world.card.ed25519
            && e.after.world.card.slot == Some(Ecc(e.answer.value.point))
  {
    hide Utf8.Encode, IsCommText, Wrapped, ShortPin;
  }

  // Asked next, and left alone by others, the card reports the key just made.
  lemma PubkeyAfterProvision(turns: Turns, s: Session, pin: string, reply1: nat, reply2: nat)
    requires Serve(turns, s, Provision(pin, reply1)).answer.Ok?
    requires Calm(turns, Serve(turns, s, Provision(pin, reply1)).after.world.clock, 2)
    ensures var run := Run(turns, s, [Provision(pin, reply1), Pubkey(reply2)]);
            run[1].answer == run[0].answer
  {
    var e := Serve(turns, s, Provision(pin, reply1));
    ProvisionReportsNewKey(turns, s, pin, reply1);
    DoCalm(turns, e.after.world, Begin);
    var w := Do(turns, e.after.world, Begin).0;
    DoCalm(turns, w, ReadKey);
    var reqs := [Provision(pin, reply1), Pubkey(reply2)];
    RunAt(turns, s, reqs, 0);
    RunAt(turns, s, reqs, 1);
    hide Do, Run, ProvisionAuth;
  }
}
