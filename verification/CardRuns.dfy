// What holds over every run of the card thread, for every request sequence and
// whatever the card, its reader and its other users do.
module CardRuns {
  import opened Bytes
  import opened CardText
  import opened Card
  import Utf8

  // ---------- the shape of a run ----------

  lemma ServeFrom(turns: Turns, s: Session, req: Req)
    ensures var e := Serve(turns, s, req); e.before == s && e.req == req
  {}

  lemma {:induction false} RunAt(turns: Turns, s: Session, reqs: seq<Req>, i: nat)
    requires i < |reqs|
    ensures var run := Run(turns, s, reqs);
            && run[i] == Serve(turns, run[i].before, reqs[i])
            && run[i].before == (if i == 0 then s else run[i - 1].after)
            && run[i].req == reqs[i]
    decreases i
  {
    hide Serve;
    ServeFrom(turns, s, reqs[0]);
    var e := Serve(turns, s, reqs[0]);
    if i > 0 {
      RunAt(turns, e.after, reqs[1..], i - 1);
    }
  }

  // An answer of the kind the request asks for, or an error text.
  predicate Suits(req: Req, answer: Answer) {
    match answer
    case Err(_) => true
    case Ok(Point(_)) => req.Pubkey? || req.Provision?
    case Ok(Unlocked) => req.Unlock?
    case Ok(Signature(_)) => req.Sign?
  }

  lemma HandleSuits(turns: Turns, w: World, req: Req)
    ensures Suits(req, Handle(turns, w, req).1)
  {
    hide Do;
  }

  lemma ServeSuits(turns: Turns, s: Session, req: Req)
    ensures Suits(req, Serve(turns, s, req).answer)
  {
    hide Do, Handle;
    var e := Serve(turns, s, req);
    if e.begun.Some? {
      HandleSuits(turns, e.begun.value, req);
    }
  }

  // One reply to each request, to its own channel, in the order of arrival.
  lemma {:induction false} OneReplyEach(turns: Turns, s: Session, reqs: seq<Req>)
    ensures var run := Run(turns, s, reqs);
            var replies := RepliesOf(run);
            && |replies| == |reqs|
            && forall i :: 0 <= i < |reqs| ==>
                 && replies[i] == Reply(reqs[i].reply, run[i].answer)
                 && Suits(reqs[i], run[i].answer)
    decreases |reqs|
  {
    hide Serve, Suits;
    if reqs != [] {
      var e := Serve(turns, s, reqs[0]);
      ServeFrom(turns, s, reqs[0]);
      ServeSuits(turns, s, reqs[0]);
      OneReplyEach(turns, e.after, reqs[1..]);
      var run := Run(turns, s, reqs);
      assert run[1..] == Run(turns, e.after, reqs[1..]);
    }
  }

  // ---------- opening and dropping the connection ----------

  function Opens(run: seq<Entry>): nat {
    if run == [] then 0 else (if run[0].reopened then 1 else 0) + Opens(run[1..])
  }

  // Requests after which a connection there was is given up: the "false"
  // returns of the handler.
  function Drops(run: seq<Entry>): nat {
    if run == [] then 0
    else (if (run[0].before.held || run[0].reopened) && !run[0].after.held then 1 else 0) + Drops(run[1..])
  }

  // Every connection opened is either given up or still held: so there are at
  // most as many opens as drops, and one more.
  lemma {:induction false} OpensBalance(turns: Turns, s: Session, reqs: seq<Req>)
    ensures var run := Run(turns, s, reqs);
            Opens(run) + (if s.held then 1 else 0) == Drops(run) + (if Final(s, run).held then 1 else 0)
    decreases |reqs|
  {
    if reqs != [] {
      var e := Serve(turns, s, reqs[0]);
      var run := Run(turns, s, reqs);
      OpensBalance(turns, e.after, reqs[1..]);
      assert run[1..] == Run(turns, e.after, reqs[1..]);
    }
  }

  // The calls made to the card from one world to a later one.
  function Between(w: World, w': World): seq<Call> {
    if |w.calls| <= |w'.calls| then w'.calls[|w.calls|..] else []
  }

  function CallsOf(e: Entry): seq<Call> {
    Between(e.before.world, e.after.world)
  }

  // A handled request makes exactly the calls of its kind, up to the first
  // that fails, and none of them opens the card or begins a transaction.
  lemma HandleCalls(turns: Turns, w: World, req: Req)
    ensures var (w', answer) := Handle(turns, w, req);
            var calls := Between(w, w');
            && w'.calls == w.calls + calls && |calls| <= 3
            && (forall c :: c in calls ==> c.op != Open && c.op != Begin)
            && (forall i :: 0 <= i < |calls| - 1 ==> calls[i].error.None?)
            && (answer.Ok? ==> forall c :: c in calls ==> c.error.None?)
  {
    hide Wrapped, NoAuthKey, ShortPin, Utf8.Encode;
  }

  // A request that runs does so in a transaction begun without error, on the
  // held connection or on one just opened without error.
  lemma ServeBegins(turns: Turns, s: Session, req: Req)
    requires Serve(turns, s, req).begun.Some?
    ensures var e := Serve(turns, s, req);
            var w := e.begun.value;
            && w.calls == s.world.calls + Between(s.world, w)
            && Between(s.world, w) == (if s.held then [] else [Call(Open, None)]) + [Call(Begin, None)]
            && e.reopened == !s.held
            && (e.after.world, e.answer) == Handle(turns, w, req)
            && e.after.held == !IsCommFailure(e.answer)
  {
    hide Handle;
  }

  // A request that cannot run leaves no connection behind.
  lemma ServeFails(turns: Turns, s: Session, req: Req)
    requires Serve(turns, s, req).begun.None?
    ensures var e := Serve(turns, s, req);
            var calls := CallsOf(e);
            && !e.after.held && e.answer.Err?
            && e.after.world.calls == s.world.calls + calls
            && |calls| == (if s.held || !e.reopened then 1 else 2)
            && calls[0].op == (if s.held then Begin else Open)
            && calls[|calls| - 1].error.Some? && e.answer == Err(calls[|calls| - 1].error.value)
            && (|calls| == 2 ==> calls[0].error.None? && calls[1].op == Begin)
            && (e.reopened ==> !s.held)
  {
    hide Handle;
  }

  // What a request that runs does to the card: a connection is opened if none
  // is held, the transaction begins, and neither happens again.
  lemma BegunCalls(turns: Turns, s: Session, req: Req)
    requires Serve(turns, s, req).begun.Some?
    ensures var e := Serve(turns, s, req);
            var prelude := (if s.held then [] else [Call(Open, None)]) + [Call(Begin, None)];
            var rest := Between(e.begun.value, e.after.world);
            && e.after.world.calls == s.world.calls + CallsOf(e)
            && CallsOf(e) == prelude + rest
            && (forall c :: c in rest ==> c.op != Open && c.op != Begin)
  {
    hide Serve, Handle, Between;
    ServeFrom(turns, s, req);
    var e := Serve(turns, s, req);
    ServeBegins(turns, s, req);
    HandleCalls(turns, e.begun.value, req);
    BetweenJoins(s.world, e.begun.value, e.after.world);
  }

  // The card is opened exactly when a request is in hand and no connection is
  // held; whatever runs does so in a transaction begun on an open connection.
  lemma OpensOnlyWhenNeeded(turns: Turns, s: Session, req: Req)
    ensures var e := Serve(turns, s, req);
            var calls := CallsOf(e);
            && calls != [] && e.after.world.calls == s.world.calls + calls
            && (s.held <==> calls[0].op != Open)
            && (forall i :: 1 <= i < |calls| ==> calls[i].op != Open)
            && (e.reopened <==> !s.held && calls[0].error.None?)
            && (e.begun.Some? ==> (s.held || e.reopened) && Call(Begin, None) in calls)
  {
    hide Serve, Handle, Between, CallsOf;
    var e := Serve(turns, s, req);
    if e.begun.Some? {
      ServeBegins(turns, s, req);
      BegunCalls(turns, s, req);
    } else {
      ServeFails(turns, s, req);
    }
  }

  // Over every run: a request runs on the connection its predecessor kept or on
  // one opened for it, never on one whose last handling gave it up; and a card
  // that could not be used is not held on to.
  lemma NothingRunsOnDropped(turns: Turns, s: Session, reqs: seq<Req>, i: nat)
    requires 0 < i < |reqs|
    ensures var run := Run(turns, s, reqs);
            && (run[i - 1].after.held ==> !run[i].reopened)
            && (!run[i - 1].after.held && run[i].begun.Some? ==> run[i].reopened)
            && (run[i].begun.None? ==> run[i].answer.Err? && !run[i].after.held)
  {
    RunAt(turns, s, reqs, i);
    hide Serve, Run;
    var e := Run(turns, s, reqs)[i];
    if e.begun.Some? {
      ServeBegins(turns, e.before, reqs[i]);
    } else {
      ServeFails(turns, e.before, reqs[i]);
    }
  }

  lemma BetweenJoins(w1: World, w2: World, w3: World)
    requires w2.calls == w1.calls + Between(w1, w2) && w3.calls == w2.calls + Between(w2, w3)
    ensures w3.calls == w1.calls + Between(w1, w3)
    ensures Between(w1, w3) == Between(w1, w2) + Between(w2, w3)
  {}

  // ---------- the session decision ----------

  // Whether some call of the list failed with a text that says the card is gone.
  predicate LostIn(calls: seq<Call>) {
    exists i :: 0 <= i < |calls| && calls[i].error.Some? && IsCommText(calls[i].error.value)
  }

  // The error of the last call, the only one that can have failed.
  function LastError(calls: seq<Call>): Option<string> {
    if calls == [] then None else calls[|calls| - 1].error
  }

  predicate SaysLost(error: Option<string>) {
    error.Some? && IsCommText(error.value)
  }

  lemma LostInLast(calls: seq<Call>)
    requires forall i :: 0 <= i < |calls| - 1 ==> calls[i].error.None?
    ensures LostIn(calls) <==> SaysLost(LastError(calls))
  {
    if SaysLost(LastError(calls)) {
      assert calls[|calls| - 1].error.Some?;
    }
  }

  lemma LocalTexts()
    ensures !IsCommText(NOT_A_POINT) && !IsCommText(IS_RSA) && !IsCommText(BAD_SIGNATURE_LENGTH)
    ensures !IsCommText(GENERATED_NOT_A_POINT) && !IsCommText(GENERATED_NOT_ECC)
    ensures forall n: nat :: n < 8 ==> !IsCommText(ShortPin(n))
  {
    LocalTextsKeepCard(0, 0);
    LocalTextsKeepCard(1, 0);
    LocalTextsKeepCard(2, 0);
    LocalTextsKeepCard(3, 0);
    LocalTextsKeepCard(4, 0);
    forall n: nat | n < 8 ensures !IsCommText(ShortPin(n)) {
      LocalTextsKeepCard(0, n);
    }
    LocalTextsIndexed();
    hide IsCommText, ShortPin, LOCAL_TEXTS;
    hide NOT_A_POINT, IS_RSA, BAD_SIGNATURE_LENGTH, GENERATED_NOT_A_POINT, GENERATED_NOT_ECC;
  }

  lemma LocalTextsIndexed()
    ensures LOCAL_TEXTS[0] == NOT_A_POINT && LOCAL_TEXTS[1] == IS_RSA && LOCAL_TEXTS[2] == BAD_SIGNATURE_LENGTH
    ensures LOCAL_TEXTS[3] == GENERATED_NOT_A_POINT && LOCAL_TEXTS[4] == GENERATED_NOT_ECC
  {}

  lemma Wrappers(e: string)
    ensures IsCommText(Wrapped(PIN_REJECTED, e)) <==> IsCommText(e)
    ensures IsCommText(Wrapped(SIGN_FAILED, e)) <==> IsCommText(e)
    ensures IsCommText(Wrapped(ADMIN_PIN_REJECTED, e)) <==> IsCommText(e)
    ensures IsCommText(Wrapped(SET_ALGORITHM_FAILED, e)) <==> IsCommText(e)
    ensures IsCommText(Wrapped(GENERATION_FAILED, e)) <==> IsCommText(e)
    ensures IsCommText(NoAuthKey(e)) <==> IsCommText(e)
  {
    WrappingKeepsDecision(e, 0);
    WrappingKeepsDecision(e, 1);
    WrappingKeepsDecision(e, 2);
    WrappingKeepsDecision(e, 3);
    WrappingKeepsDecision(e, 4);
    hide IsCommText, Wrapped, NoAuthKey;
    hide PIN_REJECTED, SIGN_FAILED, ADMIN_PIN_REJECTED, SET_ALGORITHM_FAILED, GENERATION_FAILED;
  }

  lemma DoRecords(turns: Turns, w: World, op: Op)
    ensures var (w', e) := Do(turns, w, op); w'.calls == w.calls + [Call(op, e)]
  {}

  lemma ReadPubkeyDecides(turns: Turns, w: World)
    ensures var (w', answer) := ReadPubkey(turns, w);
            IsCommFailure(answer) <==> SaysLost(LastError(Between(w, w')))
  {
    LocalTexts();
    var (w', e) := Do(turns, w, ReadKey);
    DoRecords(turns, w, ReadKey);
    if e.Some? { Wrappers(e.value); }
    hide Do, IsCommText, Wrapped, NoAuthKey, ShortPin, IS_RSA, NOT_A_POINT;
  }

  lemma UnlockDecides(turns: Turns, w: World, pin: string)
    ensures var (w', answer) := UnlockUser(turns, w, pin);
            IsCommFailure(answer) <==> SaysLost(LastError(Between(w, w')))
  {
    var (w', e) := Do(turns, w, VerifyPw1(Utf8.Encode(pin)));
    DoRecords(turns, w, VerifyPw1(Utf8.Encode(pin)));
    if e.Some? { Wrappers(e.value); }
    hide Do, IsCommText, Wrapped, PIN_REJECTED;
  }

  lemma SignDecides(turns: Turns, w: World, msg: seq<byte>)
    ensures var (w', answer) := SignMessage(turns, w, msg);
            IsCommFailure(answer) <==> SaysLost(LastError(Between(w, w')))
  {
    LocalTexts();
    var (w', e) := Do(turns, w, Authenticate(msg));
    DoRecords(turns, w, Authenticate(msg));
    if e.Some? { Wrappers(e.value); }
    hide Do, IsCommText, Wrapped, ShortPin, SIGN_FAILED, BAD_SIGNATURE_LENGTH;
  }

  lemma ProvisionDecides(turns: Turns, w: World, pin: string)
    ensures var (w', answer) := ProvisionAuth(turns, w, pin);
            IsCommFailure(answer) <==> SaysLost(LastError(Between(w, w')))
  {
    LocalTexts();
    hide Do, IsCommText, Wrapped, ShortPin, Utf8.Encode;
    hide ADMIN_PIN_REJECTED, SET_ALGORITHM_FAILED, GENERATION_FAILED, GENERATED_NOT_A_POINT, GENERATED_NOT_ECC;
    var (w1, e1) := Do(turns, w, VerifyPw3(Utf8.Encode(pin)));
    DoRecords(turns, w, VerifyPw3(Utf8.Encode(pin)));
    if e1.Some? {
      Wrappers(e1.value);
    } else {
      var (w2, e2) := Do(turns, w1, SetAlgorithm);
      DoRecords(turns, w1, SetAlgorithm);
      if e2.Some? {
        Wrappers(e2.value);
      } else {
        var (w3, e3) := Do(turns, w2, GenerateKey);
        DoRecords(turns, w2, GenerateKey);
        if e3.Some? { Wrappers(e3.value); }
      }
    }
  }

  // A request that ran gives the connection up exactly when the card itself
  // answered one of its calls with a text that says it is gone: neither the
  // wrapping nor any message made up on the way changes that.
  lemma KeptUnlessCardLost(turns: Turns, s: Session, req: Req)
    requires Serve(turns, s, req).begun.Some?
    ensures var e := Serve(turns, s, req); e.after.held <==> !LostIn(CallsOf(e))
  {
    hide Serve, Handle, Between, IsCommText, LostIn, LastError;
    var e := Serve(turns, s, req);
    ServeFrom(turns, s, req);
    var w := e.begun.value;
    ServeBegins(turns, s, req);
    HandleCalls(turns, w, req);
    HandleDecides(turns, w, req);
    BetweenJoins(s.world, w, e.after.world);
    LostInLast(Between(w, e.after.world));
    LostAfterPrelude(Between(s.world, w), Between(w, e.after.world));
  }

  lemma LostAfterPrelude(before: seq<Call>, calls: seq<Call>)
    requires forall c :: c in before ==> c.error.None?
    ensures LostIn(before + calls) <==> LostIn(calls)
  {
    var all := before + calls;
    forall i | 0 <= i < |before| ensures all[i].error.None? {
      assert all[i] in before;
    }
    if LostIn(all) {
      var i :| 0 <= i < |all| && all[i].error.Some? && IsCommText(all[i].error.value);
      assert calls[i - |before|] == all[i];
    }
    if LostIn(calls) {
      var i :| 0 <= i < |calls| && calls[i].error.Some? && IsCommText(calls[i].error.value);
      assert all[|before| + i] == calls[i];
    }
  }

  lemma HandleDecides(turns: Turns, w: World, req: Req)
    ensures var (w', answer) := Handle(turns, w, req);
            IsCommFailure(answer) <==> SaysLost(LastError(Between(w, w')))
  {
    hide ReadPubkey, UnlockUser, SignMessage, ProvisionAuth, Between;
    match req {
      case Pubkey(_) => ReadPubkeyDecides(turns, w);
      case Unlock(pin, _) => UnlockDecides(turns, w, pin);
      case Sign(msg, _) => SignDecides(turns, w, msg);
      case Provision(pin, _) => ProvisionDecides(turns, w, pin);
    }
  }
}
