// What the protocol guarantees over every run: a batch takes effect only as it
// was shown to the operator who signed it, and no more often than it was signed.
module Authority {
  import opened Bytes
  import opened TxFormat
  import opened Canonical
  import opened Signing
  import opened Flow
  import opened Protocol

  // The same nonce, and so the same transaction, is never applied twice,
  // whatever the network repeats.
  lemma AppliedAtMostOnce(cfg: Config, states: seq<State>, actions: seq<Action>, n: nat, k: nat, l: nat)
    requires IsRun(cfg, states, actions) && n < |states|
    requires k < l < |states[n].history| && states[n].history[k].Applied? && states[n].history[l].Applied?
    ensures var first, second := states[n].history[k].signed.transaction, states[n].history[l].signed.transaction;
            first.nonce != second.nonce && first != second
  {
    RunKeeps(cfg, states, actions, n);
  }

  // A SHA-256 collision between a signed and an applied transaction.
  ghost predicate CollisionIn(cfg: Config, h: seq<Event>) {
    exists j, k :: 0 <= j < |h| && 0 <= k < |h| && h[j].SignedWith? && h[k].Applied?
                   && cfg.p.Collision(TransactionBytes(h[j].transaction), TransactionBytes(h[k].signed.transaction))
  }

  // Client `c` was shown `t`, then nothing else, tapped its card if the key is
  // on one, and signed `t` with `key`, its own, all before `k`.
  ghost predicate ShownThenSigned(cfg: Config, h: seq<Event>, key: Array32, t: Transaction, k: nat) {
    exists c: nat, i: nat, j: nat ::
      && i < j < k <= |h| && OwnKey(cfg, c, key)
      && h[j] == SignedWith(c, key, t)
      && LastShown(h, c, t, i, j)
      && (cfg.backends[c].inner.Yubi? ==> TappedSince(h, c, i, j))
  }

  lemma AuthorizedWasShown(cfg: Config, h: seq<Event>, k: nat)
    requires GoodHistory(cfg, h) && k < |h| && h[k].Applied?
    ensures var signed := h[k].signed;
            || ShownThenSigned(cfg, h, signed.admin, signed.transaction, k)
            || CollisionIn(cfg, h)
    ensures !CollisionIn(cfg, h) ==>
              exists j :: 0 <= j < k && h[j].SignedWith? && h[j].key in cfg.admins
                          && h[j].transaction == h[k].signed.transaction
  {
    var signed := h[k].signed;
    assert Authorized(cfg, h, k);
    var j: nat :| 0 <= j < k && SignedBy(cfg, h[j], signed);
    assert Approved(cfg, h, j);
    InBoundsIsShort(signed.transaction);
    SignatureBindsTransaction(cfg.p, signed.transaction, h[j].transaction);
    var i: nat :| && LastShown(h, h[j].client, h[j].transaction, i, j)
                  && (cfg.backends[h[j].client].inner.Yubi? ==> TappedSince(h, h[j].client, i, j));
    if h[j].transaction == signed.transaction {
      assert h[j] == SignedWith(h[j].client, signed.admin, signed.transaction);
      assert ShownThenSigned(cfg, h, signed.admin, signed.transaction, k);
    } else {
      assert CollisionIn(cfg, h);
    }
  }

  // Everything the server ever applies was within the caps, addressed to it,
  // signed with a listed admin's own key, and last shown, in just this form, to the operator
  // of the client that signed it: or a SHA-256 collision is in plain sight.
  lemma AppliedWasShown(cfg: Config, states: seq<State>, actions: seq<Action>, n: nat, k: nat)
    requires IsRun(cfg, states, actions) && n < |states|
    requires k < |states[n].history| && states[n].history[k].Applied?
    ensures var h := states[n].history;
            var signed := h[k].signed;
            && signed.transaction.server == cfg.server && signed.admin in cfg.admins
            && InBounds(DECODE_LIMITS, signed.transaction)
            && (ShownThenSigned(cfg, h, signed.admin, signed.transaction, k) || CollisionIn(cfg, h))
  {
    RunKeeps(cfg, states, actions, n);
    var h := states[n].history;
    assert Authorized(cfg, h, k);
    AuthorizedWasShown(cfg, h, k);
  }

  // ---------- counting ----------

  function AppliedTransactions(h: seq<Event>): seq<Transaction> {
    if h == [] then []
    else (if h[0].Applied? then [h[0].signed.transaction] else []) + AppliedTransactions(h[1..])
  }

  // The transactions signed with keys the server lists.
  function AdminSigned(cfg: Config, h: seq<Event>): seq<Transaction> {
    if h == [] then []
    else (if h[0].SignedWith? && h[0].key in cfg.admins then [h[0].transaction] else []) + AdminSigned(cfg, h[1..])
  }

  // How many of the transactions carry the batch `ops`.
  function CountBatch(ops: seq<Operation>, ts: seq<Transaction>): nat {
    if ts == [] then 0 else (if ts[0].ops == ops then 1 else 0) + CountBatch(ops, ts[1..])
  }

  ghost predicate Distinct(ts: seq<Transaction>) {
    forall i, j :: 0 <= i < j < |ts| ==> ts[i] != ts[j]
  }

  lemma {:induction false} CountRemoved(ops: seq<Operation>, ts: seq<Transaction>, m: nat)
    requires m < |ts|
    ensures CountBatch(ops, ts) == (if ts[m].ops == ops then 1 else 0) + CountBatch(ops, ts[..m] + ts[m + 1..])
  {
    var rest := ts[..m] + ts[m + 1..];
    if m == 0 {
      assert rest == ts[1..];
    } else {
      CountRemoved(ops, ts[1..], m - 1);
      assert rest[1..] == ts[1..][..m - 1] + ts[1..][m..];
    }
  }

  // Distinct transactions that are all on a list occur on it often enough.
  lemma {:induction false} CountWithin(ops: seq<Operation>, ts: seq<Transaction>, list: seq<Transaction>)
    requires Distinct(ts) && forall t :: t in ts ==> t in list
    ensures CountBatch(ops, ts) <= CountBatch(ops, list)
  {
    if ts != [] {
      assert ts[0] in list;
      var m: nat :| m < |list| && list[m] == ts[0];
      var rest := list[..m] + list[m + 1..];
      CountRemoved(ops, list, m);
      forall t | t in ts[1..] ensures t in rest {
        assert t in ts && t in list;
        var l: nat :| l < |list| && list[l] == t;
        assert t != ts[0];
        assert rest[if l < m then l else l - 1] == t;
      }
      CountWithin(ops, ts[1..], rest);
    }
  }

  lemma {:induction false} AppliedAre(h: seq<Event>, t: Transaction)
    ensures t in AppliedTransactions(h) <==> exists k :: 0 <= k < |h| && h[k].Applied? && h[k].signed.transaction == t
  {
    if h != [] {
      AppliedAre(h[1..], t);
      assert forall k :: 1 <= k < |h| ==> h[k] == h[1..][k - 1];
    }
  }

  lemma {:induction false} AdminSignedHas(cfg: Config, h: seq<Event>, j: nat)
    requires j < |h| && h[j].SignedWith? && h[j].key in cfg.admins
    ensures h[j].transaction in AdminSigned(cfg, h)
  {
    if j > 0 {
      AdminSignedHas(cfg, h[1..], j - 1);
    }
  }

  lemma {:induction false} AppliedDistinct(h: seq<Event>, spent: set<Array32>)
    requires NoncesOnce(h, spent)
    ensures Distinct(AppliedTransactions(h))
  {
    if h != [] {
      assert forall k :: 1 <= k < |h| ==> h[k] == h[1..][k - 1];
      AppliedDistinct(h[1..], spent);
      if h[0].Applied? {
        var t := h[0].signed.transaction;
        AppliedAre(h[1..], t);
        assert t !in AppliedTransactions(h[1..]);
      }
    }
  }

  // A batch is applied at most as often as it was signed with a listed key,
  // whatever the network repeats and however often clients retry: or a SHA-256
  // collision is in plain sight.
  lemma BatchAppliedAtMostAsSigned(
      cfg: Config, states: seq<State>, actions: seq<Action>, n: nat, ops: seq<Operation>)
    requires IsRun(cfg, states, actions) && n < |states|
    ensures var h := states[n].history;
            || CountBatch(ops, AppliedTransactions(h)) <= CountBatch(ops, AdminSigned(cfg, h))
            || CollisionIn(cfg, h)
  {
    RunKeeps(cfg, states, actions, n);
    var h := states[n].history;
    if !CollisionIn(cfg, h) {
      AppliedDistinct(h, states[n].spent);
      forall t | t in AppliedTransactions(h) ensures t in AdminSigned(cfg, h) {
        AppliedAre(h, t);
        var k: nat :| k < |h| && h[k].Applied? && h[k].signed.transaction == t;
        AuthorizedWasShown(cfg, h, k);
        var j: nat :| j < k && h[j].SignedWith? && h[j].key in cfg.admins && h[j].transaction == t;
        AdminSignedHas(cfg, h, j);
      }
      CountWithin(ops, AppliedTransactions(h), AdminSigned(cfg, h));
    }
  }

  // ---------- honest delivery ----------

  // What an honest client with a listed software key posts is taken the first
  // time it arrives, as exactly the reviewed transaction, and never again.
  lemma HonestPostAppliesOnce(cfg: Config, s: State, seed: Array32, t: Transaction)
    requires cfg.p.Correct() && cfg.p.public(seed) in cfg.admins
    requires t.server == cfg.server && InBounds(DECODE_LIMITS, t)
    requires t.nonce in s.issued - s.spent
    ensures var signed := Create(cfg.p, t, seed);
            forall s' :: Next(cfg, s, Deliver(SignedBytes(signed)), s') ==>
              s'.history == s.history + [Applied(signed)] && !Accepts(cfg, s', SignedBytes(signed))
  {
    HonestAccepted(cfg, s, seed, t);
    hide SignedBytes, Decode, Verify, InBounds;
  }

  // A batch over the caps, by however much, is reviewed, signed and posted all
  // the same, but the server takes it on no nonce, and no run ever applies it.
  lemma OversizedIsNeverApplied(
      cfg: Config, states: seq<State>, actions: seq<Action>, n: nat, signed: SignedTransaction)
    requires !InBounds(DECODE_LIMITS, signed.transaction)
    ensures IsRun(cfg, states, actions) && n < |states| ==> Applied(signed) !in states[n].history
    ensures forall s: State :: !Accepts(cfg, s, SignedBytes(signed))
  {
    SurvivesWireIffInBounds(signed);
    hide IsRun, InBounds, ShownThenSigned, CollisionIn;
    if IsRun(cfg, states, actions) && n < |states| && Applied(signed) in states[n].history {
      var k: nat :| k < |states[n].history| && states[n].history[k] == Applied(signed);
      AppliedWasShown(cfg, states, actions, n, k);
    }
  }

  function Play(cfg: Config, s: State, c: nat, e: Effect, key: Array32): State
    requires c in cfg.backends && c in s.phases
    requires ClientStep(cfg.p, cfg.backends[c], s.phases[c], e).Some?
  {
    s.(phases := s.phases[c := ClientStep(cfg.p, cfg.backends[c], s.phases[c], e).value],
       history := s.history + EventsOf(c, s.phases[c], e, key))
  }

  lemma PlayIsNext(cfg: Config, s: State, c: nat, e: Effect, key: Array32)
    requires c in cfg.backends && c in s.phases
    requires ClientStep(cfg.p, cfg.backends[c], s.phases[c], e).Some?
    requires e.SignWith? ==> Signs(cfg.p, cfg.backends[c], e, key)
    ensures Next(cfg, s, Act(c, e, key), Play(cfg, s, c, e, key))
  {}

  // What a software client's round leaves in the history.
  function Round(cfg: Config, c: nat, seed: Array32, t: Transaction): seq<Event> {
    [Shown(c, t), SignedWith(c, cfg.p.public(seed), t), Applied(Create(cfg.p, t, seed))]
  }

  // One client takes any state through the whole flow.
  lemma HonestClient(cfg: Config, c: nat, seed: Array32, t: Transaction, s1: State)
    returns (s2: State, s3: State, s4: State, s5: State)
    requires c in cfg.backends && cfg.backends[c] == SoftwareBackend(cfg.p, seed)
    requires t.ops != [] && c in s1.phases
    ensures var key, signed := cfg.p.public(seed), Create(cfg.p, t, seed);
            var sign := SignWith(SigningBytes(cfg.p, t), Ok(signed.signature));
            && Next(cfg, s1, Act(c, Get, key), s2)
            && Next(cfg, s2, Act(c, Review(t), key), s3)
            && Next(cfg, s3, Act(c, sign, key), s4)
            && Next(cfg, s4, Act(c, Post(SignedBytes(signed)), key), s5)
            && s5.history == s1.history + [Shown(c, t), SignedWith(c, key, t)]
            && s5.issued == s1.issued && s5.spent == s1.spent && s5.phases.Keys == s1.phases.Keys
  {
    var key, signed := cfg.p.public(seed), Create(cfg.p, t, seed);
    var sign := SignWith(SigningBytes(cfg.p, t), Ok(signed.signature));
    hide TransactionBytes, SignedBytes, InBounds, Next;
    s2 := Play(cfg, s1, c, Get, key);
    PlayIsNext(cfg, s1, c, Get, key);
    s3 := Play(cfg, s2, c, Review(t), key);
    PlayIsNext(cfg, s2, c, Review(t), key);
    s4 := Play(cfg, s3, c, sign, key);
    PlayIsNext(cfg, s3, c, sign, key);
    s5 := Play(cfg, s4, c, Post(SignedBytes(signed)), key);
    PlayIsNext(cfg, s4, c, Post(SignedBytes(signed)), key);
  }

  lemma HonestAccepted(cfg: Config, s: State, seed: Array32, t: Transaction)
    requires cfg.p.Correct() && cfg.p.public(seed) in cfg.admins
    requires t.server == cfg.server && InBounds(DECODE_LIMITS, t) && t.nonce in s.issued - s.spent
    ensures var signed := Create(cfg.p, t, seed);
            Accepts(cfg, s, SignedBytes(signed)) && Decode(SignedBytes(signed)) == Ok(signed)
  {
    SoftwareEndToEnd(cfg.p, t, seed, cfg.server);
  }

  lemma HonestDelivery(cfg: Config, s: State, b: seq<byte>, signed: SignedTransaction, j: nat)
    returns (s': State)
    requires j < |s.history| && SignedBy(cfg, s.history[j], signed)
    ensures s'.history == s.history + [Applied(signed)]
    ensures s'.issued == s.issued && s'.spent == s.spent + {signed.transaction.nonce} && s'.phases == s.phases
    ensures Accepts(cfg, s, b) && Decode(b) == Ok(signed) ==> Next(cfg, s, Deliver(b), s')
  {
    s' := s.(spent := s.spent + {signed.transaction.nonce}, history := s.history + [Applied(signed)]);
  }

  // From any state that has not seen its nonce: the nonce is issued, the client
  // goes through the flow, and its post arrives.
  lemma HonestRound(cfg: Config, c: nat, seed: Array32, t: Transaction, s0: State)
    returns (s1: State, s2: State, s3: State, s4: State, s5: State, s6: State)
    requires cfg.p.Correct() && cfg.p.public(seed) in cfg.admins
    requires c in cfg.backends && cfg.backends[c] == SoftwareBackend(cfg.p, seed)
    requires t.server == cfg.server && t.ops != [] && InBounds(DECODE_LIMITS, t)
    requires t.nonce !in s0.issued && t.nonce !in s0.spent && c in s0.phases
    ensures var key, signed := cfg.p.public(seed), Create(cfg.p, t, seed);
            var sign := SignWith(SigningBytes(cfg.p, t), Ok(signed.signature));
            && Next(cfg, s0, Issue(t.nonce), s1)
            && Next(cfg, s1, Act(c, Get, key), s2)
            && Next(cfg, s2, Act(c, Review(t), key), s3)
            && Next(cfg, s3, Act(c, sign, key), s4)
            && Next(cfg, s4, Act(c, Post(SignedBytes(signed)), key), s5)
            && Next(cfg, s5, Deliver(SignedBytes(signed)), s6)
    ensures s6.history == s0.history + Round(cfg, c, seed, t)
    ensures s6.issued == s0.issued + {t.nonce} && s6.spent == s0.spent + {t.nonce}
    ensures s6.phases.Keys == s0.phases.Keys
  {
    var signed, j := Create(cfg.p, t, seed), |s0.history| + 1;
    s1 := s0.(issued := s0.issued + {t.nonce});
    assert Next(cfg, s0, Issue(t.nonce), s1);
    hide SignedBytes, InBounds, TransactionBytes, Next, Accepts, Decode, ClientStep;
    s2, s3, s4, s5 := HonestClient(cfg, c, seed, t, s1);
    HonestAccepted(cfg, s5, seed, t);
    assert s5.history[j] == SignedWith(c, cfg.p.public(seed), t);
    s6 := HonestDelivery(cfg, s5, SignedBytes(signed), signed, j);
  }

  // The state before step `i` of the continuation `more` of `states`.
  function Before(states: seq<State>, more: seq<State>, i: nat): State
    requires states != [] && i <= |more|
  {
    if i == 0 then states[|states| - 1] else more[i - 1]
  }

  // A run goes on.
  lemma Joined(cfg: Config, states: seq<State>, actions: seq<Action>, more: seq<State>, steps: seq<Action>)
    requires states != [] && IsRun(cfg, states, actions) && |more| == |steps|
    requires forall i :: 0 <= i < |steps| ==>
               Next(cfg, Before(states, more, i), steps[i], more[i])
    ensures IsRun(cfg, states + more, actions + steps)
  {
    hide Next, Init;
    var all, acts := states + more, actions + steps;
    forall i | 0 <= i < |acts| ensures Next(cfg, all[i], acts[i], all[i + 1]) {
      if i < |actions| {
        assert all[i] == states[i] && acts[i] == actions[i] && all[i + 1] == states[i + 1];
        assert Next(cfg, states[i], actions[i], states[i + 1]);
      } else {
        var k := i - |actions|;
        assert acts[i] == steps[k] && all[i + 1] == more[k];
        assert all[i] == Before(states, more, k);
        assert Next(cfg, Before(states, more, k), steps[k], more[k]);
      }
    }
  }

  // Any run whose end has not seen the nonce goes on to apply the batch.
  lemma RoundFollows(
      cfg: Config, states: seq<State>, actions: seq<Action>, c: nat, seed: Array32, t: Transaction)
    returns (states': seq<State>, actions': seq<Action>)
    requires IsRun(cfg, states, actions) && states != []
    requires cfg.p.Correct() && cfg.p.public(seed) in cfg.admins
    requires c in cfg.backends && cfg.backends[c] == SoftwareBackend(cfg.p, seed)
    requires t.server == cfg.server && t.ops != [] && InBounds(DECODE_LIMITS, t)
    requires var s := states[|states| - 1];
             t.nonce !in s.issued && t.nonce !in s.spent && c in s.phases
    ensures IsRun(cfg, states', actions') && states' != []
    ensures var s, s' := states[|states| - 1], states'[|states'| - 1];
            && s'.history == s.history + Round(cfg, c, seed, t)
            && s'.issued == s.issued + {t.nonce} && s'.spent == s.spent + {t.nonce}
            && s'.phases.Keys == s.phases.Keys
  {
    hide Next, Init, IsRun, SignedBytes, InBounds, Create, SigningBytes, Round;
    var key, signed := cfg.p.public(seed), Create(cfg.p, t, seed);
    var sign := SignWith(SigningBytes(cfg.p, t), Ok(signed.signature));
    var s1, s2, s3, s4, s5, s6 := HonestRound(cfg, c, seed, t, states[|states| - 1]);
    var more := [s1, s2, s3, s4, s5, s6];
    var steps := [Issue(t.nonce), Act(c, Get, key), Act(c, Review(t), key), Act(c, sign, key),
                 Act(c, Post(SignedBytes(signed)), key), Deliver(SignedBytes(signed))];
    Joined(cfg, states, actions, more, steps);
    states', actions' := states + more, actions + steps;
  }

  lemma Beginning(cfg: Config) returns (s: State)
    ensures IsRun(cfg, [s], [])
    ensures s.phases.Keys == cfg.backends.Keys && s.history == [] && s.issued == {} && s.spent == {}
  {
    s := State(map d | d in cfg.backends :: Idle, [], {}, {});
  }

  // The effects of the flow, as one client's steps after its nonce was issued,
  // and the delivery of what it posted, make a run in which exactly the reviewed
  // batch is applied: nothing above is true for want of runs.
  lemma HonestRunExists(cfg: Config, c: nat, seed: Array32, t: Transaction)
    requires cfg.p.Correct() && cfg.p.public(seed) in cfg.admins
    requires c in cfg.backends && cfg.backends[c] == SoftwareBackend(cfg.p, seed)
    requires t.server == cfg.server && t.ops != [] && InBounds(DECODE_LIMITS, t)
    ensures exists states: seq<State>, actions: seq<Action> ::
              && IsRun(cfg, states, actions) && states != []
              && states[|states| - 1].history == Round(cfg, c, seed, t)
  {
    hide Next, Init, IsRun, InBounds, Create, Round;
    var s := Beginning(cfg);
    var states, actions := RoundFollows(cfg, [s], [], c, seed, t);
    assert [] + Round(cfg, c, seed, t) == Round(cfg, c, seed, t);
  }

  // At most once is for each signature, not for each batch: an operator whose
  // answer was lost retries, and the same batch is applied a second time, on a
  // new nonce under a second signature. The bound by the signatures is reached.
  lemma RetryAppliesAgain(cfg: Config, c: nat, seed: Array32, t: Transaction, nonce: Array32)
    requires cfg.p.Correct() && cfg.p.public(seed) in cfg.admins
    requires c in cfg.backends && cfg.backends[c] == SoftwareBackend(cfg.p, seed)
    requires t.server == cfg.server && t.ops != [] && InBounds(DECODE_LIMITS, t) && nonce != t.nonce
    ensures exists states: seq<State>, actions: seq<Action> ::
              && IsRun(cfg, states, actions) && states != []
              && var h := states[|states| - 1].history;
                 && h == Round(cfg, c, seed, t) + Round(cfg, c, seed, t.(nonce := nonce))
                 && CountBatch(t.ops, AppliedTransactions(h)) == 2 == CountBatch(t.ops, AdminSigned(cfg, h))
  {
    var t' := t.(nonce := nonce);
    assert InBounds(DECODE_LIMITS, t');
    TwoRoundsCount(cfg, c, seed, t, t');
    hide Next, Init, IsRun, InBounds, Create, Round;
    var s := Beginning(cfg);
    var states1, actions1 := RoundFollows(cfg, [s], [], c, seed, t);
    assert [] + Round(cfg, c, seed, t) == Round(cfg, c, seed, t);
    var states, actions := RoundFollows(cfg, states1, actions1, c, seed, t');
  }

  lemma OneMoreEvent(cfg: Config, e: Event, rest: seq<Event>)
    ensures AppliedTransactions([e] + rest)
         == (if e.Applied? then [e.signed.transaction] else []) + AppliedTransactions(rest)
    ensures AdminSigned(cfg, [e] + rest)
         == (if e.SignedWith? && e.key in cfg.admins then [e.transaction] else []) + AdminSigned(cfg, rest)
  {
    assert ([e] + rest)[1..] == rest;
  }

  lemma RoundCounts(cfg: Config, c: nat, seed: Array32, t: Transaction, rest: seq<Event>)
    requires cfg.p.public(seed) in cfg.admins
    ensures AppliedTransactions(Round(cfg, c, seed, t) + rest) == [t] + AppliedTransactions(rest)
    ensures AdminSigned(cfg, Round(cfg, c, seed, t) + rest) == [t] + AdminSigned(cfg, rest)
  {
    var r := Round(cfg, c, seed, t);
    OneMoreEvent(cfg, r[2], rest);
    OneMoreEvent(cfg, r[1], [r[2]] + rest);
    OneMoreEvent(cfg, r[0], [r[1]] + ([r[2]] + rest));
    assert r + rest == [r[0]] + ([r[1]] + ([r[2]] + rest));
    hide AppliedTransactions, AdminSigned, Create;
  }

  lemma TwoRoundsCount(cfg: Config, c: nat, seed: Array32, t: Transaction, t': Transaction)
    requires t'.ops == t.ops && cfg.p.public(seed) in cfg.admins
    ensures var h := Round(cfg, c, seed, t) + Round(cfg, c, seed, t');
            CountBatch(t.ops, AppliedTransactions(h)) == 2 == CountBatch(t.ops, AdminSigned(cfg, h))
  {
    var r' := Round(cfg, c, seed, t');
    RoundCounts(cfg, c, seed, t, r');
    RoundCounts(cfg, c, seed, t', []);
    assert r' + [] == r';
    assert AppliedTransactions([]) == [] && AdminSigned(cfg, []) == [];
    hide Round, AppliedTransactions, AdminSigned;
    assert [t'] + [] == [t'];
    CountTwo(t.ops, t, t');
  }

  lemma CountTwo(ops: seq<Operation>, t: Transaction, t': Transaction)
    requires t.ops == ops == t'.ops
    ensures CountBatch(ops, [t] + [t']) == 2
  {
    assert ([t] + [t'])[1..] == [t'] && [t'][1..] == [];
    assert CountBatch(ops, [t']) == 1;
  }
}
