// The authority protocol over whole runs: any number of clients, one server,
// and a network that delivers whatever bytes it likes, whenever it likes. Any
// dropping, duplicating and reordering is among that.
//
// The batches may be of any size, over-long ones included. Two things come from
// outside the source and are assumptions here: the server hands out each nonce
// once and takes it once, for listed admins; and nobody makes a signature for an
// admin key except by signing with it.
module Protocol {
  import opened Bytes
  import opened TxFormat
  import opened Canonical
  import opened Signing
  import opened Flow

  datatype Config = Config(
    p: Primitives,
    server: Array32,
    admins: set<Array32>,
    backends: map<nat, Backend>)  // one for each client

  // What happened, in order. `key` is the key that really signed: a software
  // client's own, or whatever a card holds when it signs.
  datatype Event =
    | Shown(client: nat, transaction: Transaction)
    | Tapped(client: nat)
    | SignedWith(client: nat, key: Array32, transaction: Transaction)
    | Applied(signed: SignedTransaction)

  datatype State = State(
    phases: map<nat, Phase>,
    history: seq<Event>,
    issued: set<Array32>,
    spent: set<Array32>)

  datatype Action =
    | Issue(nonce: Array32)
    | Act(client: nat, effect: Effect, key: Array32)
    | Deliver(bytes: seq<byte>)

  ghost predicate Init(cfg: Config, s: State) {
    && s.phases == (map c | c in cfg.backends :: Idle)
    && s.history == [] && s.issued == {} && s.spent == {}
  }

  // The events an effect of client `c` leaves behind.
  function EventsOf(c: nat, phase: Phase, e: Effect, key: Array32): seq<Event> {
    match e
    case Review(t) => [Shown(c, t)]
    case Touch => [Tapped(c)]
    case SignWith(_, Ok(_)) =>
      (match phase
       case Reviewed(t) => [SignedWith(c, key, t)]
       case Touched(t) => [SignedWith(c, key, t)]
       case _ => [])
    case _ => []
  }

  // The server takes these bytes: they decode and verify, for a listed admin,
  // on a nonce that is out and not yet used.
  ghost predicate Accepts(cfg: Config, s: State, b: seq<byte>) {
    && Decode(b).Ok?
    && var signed := Decode(b).value;
       && Verify(cfg.p, signed, cfg.server).Ok?
       && signed.admin in cfg.admins
       && signed.transaction.nonce in s.issued - s.spent
  }

  // Somebody holding the admin key signed these signing bytes.
  ghost predicate HolderSigned(cfg: Config, history: seq<Event>, signed: SignedTransaction) {
    exists j :: 0 <= j < |history| && SignedBy(cfg, history[j], signed)
  }

  predicate SignedBy(cfg: Config, e: Event, signed: SignedTransaction) {
    && e.SignedWith? && e.key == signed.admin
    && SigningBytes(cfg.p, e.transaction) == SigningBytes(cfg.p, signed.transaction)
  }

  // A software client signs with its seed; a card answers as it likes.
  predicate Signs(p: Primitives, b: Backend, e: Effect, key: Array32)
    requires e.SignWith?
  {
    match b.inner
    case Software(seed) => key == p.public(seed) && e.outcome == Ok(p.sign(seed, e.msg))
    case Yubi => true
  }

  // The key a client signs with, where its backend fixes it.
  predicate OwnKey(cfg: Config, c: nat, key: Array32) {
    c in cfg.backends && (cfg.backends[c].inner.Software? ==> key == cfg.p.public(cfg.backends[c].inner.seed))
  }

  ghost predicate Next(cfg: Config, s: State, a: Action, s': State) {
    match a
    case Issue(nonce) =>
      nonce !in s.issued && s' == s.(issued := s.issued + {nonce})
    case Act(c, e, key) =>
      && c in cfg.backends && c in s.phases
      && ClientStep(cfg.p, cfg.backends[c], s.phases[c], e).Some?
      && (e.SignWith? ==> Signs(cfg.p, cfg.backends[c], e, key))
      && s' == s.(phases := s.phases[c := ClientStep(cfg.p, cfg.backends[c], s.phases[c], e).value],
                  history := s.history + EventsOf(c, s.phases[c], e, key))
    case Deliver(b) =>
      if Accepts(cfg, s, b) then
        && HolderSigned(cfg, s.history, Decode(b).value)
        && s' == s.(spent := s.spent + {Decode(b).value.transaction.nonce},
                    history := s.history + [Applied(Decode(b).value)])
      else s' == s
  }

  ghost predicate IsRun(cfg: Config, states: seq<State>, actions: seq<Action>) {
    && |states| == |actions| + 1
    && Init(cfg, states[0])
    && forall i :: 0 <= i < |actions| ==> Next(cfg, states[i], actions[i], states[i + 1])
  }

  // ---------- what every step keeps ----------

  // Client `c` was last shown `t`, at `i`.
  ghost predicate LastShown(h: seq<Event>, c: nat, t: Transaction, i: nat, end: nat) {
    && i < end <= |h|
    && h[i] == Shown(c, t)
    && forall k :: i < k < end && h[k].Shown? ==> h[k].client != c
  }

  // A tap by client `c` between `i` and `end`.
  ghost predicate TappedSince(h: seq<Event>, c: nat, i: nat, end: nat) {
    exists k :: i < k < end <= |h| && h[k] == Tapped(c)
  }

  // The signature at `j`, by its client's own key, covers what that client had
  // last been shown, after a tap if the key is on a card.
  ghost predicate Approved(cfg: Config, h: seq<Event>, j: nat) {
    && j < |h| && h[j].SignedWith? && OwnKey(cfg, h[j].client, h[j].key)
    && exists i: nat ::
         && LastShown(h, h[j].client, h[j].transaction, i, j)
         && (cfg.backends[h[j].client].inner.Yubi? ==> TappedSince(h, h[j].client, i, j))
  }

  // What was applied at `k` was signed before with the admin's own key.
  ghost predicate Authorized(cfg: Config, h: seq<Event>, k: nat) {
    && k < |h| && h[k].Applied?
    && h[k].signed.transaction.server == cfg.server
    && h[k].signed.admin in cfg.admins
    && InBounds(DECODE_LIMITS, h[k].signed.transaction)
    && exists j :: 0 <= j < k && SignedBy(cfg, h[j], h[k].signed)
  }

  // The phase of a client agrees with the history.
  ghost predicate PhaseAgrees(cfg: Config, s: State, c: nat)
    requires c in s.phases
  {
    match s.phases[c]
    case Reviewed(t) => exists i: nat :: LastShown(s.history, c, t, i, |s.history|)
    case Touched(t) =>
      exists i: nat :: LastShown(s.history, c, t, i, |s.history|) && TappedSince(s.history, c, i, |s.history|)
    case _ => true
  }

  // Every signature was approved, every application authorized.
  ghost predicate GoodHistory(cfg: Config, h: seq<Event>) {
    forall k: nat :: k < |h| ==>
      (h[k].SignedWith? ==> Approved(cfg, h, k)) && (h[k].Applied? ==> Authorized(cfg, h, k))
  }

  // Nonces of applied transactions are spent, and no two are the same.
  ghost predicate NoncesOnce(h: seq<Event>, spent: set<Array32>) {
    && (forall k: nat :: k < |h| && h[k].Applied? ==> h[k].signed.transaction.nonce in spent)
    && (forall k: nat, l: nat :: k < l < |h| && h[k].Applied? && h[l].Applied?
          ==> h[k].signed.transaction.nonce != h[l].signed.transaction.nonce)
  }

  ghost predicate Inv(cfg: Config, s: State) {
    && s.phases.Keys == cfg.backends.Keys
    && (forall c :: c in s.phases ==> PhaseAgrees(cfg, s, c))
    && GoodHistory(cfg, s.history)
    && NoncesOnce(s.history, s.spent)
  }

  // Facts about the past stay true as the history grows.
  lemma Grows(cfg: Config, h: seq<Event>, more: seq<Event>)
    ensures forall j: nat :: Approved(cfg, h, j) ==> Approved(cfg, h + more, j)
    ensures forall k: nat :: Authorized(cfg, h, k) ==> Authorized(cfg, h + more, k)
  {
    var h' := h + more;
    forall j: nat | Approved(cfg, h, j) ensures Approved(cfg, h', j) {
      var i: nat :| && LastShown(h, h[j].client, h[j].transaction, i, j)
                    && (cfg.backends[h[j].client].inner.Yubi? ==> TappedSince(h, h[j].client, i, j));
      LaterKeeps(h, more, h[j].client, h[j].transaction, i, j);
      assert h'[j] == h[j];
    }
    forall k: nat | Authorized(cfg, h, k) ensures Authorized(cfg, h', k) {
      var j :| 0 <= j < k && SignedBy(cfg, h[j], h[k].signed);
      assert h'[j] == h[j] && h'[k] == h[k];
    }
  }

  lemma LaterKeeps(h: seq<Event>, more: seq<Event>, c: nat, t: Transaction, i: nat, end: nat)
    requires LastShown(h, c, t, i, end)
    ensures LastShown(h + more, c, t, i, end)
    ensures TappedSince(h, c, i, end) ==> TappedSince(h + more, c, i, end)
  {
    var h' := h + more;
    forall k | i < k < end && h'[k].Shown? ensures h'[k].client != c {
      assert h'[k] == h[k];
    }
    if TappedSince(h, c, i, end) {
      var k :| i < k < end <= |h| && h[k] == Tapped(c);
      assert h'[k] == Tapped(c);
    }
  }

  // Events that show client `c` nothing leave what it was last shown.
  lemma StillLastShown(h: seq<Event>, more: seq<Event>, c: nat, t: Transaction, i: nat)
    requires LastShown(h, c, t, i, |h|)
    requires forall e :: e in more && e.Shown? ==> e.client != c
    ensures LastShown(h + more, c, t, i, |h + more|)
    ensures TappedSince(h, c, i, |h|) ==> TappedSince(h + more, c, i, |h + more|)
  {
    var h' := h + more;
    forall k | i < k < |h'| && h'[k].Shown? ensures h'[k].client != c {
      if k >= |h| { assert h'[k] in more; } else { assert h'[k] == h[k]; }
    }
    if TappedSince(h, c, i, |h|) {
      var k :| i < k < |h| && h[k] == Tapped(c);
      assert h'[k] == Tapped(c);
    }
  }

  // Other clients are not affected.
  lemma PhaseKept(cfg: Config, s: State, s': State, c: nat)
    requires c in s.phases && c in s'.phases && s'.phases[c] == s.phases[c]
    requires PhaseAgrees(cfg, s, c)
    requires s.history <= s'.history
    requires forall e :: e in s'.history[|s.history|..] && e.Shown? ==> e.client != c
    ensures PhaseAgrees(cfg, s', c)
  {
    var more := s'.history[|s.history|..];
    assert s'.history == s.history + more;
    match s.phases[c] {
      case Reviewed(t) =>
        var i: nat :| LastShown(s.history, c, t, i, |s.history|);
        StillLastShown(s.history, more, c, t, i);
      case Touched(t) =>
        var i: nat :| LastShown(s.history, c, t, i, |s.history|) && TappedSince(s.history, c, i, |s.history|);
        StillLastShown(s.history, more, c, t, i);
      case _ =>
    }
  }

  lemma GoodHistoryGrows(cfg: Config, h: seq<Event>, e: Event)
    requires GoodHistory(cfg, h)
    requires e.SignedWith? ==> Approved(cfg, h + [e], |h|)
    requires e.Applied? ==> Authorized(cfg, h + [e], |h|)
    ensures GoodHistory(cfg, h + [e])
  {
    Grows(cfg, h, [e]);
    hide Approved, Authorized;
    var h' := h + [e];
    forall k: nat | k < |h'|
      ensures (h'[k].SignedWith? ==> Approved(cfg, h', k)) && (h'[k].Applied? ==> Authorized(cfg, h', k))
    {
      if k < |h| { assert h'[k] == h[k]; }
    }
  }

  lemma NoncesOnceGrows(h: seq<Event>, spent: set<Array32>, e: Event)
    requires NoncesOnce(h, spent) && !e.Applied?
    ensures NoncesOnce(h + [e], spent)
  {}

  lemma NoncesOnceApply(h: seq<Event>, spent: set<Array32>, signed: SignedTransaction)
    requires NoncesOnce(h, spent) && signed.transaction.nonce !in spent
    ensures NoncesOnce(h + [Applied(signed)], spent + {signed.transaction.nonce})
  {}

  // A signature on the table: the phase of its client approves it.
  lemma SigningIsApproved(cfg: Config, s: State, c: nat, key: Array32, t: Transaction)
    requires c in s.phases && OwnKey(cfg, c, key) && PhaseAgrees(cfg, s, c)
    requires s.phases[c] == (if cfg.backends[c].inner.Yubi? then Touched(t) else Reviewed(t))
    ensures Approved(cfg, s.history + [SignedWith(c, key, t)], |s.history|)
  {
    var h, e := s.history, SignedWith(c, key, t);
    var i: nat :| LastShown(h, c, t, i, |h|) && (cfg.backends[c].inner.Yubi? ==> TappedSince(h, c, i, |h|));
    LaterKeeps(h, [e], c, t, i, |h|);
    assert (h + [e])[|h|] == e;
  }

  // A client's own phase after one effect.
  lemma OwnPhase(cfg: Config, s: State, c: nat, e: Effect, key: Array32, s': State)
    requires Next(cfg, s, Act(c, e, key), s') && PhaseAgrees(cfg, s, c)
    ensures PhaseAgrees(cfg, s', c)
  {
    var h := s.history;
    match e {
      case Review(t) =>
        assert LastShown(s'.history, c, t, |h|, |s'.history|);
      case Touch =>
        var t := s.phases[c].transaction;
        var i: nat :| LastShown(h, c, t, i, |h|);
        StillLastShown(h, [Tapped(c)], c, t, i);
        assert s'.history[|h|] == Tapped(c);
        assert TappedSince(s'.history, c, i, |s'.history|);
      case _ =>
    }
  }

  lemma ActKeeps(cfg: Config, s: State, c: nat, e: Effect, key: Array32, s': State)
    requires Inv(cfg, s) && Next(cfg, s, Act(c, e, key), s')
    ensures Inv(cfg, s')
  {
    var more := EventsOf(c, s.phases[c], e, key);
    OwnPhase(cfg, s, c, e, key, s');
    assert s'.history[|s.history|..] == more;
    forall d | d in s'.phases ensures PhaseAgrees(cfg, s', d) {
      if d != c {
        PhaseKept(cfg, s, s', d);
      }
    }
    if more == [] {
      assert s'.history == s.history;
    } else {
      if more[0].SignedWith? {
        SigningIsApproved(cfg, s, c, key, more[0].transaction);
      }
      hide PhaseAgrees, Approved, Authorized;
      GoodHistoryGrows(cfg, s.history, more[0]);
      NoncesOnceGrows(s.history, s.spent, more[0]);
    }
  }

  lemma DeliverKeeps(cfg: Config, s: State, b: seq<byte>, s': State)
    requires Inv(cfg, s) && Next(cfg, s, Deliver(b), s')
    ensures Inv(cfg, s')
  {
    if Accepts(cfg, s, b) {
      var signed := Decode(b).value;
      var e := Applied(signed);
      DecodeExactly(b, signed);
      assert Authorized(cfg, s'.history, |s.history|) by {
        var j :| 0 <= j < |s.history| && SignedBy(cfg, s.history[j], signed);
        assert s'.history[j] == s.history[j] && s'.history[|s.history|] == e;
      }
      assert s'.history[|s.history|..] == [e];
      forall d | d in s'.phases ensures PhaseAgrees(cfg, s', d) {
        PhaseKept(cfg, s, s', d);
      }
      hide PhaseAgrees, Approved, Authorized, Decode, Verify;
      GoodHistoryGrows(cfg, s.history, e);
      NoncesOnceApply(s.history, s.spent, signed);
    }
  }

  lemma StepKeeps(cfg: Config, s: State, a: Action, s': State)
    requires Inv(cfg, s) && Next(cfg, s, a, s')
    ensures Inv(cfg, s')
  {
    match a {
      case Issue(_) =>
        forall d | d in s'.phases ensures PhaseAgrees(cfg, s', d) {
          PhaseKept(cfg, s, s', d);
        }
      case Act(c, e, key) => ActKeeps(cfg, s, c, e, key, s');
      case Deliver(b) => DeliverKeeps(cfg, s, b, s');
    }
  }

  lemma {:induction false} RunKeeps(cfg: Config, states: seq<State>, actions: seq<Action>, i: nat)
    requires IsRun(cfg, states, actions) && i < |states|
    ensures Inv(cfg, states[i])
  {
    if i > 0 {
      RunKeeps(cfg, states, actions, i - 1);
      StepKeeps(cfg, states[i - 1], actions[i - 1], states[i]);
    }
  }
}
