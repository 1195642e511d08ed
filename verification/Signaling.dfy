/** Per-transfer and per-account signaling budgets of the presence manager (backend/app/presence.py). */
module SignalingBudget {
  import opened Names
  import opened Outcomes
  import opened Sums
  import opened TransferRecords

  const MAX_SIGNALING_ICE_CANDIDATES := 64
  const MAX_SIGNALING_MESSAGES := 128
  const MAX_SIGNALING_MESSAGES_PER_ACCOUNT := 512

  datatype MessageType = SdpOffer | SdpAnswer | IceCandidate | HandshakeOffer | HandshakeAnswer

  function Cap(t: MessageType): nat {
    if t == IceCandidate then MAX_SIGNALING_ICE_CANDIDATES else 1
  }

  type Slot = (Id, MessageType)

  datatype Usage = Usage(account: Id, updatedAt: int, total: nat, counts: map<Slot, nat>)

  type Usages = map<Id, Usage>

  // The two dictionaries: budgets by transfer, and the redundant totals by account.
  datatype Budget = Budget(usages: Usages, totals: map<Id, nat>)

  function CountOf(u: Usage, slot: Slot): nat {
    if slot in u.counts then u.counts[slot] else 0
  }

  function TotalOf(b: Budget, account: Id): nat {
    if account in b.totals then b.totals[account] else 0
  }

  // _record_signaling_use
  function Charged(b: Budget, transfer: Id, account: Id, slot: Slot, now: int): (r: (Budget, bool)) {
    var u := Open(b, transfer, account, now);
    if CountOf(u, slot) >= Cap(slot.1) || u.total >= MAX_SIGNALING_MESSAGES
       || TotalOf(b, account) >= MAX_SIGNALING_MESSAGES_PER_ACCOUNT
    then (b.(usages := b.usages[transfer := u]), false)
    else
      var u' := u.(updatedAt := now, total := u.total + 1, counts := u.counts[slot := CountOf(u, slot) + 1]);
      (Budget(b.usages[transfer := u'], b.totals[account := TotalOf(b, account) + 1]), true)
  }

  // _release_signaling
  function Released(b: Budget, transfer: Id): Budget {
    if transfer !in b.usages then b else
      var u := b.usages[transfer];
      Budget(b.usages - {transfer},
             if TotalOf(b, u.account) > u.total then b.totals[u.account := TotalOf(b, u.account) - u.total]
             else b.totals - {u.account})
  }

  // ----- Conservation -----

  // What the transfers of one account have used.
  function Mine(us: Usages, account: Id): map<Id, nat> {
    map t | t in us && us[t].account == account :: us[t].total
  }

  ghost function UsedBy(us: Usages, account: Id): nat {
    Sum(Mine(us, account))
  }

  ghost predicate UsageOk(u: Usage) {
    && u.total == Sum(u.counts) <= MAX_SIGNALING_MESSAGES
    && forall slot :: slot in u.counts ==> u.counts[slot] <= Cap(slot.1)
  }

  ghost predicate TotalOk(b: Budget, account: Id) {
    && (account in b.totals <==> UsedBy(b.usages, account) > 0)
    && TotalOf(b, account) == UsedBy(b.usages, account) <= MAX_SIGNALING_MESSAGES_PER_ACCOUNT
  }

  ghost predicate Conserved(b: Budget) {
    && (forall t :: t in b.usages ==> UsageOk(b.usages[t]))
    && (forall a: Id :: TotalOk(b, a))
  }

  // Replacing one transfer's usage moves its owner's sum by the difference, and nobody else's.
  lemma UsedByUpdate(us: Usages, t: Id, u: Usage, account: Id)
    requires t in us ==> us[t].account == u.account
    ensures UsedBy(us[t := u], account)
         == UsedBy(us, account) + (if u.account != account then 0 else u.total - (if t in us then us[t].total else 0))
  {
    var mine := Mine(us, account);
    if u.account == account {
      SumUpdate(mine, t, u.total);
      assert Mine(us[t := u], account) == mine[t := u.total];
    } else {
      assert Mine(us[t := u], account) == mine;
    }
  }

  lemma UsedByRemove(us: Usages, t: Id, account: Id)
    requires t in us
    ensures UsedBy(us, account) == UsedBy(us - {t}, account) + (if us[t].account == account then us[t].total else 0)
  {
    var mine := Mine(us, account);
    assert Mine(us - {t}, account) == mine - {t};
    if us[t].account == account {
      SumRemove(mine, t);
    } else {
      assert mine - {t} == mine;
    }
  }

  lemma NothingUsed()
    ensures Conserved(Budget(map[], map[]))
  {
    forall a: Id ensures TotalOk(Budget(map[], map[]), a) {
      assert Mine(map[], a) == map[];
    }
  }

  // The usage a transfer is charged against.
  function Open(b: Budget, transfer: Id, account: Id, now: int): Usage {
    if transfer in b.usages then b.usages[transfer] else Usage(account, now, 0, map[])
  }

  lemma ChargedUsageOk(u: Usage, slot: Slot, now: int)
    requires UsageOk(u) && CountOf(u, slot) < Cap(slot.1) && u.total < MAX_SIGNALING_MESSAGES
    ensures UsageOk(u.(updatedAt := now, total := u.total + 1, counts := u.counts[slot := CountOf(u, slot) + 1]))
  {
    SumUpdate(u.counts, slot, CountOf(u, slot) + 1);
  }

  lemma ChargedTotalOk(b: Budget, transfer: Id, account: Id, slot: Slot, now: int, a: Id)
    requires TotalOk(b, a) && TotalOk(b, account)
    requires Open(b, transfer, account, now).account == account
    ensures TotalOk(Charged(b, transfer, account, slot, now).0, a)
  {
    UsedByUpdate(b.usages, transfer, Charged(b, transfer, account, slot, now).0.usages[transfer], a);
  }

  /** Charging keeps every total equal to what it summarises, and every cap. */
  lemma ChargeConserves(b: Budget, transfer: Id, account: Id, slot: Slot, now: int)
    requires Conserved(b)
    requires transfer in b.usages ==> b.usages[transfer].account == account
    ensures Conserved(Charged(b, transfer, account, slot, now).0)
  {
    var u := Open(b, transfer, account, now);
    assert UsageOk(u) by {
      if transfer !in b.usages { SumZero<Slot>(map[]); }
    }
    if Charged(b, transfer, account, slot, now).1 {
      ChargedUsageOk(u, slot, now);
    }
    assert TotalOk(b, account);
    forall a: Id ensures TotalOk(Charged(b, transfer, account, slot, now).0, a) {
      assert TotalOk(b, a);
      ChargedTotalOk(b, transfer, account, slot, now, a);
    }
  }

  /** Releasing a transfer gives its owner back exactly what the transfer had used. */
  lemma ReleaseConserves(b: Budget, transfer: Id)
    requires Conserved(b)
    ensures Conserved(Released(b, transfer))
  {
    if transfer in b.usages {
      var b', u := Released(b, transfer), b.usages[transfer];
      forall a: Id ensures TotalOk(b', a) {
        assert TotalOk(b, a) && TotalOk(b, u.account);
        UsedByRemove(b.usages, transfer, a);
      }
    }
  }

  /** Releasing takes the transfer's usage away and nothing else, and lowers its owner's total by what it had used. */
  lemma {:induction false} ReleasesExactly(b: Budget, transfer: Id, account: Id)
    requires Conserved(b)
    ensures Released(b, transfer).usages == b.usages - {transfer}
    ensures TotalOf(Released(b, transfer), account)
         == TotalOf(b, account)
            - if transfer in b.usages && b.usages[transfer].account == account then b.usages[transfer].total else 0
  {
    hide UsageOk;
    ReleaseConserves(b, transfer);
    assert TotalOk(b, account) && TotalOk(Released(b, transfer), account);
    if transfer in b.usages { UsedByRemove(b.usages, transfer, account); }
  }

  // The totals say nothing the usages do not already say.
  lemma TotalsAreDetermined(b: Budget, c: Budget)
    requires Conserved(b) && Conserved(c) && b.usages == c.usages
    ensures b == c
  {
    forall a: Id
      ensures a in b.totals <==> a in c.totals
      ensures a in b.totals ==> b.totals[a] == c.totals[a]
    {
      assert TotalOk(b, a) && TotalOk(c, a);
    }
  }

  function StaleAt(us: Usages, now: int, retention: int): set<Id> {
    set t | t in us && us[t].updatedAt <= now - retention
  }

  // Releasing a set of transfers one after the other; the order does not matter (TotalsAreDetermined).
  ghost function ReleasedAll(b: Budget, ts: set<Id>): (r: Budget)
    ensures r.usages == b.usages - ts
    decreases |ts|
  {
    if ts == {} then b else
      var t :| t in ts;
      assert (b.usages - {t}) - (ts - {t}) == b.usages - ts;
      assert t !in b.usages ==> b.usages - {t} == b.usages;
      ReleasedAll(Released(b, t), ts - {t})
  }

  lemma {:induction false} ReleaseAllConserves(b: Budget, ts: set<Id>)
    requires Conserved(b)
    ensures Conserved(ReleasedAll(b, ts))
    decreases |ts|
  {
    if ts != {} {
      var t :| t in ts && ReleasedAll(b, ts) == ReleasedAll(Released(b, t), ts - {t});
      ReleaseConserves(b, t);
      ReleaseAllConserves(Released(b, t), ts - {t});
    }
  }

  ghost function Pruned(b: Budget, now: int, retention: int): Budget {
    ReleasedAll(b, StaleAt(b.usages, now, retention))
  }

  /** A pruning pass keeps exactly the usages that were updated less than the retention ago. */
  lemma {:induction false} PrunesExactly(b: Budget, now: int, retention: int, t: Id)
    ensures t in Pruned(b, now, retention).usages <==> t in b.usages && now < b.usages[t].updatedAt + retention
    ensures t in Pruned(b, now, retention).usages ==> Pruned(b, now, retention).usages[t] == b.usages[t]
  {
  }

  /** The signaling dictionaries of the presence manager. Every method body is one section under its lock. */
  class SignalingState {
    var usages: Usages
    var totals: map<Id, nat>

    ghost function View(): Budget
      reads this
    {
      Budget(usages, totals)
    }

    constructor ()
      ensures Conserved(View()) && usages == map[]
    {
      usages, totals := map[], map[];
      new;
      NothingUsed();
    }

    // ChargeConserves says what this keeps.
    method RecordSignalingUse(transfer: Id, account: Id, slot: Slot, now: int) returns (admitted: bool)
      modifies this
      ensures View() == Charged(old(View()), transfer, account, slot, now).0
      ensures admitted == Charged(old(View()), transfer, account, slot, now).1
    {
      ghost var before := View();
      if transfer !in usages {
        usages := usages[transfer := Usage(account, now, 0, map[])];
      }
      var usage := usages[transfer];
      assert usage == Open(before, transfer, account, now) && usages == before.usages[transfer := usage];
      var accountTotal := if account in totals then totals[account] else 0;
      var count := if slot in usage.counts then usage.counts[slot] else 0;
      if count >= Cap(slot.1) || usage.total >= MAX_SIGNALING_MESSAGES
          || accountTotal >= MAX_SIGNALING_MESSAGES_PER_ACCOUNT {
        return false;
      }
      usages := usages[transfer := usage.(counts := usage.counts[slot := count + 1], total := usage.total + 1,
          updatedAt := now)];
      totals := totals[account := accountTotal + 1];
      return true;
    }

    method ReleaseSignaling(transfer: Id) returns (released: bool)
      requires Conserved(View())
      modifies this
      ensures View() == Released(old(View()), transfer) && released == (transfer in old(usages))
      ensures Conserved(View())
    {
      ReleaseConserves(View(), transfer);
      if transfer !in usages {
        return false;
      }
      var usage := usages[transfer];
      usages := usages - {transfer};
      var remaining := (if usage.account in totals then totals[usage.account] else 0) - usage.total;
      if remaining > 0 {
        totals := totals[usage.account := remaining];
      } else {
        totals := totals - {usage.account};
      }
      return true;
    }

    method PruneSignalingState(now: int, retention: int) returns (cleaned: nat)
      requires Conserved(View())
      modifies this
      ensures View() == Pruned(old(View()), now, retention)
      ensures cleaned == |StaleAt(old(usages), now, retention)|
      ensures Conserved(View())
    {
      var stale := set t | t in usages && usages[t].updatedAt <= now - retention;
      var rest := stale;
      while rest != {}
        invariant Conserved(View()) && rest <= stale
        invariant usages == old(usages) - (stale - rest)
        decreases |rest|
      {
        var t :| t in rest;
        var _ := ReleaseSignaling(t);
        rest := rest - {t};
      }
      ReleaseAllConserves(old(View()), stale);
      TotalsAreDetermined(View(), Pruned(old(View()), now, retention));
      return |stale|;
    }
  }
}

/** Whole runs of the signaling relay against the transfer lifecycle. */
module SignalingRuns {
  import opened Names
  import opened Outcomes
  import opened TransferRecords
  import opened SignalingBudget

  // The transfer lifetime and the signaling retention, in minutes or any finer unit.
  datatype Config = Config(lifetime: nat, retention: nat)

  // TRANSFER_REQUEST_LIFETIME and SIGNALING_STATE_RETENTION, in minutes.
  const DEPLOYED := Config(10, 11)

  datatype Message = Message(kind: MessageType, version: int, transfer: Id, sender: Id, recipient: Id, expiresAt: int,
      wellShaped: bool)

  // A message that was handed to the peer's socket: by which device, of which type, for which transfer.
  datatype Sent = Sent(transfer: Id, slot: Slot)

  // `targets` are the devices the forwarded messages went to, in the same order.
  datatype Relay = Relay(clock: int, records: Records, budget: Budget, forwarded: seq<Sent>, targets: seq<Id>)

  // Repository operations carry clock values read at some earlier time. A `Create` comes from create_offer.
  // `Release` is what the service does after it has moved a transfer to a terminal status.
  datatype Action =
    | Tick(elapsed: nat)
    | Offer(id: Id, account: Id, sender: Id, recipient: Id, now: int, stamp: int)
    | Repository(op: Op)
    | Forward(account: Id, device: Id, message: Message, delivered: bool)
    | Prune(now: int)
    | Release(transfer: Id)

  predicate Live(r: Record, now: int) {
    Active(r.status) && r.expiresAt > now
  }

  predicate EarlyStatus(s: Status) {
    s in {Offered, Accepted, Negotiating}
  }

  // Which device may send a message of the type.
  predicate MaySend(kind: MessageType, device: Id, r: Record) {
    match kind
    case SdpOffer => device == r.sender
    case HandshakeOffer => device == r.sender
    case SdpAnswer => device == r.recipient
    case HandshakeAnswer => device == r.recipient
    case IceCandidate => true
  }

  predicate Wellformed(m: Message, now: int) {
    m.wellShaped && m.version == 1 && m.sender != m.recipient && m.expiresAt > now
  }

  // forward_signaling, taken as one step.
  ghost function Forwarded(s: Relay, cfg: Config, account: Id, device: Id, m: Message, delivered: bool): Relay {
    var s1 := s.(budget := Pruned(s.budget, s.clock, cfg.retention));
    if !Wellformed(m, s.clock) then s1
    else if m.transfer !in s.records || s.records[m.transfer].user != account then s1
    else
      var r := s.records[m.transfer];
      if !Live(r, s.clock) then s1.(budget := Released(s1.budget, r.id))
      else if m.expiresAt > r.expiresAt then s1
      else if r.version != m.version || r.sender != m.sender || r.recipient != m.recipient
              || (device != m.sender && device != m.recipient) then s1
      else if !MaySend(m.kind, device, r) || !EarlyStatus(r.status) then s1
      else
        var marks := (m.kind == SdpOffer || m.kind == HandshakeOffer) && r.status == Accepted;
        var s2 := if marks then s1.(records := Apply(s1.records,
            Transition(account, r.id, Accepted, Negotiating, s.clock, s.clock))) else s1;
        var (b, admitted) := Charged(s2.budget, r.id, account, (device, m.kind), s.clock);
        var s3 := s2.(budget := b);
        var target := if device == m.sender then m.recipient else m.sender;
        if !admitted || !delivered then s3
        else s3.(forwarded := s3.forwarded + [Sent(r.id, (device, m.kind))], targets := s3.targets + [target])
  }

  ghost function Step(s: Relay, cfg: Config, a: Action): Relay {
    match a
    case Tick(elapsed) => s.(clock := s.clock + elapsed)
    case Offer(id, account, sender, recipient, now, stamp) =>
      if now > s.clock then s
      else s.(records := Apply(s.records, Create(id, account, sender, recipient, 1, now + cfg.lifetime, stamp)))
    case Repository(op) => if op.Create? then s else s.(records := Apply(s.records, op))
    case Forward(account, device, m, delivered) => Forwarded(s, cfg, account, device, m, delivered)
    case Prune(now) => if now > s.clock then s else s.(budget := Pruned(s.budget, now, cfg.retention))
    case Release(t) =>
      if t in s.records && !Active(s.records[t].status) then s.(budget := Released(s.budget, t)) else s
  }

  ghost function Exec(cfg: Config, start: int, run: seq<Action>): Relay {
    if run == [] then Relay(start, map[], Budget(map[], map[]), [], []) else
      Step(Exec(cfg, start, run[..|run| - 1]), cfg, run[|run| - 1])
  }

  // How often a device got a message of a type through for a transfer.
  function Times(log: seq<Sent>, e: Sent): nat {
    if log == [] then 0 else Times(log[..|log| - 1], e) + if log[|log| - 1] == e then 1 else 0
  }

  // ----- The invariant -----

  ghost predicate Owned(s: Relay) {
    && (forall t :: t in s.records ==> s.records[t].id == t)
    && forall t :: t in s.budget.usages ==> t in s.records && s.budget.usages[t].account == s.records[t].user
  }

  // A usage was updated when its transfer already existed, so the deadline is at most one lifetime later.
  ghost predicate Timely(s: Relay, cfg: Config) {
    && (forall t :: t in s.records ==> s.records[t].expiresAt <= s.clock + cfg.lifetime)
    && (forall t :: t in s.budget.usages && t in s.records ==>
          s.records[t].expiresAt <= s.budget.usages[t].updatedAt + cfg.lifetime)
  }

  // Everything forwarded is still accounted for, unless the transfer can never be active again.
  ghost predicate Accounted(s: Relay, e: Sent) {
    Times(s.forwarded, e) == 0 ||
    (&& e.transfer in s.records
     && Times(s.forwarded, e) <= Cap(e.slot.1)
     && (Live(s.records[e.transfer], s.clock) ==>
           e.transfer in s.budget.usages && Times(s.forwarded, e) <= CountOf(s.budget.usages[e.transfer], e.slot)))
  }

  ghost predicate Inv(s: Relay, cfg: Config) {
    Owned(s) && Timely(s, cfg) && Conserved(s.budget) && forall e :: Accounted(s, e)
  }

  // Pruning drops a usage only when its transfer is past its deadline.
  lemma PruneKeepsInv(s: Relay, cfg: Config, now: int)
    requires Inv(s, cfg) && cfg.retention >= cfg.lifetime && now <= s.clock
    ensures Inv(s.(budget := Pruned(s.budget, now, cfg.retention)), cfg)
  {
    ReleaseAllConserves(s.budget, StaleAt(s.budget.usages, now, cfg.retention));
    var s' := s.(budget := Pruned(s.budget, now, cfg.retention));
    forall e ensures Accounted(s', e) {
      assert Accounted(s, e);
    }
  }

  lemma ReleaseKeepsInv(s: Relay, cfg: Config, t: Id)
    requires Inv(s, cfg)
    requires t in s.records && !Live(s.records[t], s.clock)
    ensures Inv(s.(budget := Released(s.budget, t)), cfg)
  {
    ReleaseConserves(s.budget, t);
    var s' := s.(budget := Released(s.budget, t));
    forall e ensures Accounted(s', e) {
      assert Accounted(s, e);
    }
  }

  // Repository operations never revive a transfer.
  lemma RepositoryKeepsInv(s: Relay, cfg: Config, op: Op)
    requires Inv(s, cfg)
    requires op.Create? ==> op.expiresAt <= s.clock + cfg.lifetime
    ensures Inv(s.(records := Apply(s.records, op)), cfg)
  {
    var s' := s.(records := Apply(s.records, op));
    forall t | t in s.records
      ensures t in s'.records && SameTransfer(s.records[t], s'.records[t])
      ensures Live(s'.records[t], s.clock) ==> Live(s.records[t], s.clock)
    {
      StepLaw(s.records, op, t);
    }
    forall e ensures Accounted(s', e) {
      assert Accounted(s, e);
    }
  }

  lemma ChargeKeepsInv(s: Relay, cfg: Config, t: Id, slot: Slot, delivered: bool)
    requires Inv(s, cfg) && t in s.records && Live(s.records[t], s.clock)
    ensures var (b, admitted) := Charged(s.budget, t, s.records[t].user, slot, s.clock);
            Inv(s.(budget := b, forwarded := if admitted && delivered then s.forwarded + [Sent(t, slot)]
                else s.forwarded), cfg)
  {
    hide Conserved, Accounted;
    var (b, admitted) := Charged(s.budget, t, s.records[t].user, slot, s.clock);
    var log := if admitted && delivered then s.forwarded + [Sent(t, slot)] else s.forwarded;
    ChargeConserves(s.budget, t, s.records[t].user, slot, s.clock);
    forall e ensures Accounted(s.(budget := b, forwarded := log), e) {
      assert Accounted(s, e);
      ChargeKeepsAccounted(s, t, slot, delivered, e);
    }
  }

  lemma ChargeKeepsAccounted(s: Relay, t: Id, slot: Slot, delivered: bool, e: Sent)
    requires t in s.records && Live(s.records[t], s.clock) && Accounted(s, e)
    ensures var (b, admitted) := Charged(s.budget, t, s.records[t].user, slot, s.clock);
            Accounted(s.(budget := b, forwarded := if admitted
                && delivered then s.forwarded + [Sent(t, slot)] else s.forwarded), e)
  {
    assert (s.forwarded + [Sent(t, slot)])[..|s.forwarded|] == s.forwarded;
  }

  lemma {:induction false} TargetsAreFree(s: Relay, cfg: Config, targets: seq<Id>)
    requires Inv(s, cfg)
    ensures Inv(s.(targets := targets), cfg)
  {
    hide Conserved;
    forall e ensures Accounted(s.(targets := targets), e) {
      assert Accounted(s, e);
    }
  }

  lemma ForwardKeepsInv(s: Relay, cfg: Config, account: Id, device: Id, m: Message, delivered: bool)
    requires Inv(s, cfg) && cfg.retention >= cfg.lifetime
    ensures Inv(Forwarded(s, cfg, account, device, m, delivered), cfg)
  {
    hide Timely, Conserved, Accounted, Pruned, Released, Charged;
    PruneKeepsInv(s, cfg, s.clock);
    var s1 := s.(budget := Pruned(s.budget, s.clock, cfg.retention));
    if m.transfer in s.records && s.records[m.transfer].user == account {
      var r := s.records[m.transfer];
      if !Live(r, s.clock) {
        ReleaseKeepsInv(s1, cfg, m.transfer);
      } else {
        var op := Transition(account, r.id, Accepted, Negotiating, s.clock, s.clock);
        RepositoryKeepsInv(s1, cfg, op);
        ChargeKeepsInv(s1, cfg, r.id, (device, m.kind), delivered);
        ChargeKeepsInv(s1.(records := Apply(s1.records, op)), cfg, r.id, (device, m.kind), delivered);
        var s' := Forwarded(s, cfg, account, device, m, delivered);
        if s'.targets != s.targets { TargetsAreFree(s'.(targets := s.targets), cfg, s'.targets); }
      }
    }
  }

  lemma StepKeepsInv(s: Relay, cfg: Config, a: Action)
    requires Inv(s, cfg) && cfg.retention >= cfg.lifetime
    ensures Inv(Step(s, cfg, a), cfg)
  {
    match a
    case Tick(_) =>
      forall e ensures Accounted(Step(s, cfg, a), e) { assert Accounted(s, e); }
    case Offer(id, account, sender, recipient, now, stamp) =>
      if now <= s.clock {
        RepositoryKeepsInv(s, cfg, Create(id, account, sender, recipient, 1, now + cfg.lifetime, stamp));
      }
    case Repository(op) => if !op.Create? { RepositoryKeepsInv(s, cfg, op); }
    case Forward(account, device, m, delivered) => ForwardKeepsInv(s, cfg, account, device, m, delivered);
    case Prune(now) => if now <= s.clock { PruneKeepsInv(s, cfg, now); }
    case Release(t) => if t in s.records && !Active(s.records[t].status) { ReleaseKeepsInv(s, cfg, t); }
  }

  lemma {:induction false} RunKeepsInv(cfg: Config, start: int, run: seq<Action>)
    requires cfg.retention >= cfg.lifetime
    ensures Inv(Exec(cfg, start, run), cfg)
  {
    if run == [] {
      NothingUsed();
    } else {
      RunKeepsInv(cfg, start, run[..|run| - 1]);
      StepKeepsInv(Exec(cfg, start, run[..|run| - 1]), cfg, run[|run| - 1]);
    }
  }

  // What does not depend on the retention.
  ghost predicate Sound(s: Relay) {
    Owned(s) && Conserved(s.budget)
  }

  lemma {:induction false} RepositoryKeepsSound(s: Relay, op: Op)
    requires Sound(s)
    ensures Sound(s.(records := Apply(s.records, op)))
  {
    hide Conserved;
    forall t | t in s.records
      ensures t in Apply(s.records, op) && SameTransfer(s.records[t], Apply(s.records, op)[t])
    {
      StepLaw(s.records, op, t);
    }
  }

  lemma {:induction false} ChargeKeepsSound(s: Relay, t: Id, slot: Slot)
    requires Sound(s) && t in s.records
    ensures Sound(s.(budget := Charged(s.budget, t, s.records[t].user, slot, s.clock).0))
  {
    hide Conserved;
    ChargeConserves(s.budget, t, s.records[t].user, slot, s.clock);
  }

  lemma {:induction false} ForwardKeepsSound(
      s: Relay, cfg: Config, account: Id, device: Id, m: Message, delivered: bool)
    requires Sound(s)
    ensures Sound(Forwarded(s, cfg, account, device, m, delivered))
  {
    hide Conserved, Charged;
    ReleaseAllConserves(s.budget, StaleAt(s.budget.usages, s.clock, cfg.retention));
    var s1 := s.(budget := Pruned(s.budget, s.clock, cfg.retention));
    if m.transfer in s.records && s.records[m.transfer].user == account {
      var r := s.records[m.transfer];
      ReleaseConserves(s1.budget, r.id);
      var op := Transition(account, r.id, Accepted, Negotiating, s.clock, s.clock);
      RepositoryKeepsSound(s1, op);
      StepLaw(s.records, op, r.id);
      ChargeKeepsSound(s1, r.id, (device, m.kind));
      ChargeKeepsSound(s1.(records := Apply(s1.records, op)), r.id, (device, m.kind));
    }
  }

  lemma {:induction false} StepKeepsSound(s: Relay, cfg: Config, a: Action)
    requires Sound(s)
    ensures Sound(Step(s, cfg, a))
  {
    hide Conserved, Forwarded;
    match a
    case Tick(_) =>
    case Offer(id, account, sender, recipient, now, stamp) =>
      RepositoryKeepsSound(s, Create(id, account, sender, recipient, 1, now + cfg.lifetime, stamp));
    case Repository(op) => RepositoryKeepsSound(s, op);
    case Forward(account, device, m, delivered) => ForwardKeepsSound(s, cfg, account, device, m, delivered);
    case Prune(now) => ReleaseAllConserves(s.budget, StaleAt(s.budget.usages, now, cfg.retention));
    case Release(t) => ReleaseConserves(s.budget, t);
  }

  /** Budgets stay conserved in every reachable state, whatever the retention. */
  lemma {:induction false} BudgetsConservedInEveryRun(cfg: Config, start: int, run: seq<Action>)
    ensures Conserved(Exec(cfg, start, run).budget) && Owned(Exec(cfg, start, run))
  {
    if run == [] {
      NothingUsed();
    } else {
      BudgetsConservedInEveryRun(cfg, start, run[..|run| - 1]);
      StepKeepsSound(Exec(cfg, start, run[..|run| - 1]), cfg, run[|run| - 1]);
    }
  }

  ghost predicate CapsHold(log: seq<Sent>) {
    forall e :: Times(log, e) <= Cap(e.slot.1)
  }

  /** No run forwards more messages of a type, for one transfer from one device, than its cap: one for each
      single-use type and 64 for ICE candidates, however often budgets are pruned and released on the way. */
  lemma {:induction false} CapsHoldInEveryRun(cfg: Config, start: int, run: seq<Action>)
    requires cfg.retention >= cfg.lifetime
    ensures CapsHold(Exec(cfg, start, run).forwarded)
    ensures forall e :: Times(Exec(cfg, start, run).forwarded, e) <= if e.slot.1 == IceCandidate then 64 else 1
  {
    RunKeepsInv(cfg, start, run);
    forall e ensures Times(Exec(cfg, start, run).forwarded, e) <= Cap(e.slot.1) {
      assert Accounted(Exec(cfg, start, run), e);
    }
  }

  lemma {:induction false} TwiceCounts(log: seq<Sent>, i: nat, j: nat)
    requires i < j < |log| && log[i] == log[j]
    ensures Times(log, log[i]) >= 2
  {
    if j < |log| - 1 {
      TwiceCounts(log[..|log| - 1], i, j);
    } else {
      OnceCounts(log[..|log| - 1], i);
    }
  }

  lemma {:induction false} OnceCounts(log: seq<Sent>, i: nat)
    requires i < |log|
    ensures Times(log, log[i]) >= 1
  {
    if i < |log| - 1 {
      OnceCounts(log[..|log| - 1], i);
    }
  }

  /** In the deployed configuration no single-use message goes through twice in any run. */
  lemma {:induction false} SingleUse(start: int, run: seq<Action>, i: nat, j: nat)
    requires i < j < |Exec(DEPLOYED, start, run).forwarded|
    requires Exec(DEPLOYED, start, run).forwarded[i] == Exec(DEPLOYED, start, run).forwarded[j]
    ensures Exec(DEPLOYED, start, run).forwarded[i].slot.1 == IceCandidate
  {
    var log := Exec(DEPLOYED, start, run).forwarded;
    CapsHoldInEveryRun(DEPLOYED, start, run);
    TwiceCounts(log, i, j);
    assert Times(log, log[i]) <= Cap(log[i].slot.1);
  }

  // ----- Who may send what -----

  // Offers come from the sender, answers from the recipient, candidates from either.
  predicate Entitled(kind: MessageType, device: Id, r: Record) {
    && (kind == SdpOffer || kind == HandshakeOffer ==> device == r.sender)
    && (kind == SdpAnswer || kind == HandshakeAnswer ==> device == r.recipient)
    && (device == r.sender || device == r.recipient)
  }

  function Peer(device: Id, r: Record): Id {
    if device == r.sender then r.recipient else r.sender
  }

  // A message that fits a live transfer of the account which is still being set up.
  predicate Fitting(s: Relay, account: Id, device: Id, m: Message) {
    && m.wellShaped && m.version == 1 && m.sender != m.recipient && m.expiresAt > s.clock && m.transfer in s.records
    && var r := s.records[m.transfer];
       && r.user == account && Active(r.status) && r.expiresAt > s.clock && m.expiresAt <= r.expiresAt
       && r.version == m.version && r.sender == m.sender && r.recipient == m.recipient && Entitled(m.kind, device, r)
       && (r.status == Offered || r.status == Accepted || r.status == Negotiating)
  }

  // What is left of the budgets once stale ones are gone: one use of each single-use type and 64 candidates for a
  // device,
  // 128 messages for a transfer and 512 for an account.
  ghost predicate BudgetLeft(s: Relay, cfg: Config, account: Id, device: Id, m: Message) {
    var b := Pruned(s.budget, s.clock, cfg.retention);
    var mine := if m.transfer in b.usages then CountOf(b.usages[m.transfer], (device, m.kind)) else 0;
    && mine < (if m.kind == IceCandidate then 64 else 1)
    && (m.transfer in b.usages ==> b.usages[m.transfer].total < 128) && TotalOf(b, account) < 512
  }

  /** A message is forwarded, to the other participant, exactly when it fits and the budgets allow it and the peer's
      socket takes it; an offer of either kind that fits moves an accepted transfer to negotiating, and nothing else
      changes a record. */
  lemma {:induction false} ForwardsExactly(s: Relay, cfg: Config, account: Id, device: Id, m: Message, delivered: bool)
    requires Owned(s)
    ensures var s' := Forwarded(s, cfg, account, device, m, delivered);
            && (delivered && Fitting(s, account, device, m) && BudgetLeft(s, cfg, account, device, m) ==>
                  && s'.forwarded == s.forwarded + [Sent(m.transfer, (device, m.kind))]
                  && s'.targets == s.targets + [Peer(device, s.records[m.transfer])])
            && (!(delivered && Fitting(s, account, device, m) && BudgetLeft(s, cfg, account, device, m)) ==>
                  s'.forwarded == s.forwarded && s'.targets == s.targets)
    ensures var s' := Forwarded(s, cfg, account, device, m, delivered);
            if Fitting(s, account, device, m) && (m.kind == SdpOffer || m.kind == HandshakeOffer)
               && s.records[m.transfer].status == Accepted
            then s'.records.Keys == s.records.Keys && s'.records[m.transfer].status == Negotiating
                 && forall t :: t in s.records && t != m.transfer ==> s'.records[t] == s.records[t]
            else s'.records == s.records
  {
    hide Pruned, Released, StaleAt;
  }

  /** A message for a transfer that is over or past its deadline gives back what the transfer had used. */
  lemma {:induction false} DeadTransferIsReleased(
      s: Relay, cfg: Config, account: Id, device: Id, m: Message, delivered: bool)
    requires Owned(s) && m.wellShaped && m.version == 1 && m.sender != m.recipient && m.expiresAt > s.clock
    requires m.transfer in s.records && s.records[m.transfer].user == account
    requires !Active(s.records[m.transfer].status) || s.records[m.transfer].expiresAt <= s.clock
    ensures var s' := Forwarded(s, cfg, account, device, m, delivered);
            m.transfer !in s'.budget.usages && s' == s.(budget := s'.budget)
    ensures !Active(s.records[m.transfer].status) ==> m.transfer !in Step(s, cfg, Release(m.transfer)).budget.usages
  {
    hide Pruned, Charged;
  }

  // Everything that was forwarded came from a device that may send it, and went to the other one.
  ghost predicate Proper(s: Relay) {
    && |s.targets| == |s.forwarded|
    && forall i :: 0 <= i < |s.forwarded| ==> ProperlySent(s, s.forwarded[i], s.targets[i])
  }

  predicate ProperlySent(s: Relay, e: Sent, target: Id) {
    && e.transfer in s.records && Entitled(e.slot.1, e.slot.0, s.records[e.transfer])
    && target == Peer(e.slot.0, s.records[e.transfer])
  }

  lemma {:induction false} RecordsKeepProper(s: Relay, records: Records)
    requires Proper(s) && forall t :: t in s.records ==> t in records && SameTransfer(s.records[t], records[t])
    ensures Proper(s.(records := records))
  {
    var s' := s.(records := records);
    forall i | 0 <= i < |s'.forwarded| ensures ProperlySent(s', s'.forwarded[i], s'.targets[i]) {
      assert ProperlySent(s, s.forwarded[i], s.targets[i]);
    }
  }

  lemma {:induction false} OperationKeepsTransfers(records: Records, op: Op)
    ensures forall t :: t in records ==> t in Apply(records, op) && SameTransfer(records[t], Apply(records, op)[t])
  {
    forall t | t in records ensures t in Apply(records, op) && SameTransfer(records[t], Apply(records, op)[t]) {
      StepLaw(records, op, t);
    }
  }

  lemma {:induction false} ForwardKeepsProper(
      s: Relay, cfg: Config, account: Id, device: Id, m: Message, delivered: bool)
    requires Owned(s) && Proper(s)
    ensures Proper(Forwarded(s, cfg, account, device, m, delivered))
  {
    var s' := Forwarded(s, cfg, account, device, m, delivered);
    ForwardsExactly(s, cfg, account, device, m, delivered);
    ForwardKeepsTransfers(s, cfg, account, device, m, delivered);
    hide Forwarded, Fitting, BudgetLeft, Proper;
    RecordsKeepProper(s, s'.records);
    ProperSame(s.(records := s'.records), s'.clock, s'.budget);
    if s'.forwarded != s.forwarded {
      ProperAppend(s'.(forwarded := s.forwarded, targets := s.targets), Sent(m.transfer, (device, m.kind)),
                   Peer(device, s.records[m.transfer]));
    }
  }

  lemma {:induction false} ProperSame(s: Relay, clock: int, budget: Budget)
    requires Proper(s)
    ensures Proper(s.(clock := clock, budget := budget))
  {
    var s' := s.(clock := clock, budget := budget);
    forall i | 0 <= i < |s'.forwarded| ensures ProperlySent(s', s'.forwarded[i], s'.targets[i]) {
      assert ProperlySent(s, s.forwarded[i], s.targets[i]);
    }
  }

  lemma {:induction false} ProperAppend(s: Relay, e: Sent, target: Id)
    requires Proper(s) && ProperlySent(s, e, target)
    ensures Proper(s.(forwarded := s.forwarded + [e], targets := s.targets + [target]))
  {
    var s' := s.(forwarded := s.forwarded + [e], targets := s.targets + [target]);
    forall i | 0 <= i < |s'.forwarded| ensures ProperlySent(s', s'.forwarded[i], s'.targets[i]) {
      if i < |s.forwarded| {
        assert ProperlySent(s, s.forwarded[i], s.targets[i]);
      }
    }
  }

  lemma {:induction false} ForwardKeepsTransfers(
      s: Relay, cfg: Config, account: Id, device: Id, m: Message, delivered: bool)
    requires Owned(s)
    ensures var s' := Forwarded(s, cfg, account, device, m, delivered);
            && (forall t :: t in s.records ==> t in s'.records && SameTransfer(s.records[t], s'.records[t]))
            && (s'.forwarded != s.forwarded ==>
                  ProperlySent(s', Sent(m.transfer, (device, m.kind)), Peer(device, s.records[m.transfer])))
  {
    hide Pruned, Released, StaleAt, Charged, Apply;
    if m.transfer in s.records {
      OperationKeepsTransfers(s.records, Transition(account, m.transfer, Accepted, Negotiating, s.clock, s.clock));
    }
  }

  /** In every run, whatever the configuration, each forwarded offer came from the transfer's sender, each answer from
      its
      recipient and each candidate from one of the two, and all went to the other one. */
  lemma {:induction false} OnlyTheEntitledAreForwarded(cfg: Config, start: int, run: seq<Action>)
    ensures Proper(Exec(cfg, start, run))
  {
    if run != [] {
      var init, a := run[..|run| - 1], run[|run| - 1];
      OnlyTheEntitledAreForwarded(cfg, start, init);
      BudgetsConservedInEveryRun(cfg, start, init);
      var s := Exec(cfg, start, init);
      hide Exec, Proper, Owned, Forwarded, Apply, Conserved;
      ProperSame(s, Step(s, cfg, a).clock, Step(s, cfg, a).budget);
      match a
      case Forward(account, device, m, delivered) => ForwardKeepsProper(s, cfg, account, device, m, delivered);
      case Offer(id, account, sender, recipient, now, stamp) =>
        var op := Create(id, account, sender, recipient, 1, now + cfg.lifetime, stamp);
        OperationKeepsTransfers(s.records, op);
        RecordsKeepProper(s, Apply(s.records, op));
      case Repository(op) =>
        OperationKeepsTransfers(s.records, op);
        RecordsKeepProper(s, Apply(s.records, op));
      case _ =>
    }
  }

  // ----- The retention is what makes it work -----

  // One transfer from device 1 to device 2 of account 0, whose offer is sent, forgotten and sent again.
  function ReplayRun(cfg: Config): seq<Action> {
    var m := Message(SdpOffer, 1, 7, 1, 2, cfg.lifetime, true);
    [Offer(7, 0, 1, 2, 0, 0), Forward(0, 1, m, true), Tick(cfg.retention), Forward(0, 1, m, true)]
  }

  // The only record, the only use and the only message of that run.
  function ReplayRecord(cfg: Config): Record {
    Record(7, 0, 1, 2, 1, Offered, 0, cfg.lifetime, None, None, None, false)
  }

  const REPLAY_USE: Budget := Budget(map[7 := Usage(0, 0, 1, map[(1, SdpOffer) := 1])], map[0 := 1])
  const REPLAYED: Sent := Sent(7, (1, SdpOffer))

  lemma {:induction false} ReplayStart(cfg: Config)
    requires cfg.retention < cfg.lifetime
    ensures var run := ReplayRun(cfg);
            var none := Budget(map[], map[]);
            var offered := Relay(0, map[7 := ReplayRecord(cfg)], none, [], []);
            && Step(Relay(0, map[], none, [], []), cfg, run[0]) == offered
            && Step(offered, cfg, run[1]) == Relay(0, map[7 := ReplayRecord(cfg)], REPLAY_USE, [REPLAYED], [2])
  {
    var none: Budget := Budget(map[], map[]);
    assert StaleAt(none.usages, 0, cfg.retention) == {};
  }

  lemma {:induction false} ReplayForgets(cfg: Config)
    ensures Pruned(REPLAY_USE, cfg.retention, cfg.retention) == Budget(map[], map[])
  {
    assert StaleAt(REPLAY_USE.usages, cfg.retention, cfg.retention) == {7};
    var t :| t in {7} && ReleasedAll(REPLAY_USE, {7}) == ReleasedAll(Released(REPLAY_USE, t), {7} - {t});
    assert {7} - {7} == {};
    assert Released(REPLAY_USE, 7) == Budget(map[], map[]);
  }

  lemma {:induction false} ReplayEnd(cfg: Config)
    requires cfg.retention < cfg.lifetime
    ensures var run := ReplayRun(cfg);
            var later := Relay(cfg.retention, map[7 := ReplayRecord(cfg)], REPLAY_USE, [REPLAYED], [2]);
            && Step(Relay(0, map[7 := ReplayRecord(cfg)], REPLAY_USE, [REPLAYED], [2]), cfg, run[2]) == later
            && Step(later, cfg, run[3]).forwarded == [REPLAYED] + [REPLAYED]
  {
    hide Pruned;
    ReplayForgets(cfg);
  }

  lemma {:induction false} ReplayWhenForgottenEarly(cfg: Config)
    requires cfg.retention < cfg.lifetime
    ensures Times(Exec(cfg, 0, ReplayRun(cfg)).forwarded, Sent(7, (1, SdpOffer))) == 2
  {
    hide Step;
    var run := ReplayRun(cfg);
    ReplayStart(cfg);
    ReplayEnd(cfg);
    assert run[..4] == run && run[..3][..2] == run[..2] && run[..3][..2][..1] == run[..1] && run[..1][..0] == [];
    assert Exec(cfg, 0, run[..1][..0]) == Relay(0, map[], Budget(map[], map[]), [], []);
    assert Exec(cfg, 0, run[..1]) == Step(Exec(cfg, 0, run[..0]), cfg, run[0]);
    assert Exec(cfg, 0, run[..2]) == Step(Exec(cfg, 0, run[..1]), cfg, run[1]);
    assert Exec(cfg, 0, run[..3]) == Step(Exec(cfg, 0, run[..2]), cfg, run[2]);
    assert ([REPLAYED] + [REPLAYED])[..1] == [REPLAYED] && [REPLAYED][..0] == [];
    assert Times([REPLAYED], REPLAYED) == 1;
  }

  /** The caps hold in every run exactly when the retention is at least the transfer lifetime. */
  lemma {:induction false} RetentionIsExact(cfg: Config)
    ensures (forall start: int, run: seq<Action> {:induction false} :: CapsHold(Exec(cfg, start, run).forwarded))
       <==> cfg.retention >= cfg.lifetime
  {
    if cfg.retention >= cfg.lifetime {
      forall start: int, run: seq<Action> ensures CapsHold(Exec(cfg, start, run).forwarded) {
        CapsHoldInEveryRun(cfg, start, run);
      }
    } else {
      ReplayWhenForgottenEarly(cfg);
      assert !CapsHold(Exec(cfg, 0, ReplayRun(cfg)).forwarded);
    }
  }
}
