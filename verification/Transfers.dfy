/** Transfer records and their status-changing operations (backend/app/repositories/transfers.py). */
module TransferRecords {
  import opened Outcomes
  import opened Names

  datatype Status =
    | Offered | Accepted | Negotiating | Connected | Transferring
    | Completed | Rejected | Expired | Cancelled | Failed

  predicate Active(s: Status) {
    s in {Offered, Accepted, Negotiating, Connected, Transferring}
  }

  predicate Failable(s: Status) {
    s in {Accepted, Negotiating, Connected, Transferring}
  }

  // The transition table.
  predicate ValidTransition(from: Status, to: Status) {
    match from
    case Offered => to in {Accepted, Rejected, Expired, Cancelled}
    case Accepted => to in {Negotiating, Cancelled, Failed, Expired}
    case Negotiating => to in {Connected, Cancelled, Failed, Expired}
    case Connected => to in {Transferring, Cancelled, Failed, Expired}
    case Transferring => to in {Completed, Cancelled, Failed, Expired}
    case _ => false
  }

  function Rank(s: Status): nat {
    match s
    case Offered => 0
    case Accepted => 1
    case Negotiating => 2
    case Connected => 3
    case Transferring => 4
    case _ => 5
  }

  datatype Record = Record(
    id: Id, user: Id, sender: Id, recipient: Id, version: int, status: Status,
    createdAt: int, expiresAt: int, acceptedAt: Option<int>, completedAt: Option<int>,
    failureCode: Option<string>, relayUsed: bool)

  type Records = map<Id, Record>

  // What a device does to a transfer it takes part in.
  datatype Deed = Accept | Reject | Cancel | Fail(code: string)

  predicate DeedFrom(d: Deed, s: Status) {
    match d
    case Accept => s == Offered
    case Reject => s == Offered
    case Cancel => Active(s)
    case Fail(_) => Failable(s)
  }

  function DeedTo(d: Deed): Status {
    match d case Accept => Accepted case Reject => Rejected case Cancel => Cancelled case Fail(_) => Failed
  }

  predicate DeedBy(d: Deed, r: Record, actor: Id) {
    if d.Accept? || d.Reject? then actor == r.recipient else actor == r.sender || actor == r.recipient
  }

  // One lock section of the repository. `now` is the clock value the operation read before taking the
  // lock, `stamp` the one it writes into the record.
  datatype Op =
    | Create(id: Id, account: Id, sender: Id, recipient: Id, version: int, expiresAt: int, now: int)
    | Transition(account: Id, id: Id, from: Status, to: Status, now: int, stamp: int)
    | Act(account: Id, id: Id, deed: Deed, actor: Id, actorActive: bool, now: int, stamp: int)
    | ExpireActive(account: Id, id: Id, now: int, stamp: int)
    | MarkRelayUsed(account: Id, id: Id, now: int)
    | AnnotateFailure(id: Id, code: string)

  function Updated(r: Record, status: Status, failureCode: Option<string>, stamp: int): Record {
    r.(status := status,
       acceptedAt := if r.acceptedAt.Some? then r.acceptedAt
                     else if status == Accepted || status == Cancelled then Some(stamp) else None,
       completedAt := if status == Completed then Some(stamp) else r.completedAt,
       failureCode := failureCode)
  }

  // The record the operation writes, if it writes one.
  function Outcome(rs: Records, op: Op): Option<Record> {
    match op
    case Create(id, account, sender, recipient, version, expiresAt, now) =>
      // Identifiers are fresh.
      if sender == recipient || id in rs then None
      else Some(Record(id, account, sender, recipient, version, Offered, now, expiresAt, None, None, None, false))
    case Transition(account, id, from, to, now, stamp) =>
      if !ValidTransition(from, to) || id !in rs || rs[id].user != account || rs[id].status != from then None
      else if to == Expired && rs[id].expiresAt > now then None
      else if to != Expired && rs[id].expiresAt <= now then None
      else Some(Updated(rs[id], to, None, stamp))
    case Act(account, id, deed, actor, actorActive, now, stamp) =>
      if !actorActive || id !in rs || rs[id].user != account || !DeedFrom(deed, rs[id].status)
         || rs[id].expiresAt <= now || !DeedBy(deed, rs[id], actor) then None
      else Some(Updated(rs[id], DeedTo(deed), if deed.Fail? then Some(deed.code) else None, stamp))
    case ExpireActive(account, id, now, stamp) =>
      if id !in rs || rs[id].user != account || !Active(rs[id].status) || rs[id].expiresAt > now then None
      else Some(Updated(rs[id], Expired, None, stamp))
    case MarkRelayUsed(account, id, now) =>
      if id !in rs || rs[id].user != account || !Active(rs[id].status) || rs[id].expiresAt <= now then None
      else Some(rs[id].(relayUsed := true))
    case AnnotateFailure(id, code) =>
      if id !in rs || rs[id].status != Failed then None else Some(rs[id].(failureCode := Some(code)))
  }

  function Apply(rs: Records, op: Op): Records {
    var r := Outcome(rs, op);
    if r.Some? then rs[op.id := r.value] else rs
  }

  function Run(rs: Records, ops: seq<Op>): Records {
    if ops == [] then rs else Apply(Run(rs, ops[..|ops| - 1]), ops[|ops| - 1])
  }

  // Everything about a record that no operation may touch.
  predicate SameTransfer(a: Record, b: Record) {
    a.id == b.id && a.user == b.user && a.sender == b.sender && a.recipient == b.recipient
    && a.version == b.version && a.createdAt == b.createdAt && a.expiresAt == b.expiresAt
  }

  /** What one operation may do to one record: keep its status, or follow the transition table, upwards in
      rank, on the right side of the deadline. */
  lemma StepLaw(rs: Records, op: Op, id: Id)
    requires id in rs
    ensures id in Apply(rs, op) && SameTransfer(rs[id], Apply(rs, op)[id])
    ensures op.id != id ==> Apply(rs, op)[id] == rs[id]
    ensures var s, s' := rs[id].status, Apply(rs, op)[id].status;
            s == s' || (&& ValidTransition(s, s')
                        && Rank(s) < Rank(s')
                        && !op.Create? && !op.AnnotateFailure?
                        && (s' == Expired <==> rs[id].expiresAt <= op.now))
  {
  }

  lemma {:induction false} RunKeepsTransfer(rs: Records, ops: seq<Op>, id: Id)
    requires id in rs
    ensures id in Run(rs, ops) && SameTransfer(rs[id], Run(rs, ops)[id])
    ensures Rank(rs[id].status) <= Rank(Run(rs, ops)[id].status)
    ensures !Active(rs[id].status) ==> Run(rs, ops)[id].status == rs[id].status
  {
    if ops != [] {
      RunKeepsTransfer(rs, ops[..|ops| - 1], id);
      StepLaw(Run(rs, ops[..|ops| - 1]), ops[|ops| - 1], id);
    }
  }

  // The statuses a record goes through, each written once.
  function Statuses(rs: Records, ops: seq<Op>, id: Id): seq<Status>
    requires id in rs
    ensures |Statuses(rs, ops, id)| > 0
  {
    if ops == [] then [rs[id].status] else
      RunKeepsTransfer(rs, ops[..|ops| - 1], id);
      StepLaw(Run(rs, ops[..|ops| - 1]), ops[|ops| - 1], id);
      var path := Statuses(rs, ops[..|ops| - 1], id);
      var s := Run(rs, ops)[id].status;
      if s == path[|path| - 1] then path else path + [s]
  }

  predicate IsPath(p: seq<Status>) {
    forall i :: 0 < i < |p| ==> ValidTransition(p[i - 1], p[i])
  }

  /** Every run moves a transfer along a path of the transition table that ends in its present status. */
  lemma {:induction false} LifecyclePath(rs: Records, ops: seq<Op>, id: Id)
    requires id in rs
    ensures var p := Statuses(rs, ops, id);
            && IsPath(p) && p[0] == rs[id].status
            && id in Run(rs, ops) && p[|p| - 1] == Run(rs, ops)[id].status
  {
    if ops != [] {
      LifecyclePath(rs, ops[..|ops| - 1], id);
      StepLaw(Run(rs, ops[..|ops| - 1]), ops[|ops| - 1], id);
    }
  }

  lemma {:induction false} PathsAreShort(p: seq<Status>)
    requires |p| > 0 && IsPath(p)
    ensures |p| - 1 <= Rank(p[|p| - 1]) - Rank(p[0])
    ensures p[|p| - 1] == Completed && p[0] == Offered ==>
      p == [Offered, Accepted, Negotiating, Connected, Transferring, Completed]
    ensures p[|p| - 1] in {Accepted, Negotiating, Connected, Transferring} && p[0] == Offered ==>
      p == [Offered, Accepted, Negotiating, Connected, Transferring][..|p|]
  {
    if |p| > 1 {
      var init := p[..|p| - 1];
      assert ValidTransition(p[|p| - 2], p[|p| - 1]);
      PathsAreShort(init);
      assert p == init + [p[|p| - 1]];
    }
  }

  /** A transfer changes status at most five times, and a completed one went through every stage. */
  lemma {:induction false} LifecycleMeasure(rs: Records, ops: seq<Op>, id: Id)
    requires id in rs && rs[id].status == Offered
    ensures |Statuses(rs, ops, id)| - 1 <= 5
    ensures id in Run(rs, ops)
    ensures Run(rs, ops)[id].status == Completed ==>
      Statuses(rs, ops, id) == [Offered, Accepted, Negotiating, Connected, Transferring, Completed]
  {
    LifecyclePath(rs, ops, id);
    PathsAreShort(Statuses(rs, ops, id));
  }

  function NextStage(s: Status): Status {
    match s
    case Offered => Accepted
    case Accepted => Negotiating
    case Negotiating => Connected
    case Connected => Transferring
    case Transferring => Completed
    case _ => s
  }

  /** The table, told apart by direction: an active transfer can go to its next stage, be cancelled or expire; an offer
      can be rejected, and only later stages can fail. Nothing leaves a terminal status. */
  lemma {:induction false} TableIsExact(from: Status, to: Status)
    ensures ValidTransition(from, to) <==>
              Active(from) && (|| to == NextStage(from) || to == Cancelled || to == Expired
                               || (to == Rejected && from == Offered) || (to == Failed && from != Offered))
  {
  }

  // The operation asks for the status, on behalf of somebody who may ask for it.
  predicate AsksFor(op: Op, r: Record, s: Status) {
    match op
    case Transition(account, _, from, to, _, _) => account == r.user && to == s && ValidTransition(from, s)
    case ExpireActive(account, _, _, _) => account == r.user && s == Expired
    case Act(account, _, deed, actor, actorActive, _, _) =>
      && account == r.user && actorActive
      && (|| (s == Accepted && deed == Accept && actor == r.recipient)
          || (s == Rejected && deed == Reject && actor == r.recipient)
          || (s == Cancelled && deed == Cancel && (actor == r.sender || actor == r.recipient))
          || (s == Failed && deed.Fail? && (actor == r.sender || actor == r.recipient)))
    case _ => false
  }

  /** A status changes only by an operation on that record that asks for the new status: to Accepted or Rejected by the
      recipient, to Cancelled or Failed by a participant, or by an explicit transition or expiry of the owner's. */
  lemma {:induction false} ChangesAreAskedFor(rs: Records, op: Op, id: Id)
    requires id in rs && Apply(rs, op)[id].status != rs[id].status
    ensures op.id == id && AsksFor(op, rs[id], Apply(rs, op)[id].status)
  {
  }

  /** What an entitled, active device asks for before the deadline happens. */
  lemma {:induction false} DeedsHappen(rs: Records, id: Id, actor: Id, code: string, now: int, stamp: int)
    requires id in rs && rs[id].expiresAt > now
    ensures var r := rs[id];
            && (r.status == Offered && actor == r.recipient ==>
                  && Apply(rs, Act(r.user, id, Accept, actor, true, now, stamp))[id].status == Accepted
                  && Apply(rs, Act(r.user, id, Reject, actor, true, now, stamp))[id].status == Rejected)
            && (Active(r.status) && (actor == r.sender || actor == r.recipient) ==>
                  Apply(rs, Act(r.user, id, Cancel, actor, true, now, stamp))[id].status == Cancelled)
            && (Active(r.status) && r.status != Offered && (actor == r.sender || actor == r.recipient) ==>
                  var failed := Apply(rs, Act(r.user, id, Fail(code), actor, true, now, stamp))[id];
                  failed.status == Failed && failed.failureCode == Some(code))
  {
  }

  /** Every edge of the table can be taken before the deadline, expiry at or after it. */
  lemma {:induction false} TransitionsHappen(rs: Records, id: Id, to: Status, now: int, stamp: int)
    requires id in rs && ValidTransition(rs[id].status, to) && (to == Expired <==> rs[id].expiresAt <= now)
    ensures Apply(rs, Transition(rs[id].user, id, rs[id].status, to, now, stamp))[id].status == to
    ensures to == Expired ==> Apply(rs, ExpireActive(rs[id].user, id, now, stamp))[id].status == Expired
  {
  }

  /** A failure code is written to failed records only, and the use of a relay is noted for an active transfer before
      its deadline only; neither changes anything else. */
  lemma {:induction false} NotesHappen(rs: Records, id: Id, code: string, now: int)
    requires id in rs
    ensures Apply(rs, AnnotateFailure(id, code))
         == if rs[id].status == Failed then rs[id := rs[id].(failureCode := Some(code))] else rs
    ensures Apply(rs, MarkRelayUsed(rs[id].user, id, now))
         == if Active(rs[id].status) && rs[id].expiresAt > now then rs[id := rs[id].(relayUsed := true)] else rs
  {
  }

  /** A transfer its recipient rejected in time is rejected in every later state. */
  lemma {:induction false} RejectionIsFinal(rs: Records, id: Id, now: int, stamp: int, ops: seq<Op>)
    requires id in rs && rs[id].status == Offered && rs[id].expiresAt > now
    ensures var rejected := Apply(rs, Act(rs[id].user, id, Reject, rs[id].recipient, true, now, stamp));
            id in Run(rejected, ops) && Run(rejected, ops)[id].status == Rejected
  {
    DeedsHappen(rs, id, rs[id].recipient, "", now, stamp);
    RunKeepsTransfer(Apply(rs, Act(rs[id].user, id, Reject, rs[id].recipient, true, now, stamp)), ops, id);
  }

  // Some operation of the run asks for the status.
  ghost predicate AskedIn(ops: seq<Op>, r: Record, s: Status) {
    exists i :: 0 <= i < |ops| && ops[i].id == r.id && AsksFor(ops[i], r, s)
  }

  /** Every status a transfer goes through in a run was asked for by an operation of that run. */
  lemma {:induction false} EveryStageWasAskedFor(rs: Records, ops: seq<Op>, id: Id)
    requires id in rs && rs[id].id == id
    ensures forall i :: 0 < i < |Statuses(rs, ops, id)| ==> AskedIn(ops, rs[id], Statuses(rs, ops, id)[i])
    decreases |ops|
  {
    if ops != [] {
      hide Apply, AsksFor, ValidTransition;
      var init, last := ops[..|ops| - 1], ops[|ops| - 1];
      EveryStageWasAskedFor(rs, init, id);
      LifecyclePath(rs, init, id);
      RunKeepsTransfer(rs, init, id);
      StepLaw(Run(rs, init), last, id);
      var path := Statuses(rs, init, id);
      forall i | 0 < i < |Statuses(rs, ops, id)| ensures AskedIn(ops, rs[id], Statuses(rs, ops, id)[i]) {
        if i < |path| {
          assert AskedIn(init, rs[id], path[i]);
          var j :| 0 <= j < |init| && init[j].id == id && AsksFor(init[j], rs[id], path[i]);
          assert ops[j] == init[j];
        } else {
          ChangesAreAskedFor(Run(rs, init), last, id);
          SameAsker(last, Run(rs, init)[id], rs[id], Statuses(rs, ops, id)[i]);
          assert ops[|ops| - 1] == last;
        }
      }
    }
  }

  lemma {:induction false} SameAsker(op: Op, r: Record, r': Record, s: Status)
    requires AsksFor(op, r, s) && SameTransfer(r', r)
    ensures AsksFor(op, r', s)
  {
  }

  // What the timestamps, the failure code and the status say about each other.
  predicate WellStamped(r: Record) {
    && (r.completedAt.Some? <==> r.status == Completed)
    && (r.acceptedAt.Some? ==> r.status != Offered && r.status != Rejected)
    && (r.status in {Accepted, Negotiating, Connected, Transferring, Completed, Cancelled} ==> r.acceptedAt.Some?)
    && (r.failureCode.Some? ==> r.status == Failed)
  }

  lemma {:induction false} StepKeepsStamps(rs: Records, op: Op, id: Id)
    requires forall t :: t in rs ==> WellStamped(rs[t])
    requires id in Apply(rs, op)
    ensures WellStamped(Apply(rs, op)[id])
    ensures id in rs ==>
              && (rs[id].acceptedAt.Some? ==> Apply(rs, op)[id].acceptedAt == rs[id].acceptedAt)
              && (rs[id].acceptedAt.None? && Apply(rs, op)[id].acceptedAt.Some? ==>
                    (op.Transition? || op.Act?) && Apply(rs, op)[id].acceptedAt == Some(op.stamp))
              && (rs[id].completedAt.None? && Apply(rs, op)[id].completedAt.Some? ==>
                    op.Transition? && Apply(rs, op)[id].completedAt == Some(op.stamp))
              && (rs[id].relayUsed ==> Apply(rs, op)[id].relayUsed)
              && (Apply(rs, op)[id].relayUsed && !rs[id].relayUsed ==> op.MarkRelayUsed?)
  {
  }

  /** In every run from an empty repository a transfer has a completion time exactly when it is completed, an acceptance
      time once it was accepted or cancelled and never before, and a failure code only when it failed. */
  lemma {:induction false} StampsFollowStatus(ops: seq<Op>, id: Id)
    requires id in Run(map[], ops)
    ensures WellStamped(Run(map[], ops)[id])
    decreases |ops|
  {
    if ops != [] {
      hide Apply, WellStamped;
      var init := ops[..|ops| - 1];
      forall t | t in Run(map[], init) ensures WellStamped(Run(map[], init)[t]) {
        StampsFollowStatus(init, t);
      }
      StepKeepsStamps(Run(map[], init), ops[|ops| - 1], id);
    }
  }

  /** A failed record is only ever annotated, so writing back a copy held since the failure loses nothing. */
  lemma {:induction false} HeldFailureIsCurrent(rs: Records, ops: seq<Op>, id: Id, code: string)
    requires id in rs && rs[id].status == Failed
    ensures id in Run(rs, ops)
    ensures rs[id].(failureCode := Some(code)) == Run(rs, ops)[id].(failureCode := Some(code))
  {
    if ops != [] {
      HeldFailureIsCurrent(rs, ops[..|ops| - 1], id, code);
      RunKeepsTransfer(rs, ops[..|ops| - 1], id);
      StepLaw(Run(rs, ops[..|ops| - 1]), ops[|ops| - 1], id);
    }
  }

  /** The in-memory repository. */
  class InMemoryTransferRequestRepository {
    var records: Records

    constructor ()
      ensures records == map[]
    {
      records := map[];
    }

    method Create(id: Id, account: Id, sender: Id, recipient: Id, version: int, expiresAt: int, now: int)
      returns (result: Result<Record>)
      requires id !in records
      modifies this
      ensures records == Apply(old(records), Op.Create(id, account, sender, recipient, version, expiresAt, now))
      ensures result.Err? <==> sender == recipient
      ensures result.Ok? ==> id in records && result.value == records[id]
    {
      if sender == recipient {
        return Err("ValueError");
      }
      var record := Record(id, account, sender, recipient, version, Offered, now, expiresAt, None, None, None, false);
      records := records[id := record];
      return Ok(record);
    }

    method Transition(account: Id, id: Id, from: Status, to: Status, now: int, stamp: int)
      returns (result: Option<Record>)
      modifies this
      ensures result == Outcome(old(records), Op.Transition(account, id, from, to, now, stamp))
      ensures records == Apply(old(records), Op.Transition(account, id, from, to, now, stamp))
    {
      if !ValidTransition(from, to) || id !in records {
        return None;
      }
      var record := records[id];
      if record.user != account || record.status != from {
        return None;
      }
      if to == Expired {
        if record.expiresAt > now {
          return None;
        }
      } else if record.expiresAt <= now {
        return None;
      }
      var updated := Updated(record, to, None, stamp);
      records := records[id := updated];
      return Some(updated);
    }

    method ActorTransition(account: Id, id: Id, deed: Deed, actor: Id, actorActive: bool, now: int, stamp: int)
      returns (result: Option<Record>)
      modifies this
      ensures result == Outcome(old(records), Act(account, id, deed, actor, actorActive, now, stamp))
      ensures records == Apply(old(records), Act(account, id, deed, actor, actorActive, now, stamp))
    {
      if !actorActive || id !in records {
        return None;
      }
      var record := records[id];
      if record.user != account || !DeedFrom(deed, record.status) || record.expiresAt <= now
         || !DeedBy(deed, record, actor) {
        return None;
      }
      var updated := Updated(record, DeedTo(deed), if deed.Fail? then Some(deed.code) else None, stamp);
      records := records[id := updated];
      return Some(updated);
    }

    // First as an offer, then as any active transfer; the two sections read the clock one after the other.
    method Expire(account: Id, id: Id, now: int, later: int, stamp: int) returns (result: Option<Record>)
      requires now <= later
      modifies this
      ensures result.Some? <==> id in old(records) && old(records)[id].user == account
                                && Active(old(records)[id].status) && old(records)[id].expiresAt <= later
      ensures result.Some? ==> records == old(records)[id := result.value] && result.value.status == Expired
                               && SameTransfer(result.value, old(records)[id])
      ensures result.None? ==> records == old(records)
    {
      result := Transition(account, id, Offered, Expired, now, stamp);
      if result.None? {
        if id in records && records[id].user == account && Active(records[id].status)
            && records[id].expiresAt <= later {
          result := Some(Updated(records[id], Expired, None, stamp));
          records := records[id := result.value];
        }
      }
    }

    // Failing without naming an actor tries every failable status and then adds the code. Each try reads the clock.
    method FailUnattributed(
        account: Id, id: Id, code: string, clock: seq<int>, stamp: int) returns (result: Option<Record>)
      requires |clock| == 4
      modifies this
      ensures result.Some? <==> id in old(records) && old(records)[id].user == account
                                && Failable(old(records)[id].status)
                                && old(records)[id].expiresAt > clock[Rank(old(records)[id].status) - 1]
      ensures result.Some? ==> result.value == Updated(old(records)[id], Failed, Some(code), stamp)
                               && records == old(records)[id := result.value]
      ensures result.None? ==> records == old(records)
    {
      var statuses := [Accepted, Negotiating, Connected, Transferring];
      for i := 0 to 4
        invariant records == old(records)
        invariant forall j :: 0 <= j < i ==>
          Outcome(records, Op.Transition(account, id, statuses[j], Failed, clock[j], stamp)).None?
      {
        result := Transition(account, id, statuses[i], Failed, clock[i], stamp);
        if result.Some? {
          result := Some(result.value.(failureCode := Some(code)));
          records := records[id := result.value];
          return;
        }
      }
      if id in records && Failable(records[id].status) {
        var s := records[id].status;
        assert s == statuses[0] || s == statuses[1] || s == statuses[2] || s == statuses[3];
      }
      return None;
    }
  }
}

/** The active-transfer limits of backend/app/transfers.py, over every interleaving of offers and transitions. */
module TransferCapacity {
  import opened Sets
  import opened Names
  import opened Outcomes
  import opened TransferRecords

  const MAX_ACTIVE_TRANSFERS_PER_ACCOUNT := 8
  const MAX_ACTIVE_TRANSFERS_PER_DEVICE := 4

  // The transfers of an account that are active and not past their deadline at `now`.
  function ActiveOf(rs: Records, account: Id, now: int): set<Id> {
    set id | id in rs && rs[id].user == account && Active(rs[id].status) && rs[id].expiresAt > now
  }

  function ActiveOn(rs: Records, account: Id, device: Id, now: int): set<Id> {
    set id | id in ActiveOf(rs, account, now) && (rs[id].sender == device || rs[id].recipient == device)
  }

  // _ensure_capacity
  predicate HasCapacity(rs: Records, account: Id, sender: Id, recipient: Id, now: int) {
    && |ActiveOf(rs, account, now)| < MAX_ACTIVE_TRANSFERS_PER_ACCOUNT
    && |ActiveOn(rs, account, sender, now)| < MAX_ACTIVE_TRANSFERS_PER_DEVICE
    && |ActiveOn(rs, account, recipient, now)| < MAX_ACTIVE_TRANSFERS_PER_DEVICE
  }

  // A create_offer call that holds the capacity lock and has passed the check.
  datatype Held = Held(account: Id, sender: Id, recipient: Id, now: int)

  datatype Service = Service(records: Records, clock: int, holder: Option<Held>)

  // `CheckCapacity` takes the lock with a clock value read at any earlier time; `Insert` creates the record and
  // releases the lock; `Abandon` releases it because the insertion was refused. Any other repository
  // operation may run in between.
  datatype Action =
    | Tick(elapsed: nat)
    | CheckCapacity(account: Id, sender: Id, recipient: Id, now: int)
    | Insert(id: Id, lifetime: int, stamp: int)
    | Abandon
    | Other(op: Op)

  function Step(s: Service, a: Action): Service {
    match a
    case Tick(elapsed) => s.(clock := s.clock + elapsed)
    case CheckCapacity(account, sender, recipient, now) =>
      if s.holder.None? && now <= s.clock && sender != recipient
          && HasCapacity(s.records, account, sender, recipient, now)
      then s.(holder := Some(Held(account, sender, recipient, now))) else s
    case Insert(id, lifetime, stamp) =>
      if s.holder.None? then s else
        var h := s.holder.value;
        s.(records := Apply(s.records, Create(id, h.account, h.sender, h.recipient, 1, h.now + lifetime, stamp)),
           holder := None)
    case Abandon => s.(holder := None)
    case Other(op) => if op.Create? then s else s.(records := Apply(s.records, op))
  }

  function Exec(s: Service, run: seq<Action>): Service {
    if run == [] then s else Step(Exec(s, run[..|run| - 1]), run[|run| - 1])
  }

  // A call that holds the lock has a place reserved for it.
  function ReservedFor(s: Service, account: Id): nat {
    if s.holder.Some? && s.holder.value.account == account then 1 else 0
  }

  function ReservedOn(s: Service, account: Id, device: Id): nat {
    if s.holder.Some? && s.holder.value.account == account
       && (s.holder.value.sender == device || s.holder.value.recipient == device) then 1 else 0
  }

  ghost predicate WithinLimits(s: Service) {
    && (forall a: Id :: |ActiveOf(s.records, a, s.clock)| + ReservedFor(s, a) <= MAX_ACTIVE_TRANSFERS_PER_ACCOUNT)
    && (forall a: Id, d: Id ::
          |ActiveOn(s.records, a, d, s.clock)| + ReservedOn(s, a, d) <= MAX_ACTIVE_TRANSFERS_PER_DEVICE)
  }

  // Later clocks and non-creating operations only shrink the active sets.
  lemma ActiveShrinks(rs: Records, rs': Records, account: Id, device: Id, now: int, now': int)
    requires now <= now'
    requires forall id :: id in rs' ==>
               id in rs && SameTransfer(rs[id], rs'[id]) && (Active(rs'[id].status) ==> Active(rs[id].status))
    ensures |ActiveOf(rs', account, now')| <= |ActiveOf(rs, account, now)|
    ensures |ActiveOn(rs', account, device, now')| <= |ActiveOn(rs, account, device, now)|
  {
    SubsetSize(ActiveOf(rs', account, now'), ActiveOf(rs, account, now));
    SubsetSize(ActiveOn(rs', account, device, now'), ActiveOn(rs, account, device, now));
  }

  lemma InsertAddsOne(rs: Records, r: Record, account: Id, device: Id, now: int)
    requires r.id !in rs
    ensures |ActiveOf(rs[r.id := r], account, now)| <= |ActiveOf(rs, account, now)|
            + (if r.user == account then 1 else 0)
    ensures |ActiveOn(rs[r.id := r], account, device, now)|
         <= |ActiveOn(rs, account, device, now)| + (if r.user == account
             && (r.sender == device || r.recipient == device) then 1 else 0)
  {
    var rs' := rs[r.id := r];
    SubsetSize(ActiveOf(rs', account, now), ActiveOf(rs, account, now) + (if r.user == account then {r.id} else {}));
    SubsetSize(ActiveOn(rs', account, device, now),
               ActiveOn(rs, account, device, now) + (if r.user == account
                   && (r.sender == device || r.recipient == device) then {r.id} else {}));
  }

  lemma StepKeepsLimitsOf(s: Service, a: Action, account: Id, d: Id)
    requires WithinLimits(s)
    ensures var s' := Step(s, a);
            && |ActiveOf(s'.records, account, s'.clock)| + ReservedFor(s', account) <= MAX_ACTIVE_TRANSFERS_PER_ACCOUNT
            && |ActiveOn(s'.records, account, d, s'.clock)| + ReservedOn(s', account,
               d) <= MAX_ACTIVE_TRANSFERS_PER_DEVICE
  {
    var s' := Step(s, a);
    match a
    case Tick(_) => ActiveShrinks(s.records, s.records, account, d, s.clock, s'.clock);
    case CheckCapacity(_, _, _, now) =>
      if s' != s {
        ActiveShrinks(s.records, s.records, account, d, now, s.clock);
      }
    case Insert(id, lifetime, stamp) =>
      if s.holder.Some? && s'.records != s.records {
        InsertAddsOne(s.records, s'.records[id], account, d, s.clock);
      }
    case Abandon =>
    case Other(op) =>
      if !op.Create? {
        OperationsShrink(s.records, op, account, d, s.clock);
      }
  }

  lemma {:induction false} OperationsShrink(rs: Records, op: Op, account: Id, d: Id, now: int)
    requires !op.Create?
    ensures |ActiveOf(Apply(rs, op), account, now)| <= |ActiveOf(rs, account, now)|
    ensures |ActiveOn(Apply(rs, op), account, d, now)| <= |ActiveOn(rs, account, d, now)|
  {
    forall id | id in rs { StepLaw(rs, op, id); }
    ActiveShrinks(rs, Apply(rs, op), account, d, now, now);
  }

  lemma StepKeepsLimits(s: Service, a: Action)
    requires WithinLimits(s)
    ensures WithinLimits(Step(s, a))
  {
    forall account: Id, d: Id { StepKeepsLimitsOf(s, a, account, d); }
    forall account: Id { StepKeepsLimitsOf(s, a, account, account); }
  }

  /** At every instant of every interleaving an account has at most 8 active transfers and a device at most 4,
      although every offer is checked against a clock value read before it took the lock. */
  lemma {:induction false} CapacityAtEveryInstant(run: seq<Action>, start: int)
    ensures var s := Exec(Service(map[], start, None), run);
            && WithinLimits(s)
            && (forall a: Id :: |ActiveOf(s.records, a, s.clock)| <= 8)
            && (forall a: Id, d: Id :: |ActiveOn(s.records, a, d, s.clock)| <= 4)
  {
    var init := Service(map[], start, None);
    if run == [] {
      forall a: Id, d: Id ensures ActiveOf(init.records, a, start) == {} && ActiveOn(init.records, a, d, start) == {} {
      }
    } else {
      CapacityAtEveryInstant(run[..|run| - 1], start);
      StepKeepsLimits(Exec(init, run[..|run| - 1]), run[|run| - 1]);
    }
  }

  /** An offer below the limits is admitted, with the deadline one lifetime after the clock value that was checked. */
  lemma {:induction false} OffersBelowLimitsAreMade(
      s: Service, id: Id, account: Id, sender: Id, recipient: Id, now: int, lifetime: int, stamp: int)
    requires s.holder.None? && now <= s.clock && sender != recipient && id !in s.records
    requires |set t | t in s.records && s.records[t].user == account && Active(s.records[t].status)
                      && s.records[t].expiresAt > now| <= 7
    requires |ActiveOn(s.records, account, sender, now)| <= 3 && |ActiveOn(s.records, account, recipient, now)| <= 3
    ensures var checked := Step(s, CheckCapacity(account, sender, recipient, now));
            var made := Step(checked, Insert(id, lifetime, stamp));
            && checked.holder.Some? && made.holder.None?
            && made.records == s.records[id := Record(id, account, sender, recipient, 1, Offered, stamp,
                                                      now + lifetime, None, None, None, false)]
  {
    hide ActiveOn;
    assert ActiveOf(s.records, account, now)
        == set t | t in s.records && s.records[t].user == account && Active(s.records[t].status)
                   && s.records[t].expiresAt > now;
  }
}
