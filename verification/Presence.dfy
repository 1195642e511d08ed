/** The socket registry of the presence manager (backend/app/presence.py). */
module SocketRegistry {
  import opened Sets
  import opened Names
  import opened Outcomes
  import opened Sums

  const MAX_CONNECTIONS_PER_ACCOUNT := 8
  const MAX_TOTAL_CONNECTIONS := 512

  datatype Connection = Connection(id: Id, account: Id, device: Id, session: Id, lastHeartbeatAt: int)

  type Sockets = map<Id, Connection>

  // `queues` holds the identifiers that own an outbound queue. `pending` holds the sockets that a pruning pass
  // has removed but whose queues it has not dropped yet; `used` every identifier ever registered, with the
  // account and device it was registered for.
  datatype Registry = Registry(connections: map<Id, Sockets>, queues: set<Id>, pending: set<Id>, used: map<Id,
      (Id, Id)>)

  const EMPTY := Registry(map[], {}, {}, map[])

  function SocketsOf(r: Registry, account: Id): Sockets {
    if account in r.connections then r.connections[account] else map[]
  }

  function SocketOf(r: Registry, account: Id, device: Id): Option<Connection> {
    if device in SocketsOf(r, account) then Some(SocketsOf(r, account)[device]) else None
  }

  // The account's map, or no entry when it became empty.
  function WithSockets(r: Registry, account: Id, s: Sockets): map<Id, Sockets> {
    if s == map[] then r.connections - {account} else r.connections[account := s]
  }

  predicate Current(r: Registry, c: Connection) {
    var s := SocketsOf(r, c.account);
    c.device in s && s[c.device].id == c.id
  }

  function Size(s: Sockets): nat {
    |s|
  }

  function Sizes(m: map<Id, Sockets>): map<Id, nat> {
    map a | a in m :: Size(m[a])
  }

  // active_socket_count
  ghost function SocketCount(r: Registry): nat {
    Sum(Sizes(r.connections))
  }

  predicate Stale(c: Connection, now: int, timeout: int) {
    c.lastHeartbeatAt + timeout <= now
  }

  function LiveSockets(s: Sockets, now: int, timeout: int): Sockets {
    map d | d in s && !Stale(s[d], now, timeout) :: s[d]
  }

  // What a pruning pass over some accounts leaves, and the sockets it takes away.
  function Pruned(m: map<Id, Sockets>, accounts: set<Id>, now: int, timeout: int): map<Id, Sockets> {
    map a | a in m && (a in accounts ==> LiveSockets(m[a], now, timeout) != map[])
      :: if a in accounts then LiveSockets(m[a], now, timeout) else m[a]
  }

  function ExpiredOf(s: Sockets, now: int, timeout: int): set<Id> {
    set d | d in s && Stale(s[d], now, timeout) :: s[d].id
  }

  function ExpiredIn(m: map<Id, Sockets>, accounts: set<Id>, now: int, timeout: int): set<Id> {
    set a, d | a in m && a in accounts && d in m[a] && Stale(m[a][d], now, timeout) :: m[a][d].id
  }

  // One section under the lock. A pruning pass covers one account or all of them.
  datatype Action =
    | Register(c: Connection)
    | Remove(c: Connection)
    | Heartbeat(c: Connection, now: int)
    | DisconnectDevice(account: Id, device: Id)
    | DisconnectAccount(account: Id)
    | Prune(accounts: set<Id>, now: int, timeout: int)
    | DropQueue(id: Id)

  ghost function Step(r: Registry, a: Action): Registry {
    match a
    case Register(c) =>
      var s := SocketsOf(r, c.account);
      if c.id in r.used then r                       // identifiers are fresh
      else if c.device !in s && (|s| >= MAX_CONNECTIONS_PER_ACCOUNT || SocketCount(r) >= MAX_TOTAL_CONNECTIONS) then r
      else r.(connections := r.connections[c.account := s[c.device := c]],
              queues := (if c.device in s then r.queues - {s[c.device].id} else r.queues) + {c.id},
              used := r.used[c.id := (c.account, c.device)])
    case Remove(c) =>
      if !Current(r, c) then r
      else r.(connections := WithSockets(r, c.account, SocketsOf(r, c.account) - {c.device}),
          queues := r.queues - {c.id})
    case Heartbeat(c, now) =>
      if !Current(r, c) then r
      else
        var s := SocketsOf(r, c.account);
        r.(connections := r.connections[c.account := s[c.device := s[c.device].(lastHeartbeatAt := now)]])
    case DisconnectDevice(account, device) =>
      var s := SocketsOf(r, account);
      if device !in s then r
      else r.(connections := WithSockets(r, account, s - {device}), queues := r.queues - {s[device].id})
    case DisconnectAccount(account) => r.(connections := r.connections - {account})
    case Prune(accounts, now, timeout) =>
      r.(connections := Pruned(r.connections, accounts, now, timeout),
         pending := r.pending + ExpiredIn(r.connections, accounts, now, timeout))
    case DropQueue(id) =>
      if id !in r.pending then r else r.(queues := r.queues - {id}, pending := r.pending - {id})
  }

  ghost function Exec(run: seq<Action>): Registry {
    if run == [] then EMPTY else Step(Exec(run[..|run| - 1]), run[|run| - 1])
  }

  // A socket is filed under its own account and device, owns a queue, and is not about to lose it.
  ghost predicate Filed(r: Registry, a: Id, d: Id, c: Connection) {
    && c.account == a && c.device == d
    && c.id in r.used && r.used[c.id] == (a, d)
    && c.id in r.queues && c.id !in r.pending
  }

  ghost predicate SocketsOk(r: Registry, a: Id, s: Sockets) {
    0 < |s| <= MAX_CONNECTIONS_PER_ACCOUNT && forall d :: d in s ==> Filed(r, a, d, s[d])
  }

  ghost predicate Safe(r: Registry) {
    && (forall a :: a in r.connections ==> SocketsOk(r, a, r.connections[a]))
    && r.pending <= r.used.Keys
    && SocketCount(r) <= MAX_TOTAL_CONNECTIONS
  }

  lemma SizesUpdate(m: map<Id, Sockets>, a: Id, s: Sockets)
    ensures Sizes(m[a := s]) == Sizes(m)[a := Size(s)]
    ensures Sizes(m - {a}) == Sizes(m) - {a}
  {
    hide Size;
  }

  lemma CountUpdate(m: map<Id, Sockets>, a: Id, s: Sockets)
    ensures Sum(Sizes(m[a := s])) == Sum(Sizes(m)) + Size(s) - (if a in m then Size(m[a]) else 0)
    ensures Sum(Sizes(m - {a})) == Sum(Sizes(m)) - (if a in m then Size(m[a]) else 0)
  {
    hide Size, Sum;
    var sizes := Sizes(m);
    SizesUpdate(m, a, s);
    SumUpdate(sizes, a, Size(s));
    if a in m {
      SumRemove(sizes, a);
    } else {
      assert sizes - {a} == sizes;
    }
  }

  lemma NoSockets()
    ensures Sum(Sizes(map[])) == 0
  {
    assert Sizes(map[]) == map[];
  }

  // `t` holds only sockets of `s`, each with its identity.
  ghost predicate Within(t: Sockets, s: Sockets) {
    forall d :: d in t ==> d in s && t[d].id == s[d].id && t[d].account == s[d].account && t[d].device == s[d].device
  }

  lemma WithinSize(t: Sockets, s: Sockets)
    requires Within(t, s)
    ensures |t| <= |s|
  {
    SubsetSize(t.Keys, s.Keys);
    assert |t| == |t.Keys| && |s| == |s.Keys|;
  }

  // The shape of every section that takes sockets away: the rest keep their queues.
  lemma ShrinkIsSafe(r: Registry, a: Id, t: Sockets, queues: set<Id>, pending: set<Id>)
    requires Safe(r) && Within(t, SocketsOf(r, a)) && pending <= r.used.Keys
    // Only queues that were dropped by this section, or that it marks, belong to sockets it took away.
    requires forall id :: id in r.used && id in r.queues && id !in r.pending && (id !in queues || id in pending) ==>
      r.used[id].0 == a && forall d :: d in t ==> t[d].id != id
    ensures Safe(Registry(WithSockets(r, a, t), queues, pending, r.used))
  {
    var r' := Registry(WithSockets(r, a, t), queues, pending, r.used);
    WithinSize(t, SocketsOf(r, a));
    CountUpdate(r.connections, a, t);
    forall b | b in r'.connections ensures SocketsOk(r', b, r'.connections[b]) {
      assert SocketsOk(r, b, r.connections[b]);
      forall d | d in r'.connections[b] ensures Filed(r', b, d, r'.connections[b][d]) {
        assert Filed(r, b, d, r.connections[b][d]);
      }
      if b == a {
        assert t != map[];
        assert |t| > 0;
      }
    }
  }

  // The new socket is filed; the others stay filed, because only the replaced socket's queue goes.
  lemma RegisterFiles(r: Registry, c: Connection, a: Id, d: Id)
    requires Safe(r) && Step(r, Register(c)) != r
    requires a in Step(r, Register(c)).connections && d in Step(r, Register(c)).connections[a]
    ensures Filed(Step(r, Register(c)), a, d, Step(r, Register(c)).connections[a][d])
  {
    if c.account in r.connections && c.device in r.connections[c.account] {
      assert SocketsOk(r, c.account, r.connections[c.account]);
      assert Filed(r, c.account, c.device, r.connections[c.account][c.device]);
    }
    if !(a == c.account && d == c.device) {
      assert SocketsOk(r, a, r.connections[a]) && Filed(r, a, d, r.connections[a][d]);
    }
  }

  lemma RegisterCounts(r: Registry, c: Connection)
    requires Safe(r) && Step(r, Register(c)) != r
    ensures 0 < |Step(r, Register(c)).connections[c.account]| <= MAX_CONNECTIONS_PER_ACCOUNT
    ensures SocketCount(Step(r, Register(c))) <= MAX_TOTAL_CONNECTIONS
  {
    var s := SocketsOf(r, c.account);
    ExtendedSize(s, c.device, c);
    CountUpdate(r.connections, c.account, s[c.device := c]);
    if c.account in r.connections {
      assert SocketsOk(r, c.account, s);
    }
  }

  lemma ExtendedSize(s: Sockets, d: Id, c: Connection)
    ensures |s[d := c]| == |s| + (if d in s then 0 else 1)
  {
    assert s[d := c].Keys == s.Keys + {d};
    assert |s[d := c]| == |s[d := c].Keys| && |s| == |s.Keys|;
  }

  lemma RegisterIsSafe(r: Registry, c: Connection)
    requires Safe(r)
    ensures Safe(Step(r, Register(c)))
  {
    var r' := Step(r, Register(c));
    if r' != r {
      RegisterCounts(r, c);
      forall a | a in r'.connections ensures SocketsOk(r', a, r'.connections[a]) {
        forall d | d in r'.connections[a] { RegisterFiles(r, c, a, d); }
        if a != c.account { assert SocketsOk(r, a, r.connections[a]); }
      }
    }
  }

  lemma TakeAwayIsSafe(r: Registry, account: Id, device: Id)
    requires Safe(r) && account in r.connections && device in r.connections[account]
    ensures var s := r.connections[account];
            Safe(r.(connections := WithSockets(r, account, s - {device}), queues := r.queues - {s[device].id}))
  {
    var s := r.connections[account];
    assert SocketsOk(r, account, s) && Filed(r, account, device, s[device]);
    forall d | d in s - {device} ensures s[d].id != s[device].id {
      assert Filed(r, account, d, s[d]);
    }
    ShrinkIsSafe(r, account, s - {device}, r.queues - {s[device].id}, r.pending);
  }

  // The pass over one account.
  function PrunedOne(r: Registry, account: Id, now: int, timeout: int): Registry {
    var s := SocketsOf(r, account);
    r.(connections := WithSockets(r, account, LiveSockets(s, now, timeout)),
        pending := r.pending + ExpiredOf(s, now, timeout))
  }

  lemma {:induction false} PruneOneIsSafe(r: Registry, account: Id, now: int, timeout: int)
    requires Safe(r)
    ensures Safe(PrunedOne(r, account, now, timeout))
  {
    var s := SocketsOf(r, account);
    var gone := ExpiredOf(s, now, timeout);
    if account in r.connections {
      assert SocketsOk(r, account, s);
      forall d | d in s ensures Filed(r, account, d, s[d]) && (s[d].id in gone ==> Stale(s[d], now, timeout)) {
        assert Filed(r, account, d, s[d]);
        if s[d].id in gone {
          var e :| e in s && Stale(s[e], now, timeout) && s[e].id == s[d].id;
          assert Filed(r, account, e, s[e]);
        }
      }
    }
    ShrinkIsSafe(r, account, LiveSockets(s, now, timeout), r.queues, r.pending + gone);
  }

  // A pass over several accounts is one over the first and then one over the rest.
  lemma {:induction false} PruneSplits(r: Registry, accounts: set<Id>, account: Id, now: int, timeout: int)
    requires account in accounts
    ensures Pruned(r.connections, accounts, now, timeout)
         == Pruned(PrunedOne(r, account, now, timeout).connections, accounts - {account}, now, timeout)
  {
    hide Stale;
    var m, m' := r.connections, PrunedOne(r, account, now, timeout).connections;
    assert forall a :: a != account ==> (a in m <==> a in m') && (a in m ==> m[a] == m'[a]);
  }

  lemma {:induction false} ExpirySplits(r: Registry, accounts: set<Id>, account: Id, now: int, timeout: int)
    requires account in accounts
    ensures ExpiredIn(r.connections, accounts, now, timeout)
         == ExpiredOf(SocketsOf(r, account), now, timeout)
            + ExpiredIn(PrunedOne(r, account, now, timeout).connections, accounts - {account}, now, timeout)
  {
    hide Stale, LiveSockets;
    var m, m' := r.connections, PrunedOne(r, account, now, timeout).connections;
    assert forall a :: a != account ==> (a in m <==> a in m') && (a in m ==> m[a] == m'[a]);
  }

  lemma {:induction false} PruneNothing(m: map<Id, Sockets>, now: int, timeout: int)
    ensures Pruned(m, {}, now, timeout) == m && ExpiredIn(m, {}, now, timeout) == {}
  {
  }

  lemma {:induction false} PruneIsSafe(r: Registry, accounts: set<Id>, now: int, timeout: int)
    requires Safe(r)
    ensures Safe(Step(r, Prune(accounts, now, timeout)))
    decreases |accounts|
  {
    if accounts == {} {
      PruneNothing(r.connections, now, timeout);
    } else {
      hide Safe, Pruned, ExpiredIn, ExpiredOf;
      var account :| account in accounts;
      var r' := PrunedOne(r, account, now, timeout);
      PruneOneIsSafe(r, account, now, timeout);
      PruneIsSafe(r', accounts - {account}, now, timeout);
      PruneSplits(r, accounts, account, now, timeout);
      ExpirySplits(r, accounts, account, now, timeout);
      assert Step(r, Prune(accounts, now, timeout)) == Step(r', Prune(accounts - {account}, now, timeout));
    }
  }

  lemma StepIsSafe(r: Registry, a: Action)
    requires Safe(r)
    ensures Safe(Step(r, a))
  {
    match a
    case Register(c) => RegisterIsSafe(r, c);
    case Remove(c) =>
      if Current(r, c) {
        TakeAwayIsSafe(r, c.account, c.device);
      }
    case Heartbeat(c, now) =>
      if Current(r, c) {
        var s := SocketsOf(r, c.account);
        ShrinkIsSafe(r, c.account, s[c.device := s[c.device].(lastHeartbeatAt := now)], r.queues, r.pending);
      }
    case DisconnectDevice(account, device) =>
      if device in SocketsOf(r, account) {
        TakeAwayIsSafe(r, account, device);
      }
    case DisconnectAccount(account) => ShrinkIsSafe(r, account, map[], r.queues, r.pending);
    case Prune(accounts, now, timeout) => PruneIsSafe(r, accounts, now, timeout);
    case DropQueue(id) =>
      var r' := Step(r, a);
      forall b | b in r'.connections ensures SocketsOk(r', b, r'.connections[b]) {
        assert SocketsOk(r, b, r.connections[b]);
        forall d | d in r.connections[b] ensures Filed(r', b, d, r.connections[b][d]) {
          assert Filed(r, b, d, r.connections[b][d]);
        }
      }
  }

  /** In every interleaving of lock sections: at most 8 sockets an account and 512 in all, no empty account map,
      and every registered socket owns its own outbound queue, which no pending clean-up will take away. */
  lemma {:induction false} RegistrySafety(run: seq<Action>)
    ensures Safe(Exec(run)) && SocketCount(Exec(run)) <= 512
    ensures forall a :: a in Exec(run).connections ==> 0 < |Exec(run).connections[a]| <= 8
  {
    if run == [] {
      assert Sizes(EMPTY.connections) == map[];
    } else {
      RegistrySafety(run[..|run| - 1]);
      StepIsSafe(Exec(run[..|run| - 1]), run[|run| - 1]);
    }
  }

  ghost predicate Registered(r: Registry, a: Id, d: Id, id: Id) {
    a in r.connections && d in r.connections[a] && r.connections[a][d].id == id
  }

  // An identifier that was registered once and is not registered now.
  ghost predicate Superseded(r: Registry, id: Id) {
    id in r.used && forall a, d :: !Registered(r, a, d, id)
  }

  lemma SupersededStaysSuperseded(r: Registry, a: Action, id: Id)
    requires Superseded(r, id)
    ensures Superseded(Step(r, a), id)
  {
    var r' := Step(r, a);
    forall b, d ensures !Registered(r', b, d, id) {
      assert !Registered(r, b, d, id);
    }
  }

  ghost function After(r: Registry, run: seq<Action>): Registry {
    if run == [] then r else Step(After(r, run[..|run| - 1]), run[|run| - 1])
  }

  /** Once a socket has been replaced or removed, nothing its old handle does later changes the registry. */
  lemma {:induction false} SupersededIsPowerless(r: Registry, run: seq<Action>, c: Connection, now: int)
    requires Superseded(r, c.id)
    ensures var r' := After(r, run);
            && Superseded(r', c.id)
            && !Current(r', c)
            && Step(r', Remove(c)) == r'
            && Step(r', Heartbeat(c, now)) == r'
  {
    if run != [] {
      SupersededIsPowerless(r, run[..|run| - 1], c, now);
      SupersededStaysSuperseded(After(r, run[..|run| - 1]), run[|run| - 1], c.id);
    }
    assert !Registered(After(r, run), c.account, c.device, c.id);
  }

  // Registering a newer socket of a device is what supersedes the older one.
  lemma ReplacementSupersedes(r: Registry, c: Connection)
    requires Safe(r) && c.id !in r.used && c.device in SocketsOf(r, c.account)
    ensures Superseded(Step(r, Register(c)), SocketsOf(r, c.account)[c.device].id)
  {
    var before := SocketsOf(r, c.account)[c.device];
    assert SocketsOk(r, c.account, r.connections[c.account]) && Filed(r, c.account, c.device, before);
    forall a, d ensures !Registered(Step(r, Register(c)), a, d, before.id) {
      if a in r.connections && d in r.connections[a] {
        assert SocketsOk(r, a, r.connections[a]) && Filed(r, a, d, r.connections[a][d]);
      }
    }
  }

  // ----- When sockets come and go -----

  /** A new identifier is registered exactly when its device has a socket already or the account has fewer than 8
      sockets and the server fewer than 512; nothing else changes. */
  lemma {:induction false} RegistersExactly(r: Registry, c: Connection)
    requires c.id !in r.used
    ensures var s, r' := SocketsOf(r, c.account), Step(r, Register(c));
            && (SocketOf(r', c.account, c.device) == Some(c) && c.id in r'.queues
                <==> c.device in s || (|s| < 8 && SocketCount(r) < 512))
            && (!(c.device in s || (|s| < 8 && SocketCount(r) < 512)) ==> r' == r)
            && forall a: Id, d: Id :: (a, d) != (c.account, c.device) ==> SocketOf(r', a, d) == SocketOf(r, a, d)
  {
    hide SocketCount;
  }

  // The sections that take a socket away.
  predicate TakesAway(r: Registry, action: Action, c: Connection) {
    match action
    case Register(n) => n.account == c.account && n.device == c.device && n.id !in r.used
    case Remove(handle) => handle.account == c.account && handle.device == c.device && handle.id == c.id
    case Heartbeat(_, _) => false
    case DisconnectDevice(account, device) => account == c.account && device == c.device
    case DisconnectAccount(account) => account == c.account
    case Prune(accounts, now, timeout) => c.account in accounts && c.lastHeartbeatAt + timeout <= now
    case DropQueue(_) => false
  }

  lemma {:induction false} WithoutDevice(r: Registry, account: Id, device: Id, a: Id, d: Id)
    ensures SocketOf(r.(connections := WithSockets(r, account, SocketsOf(r, account) - {device})), a, d)
         == if a == account && d == device then None else SocketOf(r, a, d)
  {
    if a == account && d != device && d in SocketsOf(r, a) { assert d in SocketsOf(r, a) - {device}; }
  }

  lemma {:induction false} PrunedSocket(r: Registry, accounts: set<Id>, now: int, timeout: int, a: Id, d: Id)
    ensures var c := SocketOf(r, a, d);
            SocketOf(Step(r, Prune(accounts, now, timeout)), a, d)
            == if c.Some? && a in accounts && Stale(c.value, now, timeout) then None else c
  {
    hide Stale;
    var c := SocketOf(r, a, d);
    if c.Some? && a in accounts && !Stale(c.value, now, timeout) {
      assert d in LiveSockets(r.connections[a], now, timeout);
    }
  }

  lemma {:induction false} RegisteredAnew(r: Registry, n: Connection, a: Id, d: Id)
    requires SocketOf(r, a, d).Some?
    ensures SocketOf(Step(r, Register(n)), a, d)
         == if n.account == a && n.device == d && n.id !in r.used then Some(n) else SocketOf(r, a, d)
  {
    hide SocketCount;
  }

  lemma {:induction false} HeartbeatSocket(r: Registry, handle: Connection, now: int, a: Id, d: Id)
    requires SocketOf(r, a, d).Some?
    ensures SocketOf(Step(r, Heartbeat(handle, now)), a, d).Some?
            && SocketOf(Step(r, Heartbeat(handle, now)), a, d).value.id == SocketOf(r, a, d).value.id
  {
  }

  lemma {:induction false} RegisteredSocket(r: Registry, a: Id, d: Id, id: Id)
    ensures Registered(r, a, d, id) <==> SocketOf(r, a, d).Some? && SocketOf(r, a, d).value.id == id
  {
  }

  lemma {:induction false} FiledSocket(r: Registry, a: Id, d: Id)
    requires Safe(r) && SocketOf(r, a, d).Some?
    ensures Filed(r, a, d, SocketOf(r, a, d).value)
  {
    hide SocketCount;
    assert SocketsOk(r, a, r.connections[a]);
  }

  /** A registered socket goes exactly with its own removal, its device's or account's disconnection, its replacement,
      or a pruning pass of its account at least the timeout after its last heartbeat. */
  lemma {:induction false} SocketGoesExactly(r: Registry, action: Action, a: Id, d: Id)
    requires Safe(r) && SocketOf(r, a, d).Some?
    ensures var c := SocketOf(r, a, d).value;
            Registered(Step(r, action), a, d, c.id) <==> !TakesAway(r, action, c)
  {
    FiledSocket(r, a, d);
    hide SocketCount, Safe, Registered, Pruned, ExpiredIn, WithSockets, SocketsOf;
    var c := SocketOf(r, a, d).value;
    RegisteredSocket(Step(r, action), a, d, c.id);
    match action
    case Register(n) => RegisteredAnew(r, n, a, d);
    case Heartbeat(handle, now) => HeartbeatSocket(r, handle, now, a, d);
    case Prune(accounts, now, timeout) => PrunedSocket(r, accounts, now, timeout, a, d);
    case Remove(handle) => WithoutDevice(r, handle.account, handle.device, a, d);
    case DisconnectDevice(account, device) => WithoutDevice(r, account, device, a, d);
    case _ =>
  }

  /** A heartbeat of the current socket is recorded and nothing else changes. */
  lemma {:induction false} HeartbeatIsRecorded(r: Registry, c: Connection, now: int)
    requires Current(r, c)
    ensures var r' := Step(r, Heartbeat(c, now));
            && SocketOf(r', c.account, c.device)
               == Some(SocketOf(r, c.account, c.device).value.(lastHeartbeatAt := now))
            && (forall a: Id, d: Id :: (a, d) != (c.account, c.device) ==> SocketOf(r', a, d) == SocketOf(r, a, d))
            && r'.queues == r.queues && r'.pending == r.pending && r'.used == r.used
  {
  }

  // What may happen while a socket that was refreshed at `t` has to stay: its heartbeats do not go back in time.
  predicate Spares(action: Action, a: Id, d: Id, id: Id, t: int) {
    match action
    case Register(c) => !(c.account == a && c.device == d)
    case Remove(c) => !(c.account == a && c.device == d && c.id == id)
    case Heartbeat(c, now) => c.account == a && c.device == d && c.id == id ==> now >= t
    case DisconnectDevice(account, device) => !(account == a && device == d)
    case DisconnectAccount(account) => account != a
    case Prune(accounts, now, timeout) => a in accounts ==> now < t + timeout
    case DropQueue(_) => true
  }

  // The heartbeat of a socket that stays.
  lemma {:induction false} StepSpares(r: Registry, action: Action, a: Id, d: Id, id: Id, t: int)
    requires Safe(r) && Registered(r, a, d, id) && r.connections[a][d].lastHeartbeatAt >= t
             && Spares(action, a, d, id, t)
    ensures var r' := Step(r, action); Registered(r', a, d, id) && r'.connections[a][d].lastHeartbeatAt >= t
  {
    hide SocketCount;
    SocketGoesExactly(r, action, a, d);
  }

  /** A socket refreshed at `t` outlives every run in which nobody disconnects or replaces it and every pruning pass
      comes before t + timeout. */
  lemma {:induction false} HeartbeatProtects(r: Registry, run: seq<Action>, a: Id, d: Id, id: Id, t: int)
    requires Safe(r) && Registered(r, a, d, id) && r.connections[a][d].lastHeartbeatAt >= t
    requires forall i :: 0 <= i < |run| ==> Spares(run[i], a, d, id, t)
    ensures var r' := After(r, run);
            Safe(r') && Registered(r', a, d, id) && r'.connections[a][d].lastHeartbeatAt >= t && id in r'.queues
  {
    hide Safe, Registered, Spares, Step;
    if run != [] {
      var init := run[..|run| - 1];
      HeartbeatProtects(r, init, a, d, id, t);
      StepIsSafe(After(r, init), run[|run| - 1]);
      StepSpares(After(r, init), run[|run| - 1], a, d, id, t);
    }
    OwnsQueue(After(r, run), a, d, id);
  }

  lemma {:induction false} OwnsQueue(r: Registry, a: Id, d: Id, id: Id)
    requires Safe(r) && Registered(r, a, d, id)
    ensures id in r.queues && id !in r.pending
  {
    assert SocketsOk(r, a, r.connections[a]) && Filed(r, a, d, r.connections[a][d]);
  }

  /** A socket that is silent for the timeout goes in the first pruning pass of its account after that, and the pass
      has its queue dropped. */
  lemma {:induction false} SilentSocketGoes(r: Registry, accounts: set<Id>, a: Id, d: Id, now: int, timeout: int)
    requires Safe(r) && SocketOf(r, a, d).Some? && a in accounts
    requires SocketOf(r, a, d).value.lastHeartbeatAt + timeout <= now
    ensures var id, r' := SocketOf(r, a, d).value.id, Step(r, Prune(accounts, now, timeout));
            && SocketOf(r', a, d) == None && id in r'.pending && Superseded(r', id)
            && id !in Step(r', DropQueue(id)).queues
  {
    var c, r' := SocketOf(r, a, d).value, Step(r, Prune(accounts, now, timeout));
    assert SocketsOk(r, a, r.connections[a]) && Filed(r, a, d, c);
    forall b, e ensures !Registered(r', b, e, c.id) {
      if b in r.connections && e in r.connections[b] {
        assert SocketsOk(r, b, r.connections[b]) && Filed(r, b, e, r.connections[b][e]);
      }
    }
  }

  // ----- Which queues there are -----

  // The identifier is registered, for the account and the device it was used for.
  ghost predicate Lives(r: Registry, id: Id) {
    id in r.used && Registered(r, r.used[id].0, r.used[id].1, id)
  }

  // The socket lost its registration when its whole account was disconnected.
  ghost predicate Forgotten(run: seq<Action>, id: Id) {
    if run == [] then false
    else
      var init, a := run[..|run| - 1], run[|run| - 1];
      Forgotten(init, id)
      || (a.DisconnectAccount? && Lives(Exec(init), id) && Exec(init).used[id].0 == a.account)
  }

  ghost predicate Tallies(r: Registry, id: Id, forgotten: bool) {
    && (id in r.queues <==> Lives(r, id) || id in r.pending || forgotten)
    && (forgotten ==> id in r.used && !Lives(r, id) && id !in r.pending)
  }

  // Under its own account and device, and only there.
  lemma {:induction false} LivesWhereFiled(r: Registry, a: Id, d: Id)
    requires Safe(r) && SocketOf(r, a, d).Some?
    ensures var id := SocketOf(r, a, d).value.id;
            Lives(r, id) && r.used[id] == (a, d) && id in r.queues && id !in r.pending
  {
    hide SocketCount;
    assert SocketsOk(r, a, r.connections[a]) && Filed(r, a, d, r.connections[a][d]);
  }

  lemma {:induction false} RegisterTallies(r: Registry, c: Connection, id: Id, forgotten: bool)
    requires Safe(r) && Tallies(r, id, forgotten)
    ensures Tallies(Step(r, Register(c)), id, forgotten)
  {
    hide SocketCount;
    if SocketOf(r, c.account, c.device).Some? { LivesWhereFiled(r, c.account, c.device); }
  }

  // A pruning pass takes away exactly what it marks.
  lemma {:induction false} PruneLives(r: Registry, accounts: set<Id>, now: int, timeout: int, id: Id)
    requires Safe(r)
    ensures var expired := ExpiredIn(r.connections, accounts, now, timeout);
            && (id in expired ==> Lives(r, id))
            && (Lives(Step(r, Prune(accounts, now, timeout)), id) <==> Lives(r, id) && id !in expired)
  {
    hide SocketCount, Stale, Safe;
    if id in ExpiredIn(r.connections, accounts, now, timeout) {
      var a, d :| a in r.connections && a in accounts && d in r.connections[a]
        && Stale(r.connections[a][d], now, timeout) && r.connections[a][d].id == id;
      assert SocketOf(r, a, d).Some?;
      LivesWhereFiled(r, a, d);
    } else if Lives(r, id) {
      var (a, d) := r.used[id];
      if a in accounts { assert d in LiveSockets(r.connections[a], now, timeout); }
    }
  }

  lemma {:induction false} PruneTallies(
      r: Registry, accounts: set<Id>, now: int, timeout: int, id: Id, forgotten: bool)
    requires Safe(r) && Tallies(r, id, forgotten)
    ensures Tallies(Step(r, Prune(accounts, now, timeout)), id, forgotten)
  {
    hide SocketCount, Safe, Pruned, ExpiredIn, Lives;
    PruneLives(r, accounts, now, timeout, id);
  }

  lemma {:induction false} StepTallies(r: Registry, action: Action, id: Id, forgotten: bool)
    requires Safe(r) && Tallies(r, id, forgotten)
    ensures Tallies(Step(r, action), id, forgotten
                    || (action.DisconnectAccount? && Lives(r, id) && r.used[id].0 == action.account))
  {
    hide SocketCount, Pruned, ExpiredIn;
    if Lives(r, id) { LivesWhereFiled(r, r.used[id].0, r.used[id].1); }
    match action
    case Register(c) => RegisterTallies(r, c, id, forgotten);
    case Remove(c) =>
      if Current(r, c) {
        LivesWhereFiled(r, c.account, c.device);
        StillFiled(r, c.account, c.device, id);
      }
    case Heartbeat(c, now) =>
    case DisconnectDevice(account, device) =>
      if device in SocketsOf(r, account) {
        LivesWhereFiled(r, account, device);
        StillFiled(r, account, device, id);
      }
    case DisconnectAccount(account) =>
    case Prune(accounts, now, timeout) => PruneTallies(r, accounts, now, timeout, id, forgotten);
    case DropQueue(_) =>
  }

  // Taking one socket away leaves the others registered.
  lemma {:induction false} StillFiled(r: Registry, a: Id, d: Id, id: Id)
    requires Safe(r) && SocketOf(r, a, d).Some?
    ensures Lives(r.(connections := WithSockets(r, a, SocketsOf(r, a) - {d})), id)
       <==> Lives(r, id) && id != SocketOf(r, a, d).value.id
  {
    hide SocketCount;
    LivesWhereFiled(r, a, d);
    if Lives(r, id) && r.used[id].0 == a && r.used[id].1 != d {
      assert r.used[id].1 in SocketsOf(r, a) - {d};
    }
  }

  /** In every run there is a queue for exactly the registered sockets, those a pruning pass has taken away but not yet
      cleaned up after, and those forgotten when their account was disconnected. */
  lemma {:induction false} QueuesAreAccountedFor(run: seq<Action>, id: Id)
    ensures Tallies(Exec(run), id, Forgotten(run, id))
  {
    hide Tallies, Step;
    if run == [] {
      NoQueuesYet(id);
    } else {
      var init := run[..|run| - 1];
      QueuesAreAccountedFor(init, id);
      RegistrySafety(init);
      StepTallies(Exec(init), run[|run| - 1], id, Forgotten(init, id));
    }
  }

  lemma {:induction false} NoQueuesYet(id: Id)
    ensures Tallies(EMPTY, id, false)
  {
  }

  /** What disconnecting an account forgets is never cleaned up: the queue stays in every later state. */
  lemma {:induction false} ForgottenQueuesStay(run: seq<Action>, more: seq<Action>, id: Id)
    requires Forgotten(run, id)
    ensures id in Exec(run + more).queues && !Lives(Exec(run + more), id)
    decreases |more|
  {
    ForgottenGrows(run, more, id);
    QueuesAreAccountedFor(run + more, id);
  }

  lemma {:induction false} ForgottenGrows(run: seq<Action>, more: seq<Action>, id: Id)
    requires Forgotten(run, id)
    ensures Forgotten(run + more, id)
    decreases |more|
  {
    hide Exec;
    if more == [] {
      assert run + more == run;
    } else {
      var init := more[..|more| - 1];
      assert (run + more)[..|run + more| - 1] == run + init;
      ForgottenGrows(run, init, id);
    }
  }

  /** The registry's dictionaries. Every method body is one section under the lock. */
  class PresenceManager {
    var connections: map<Id, Sockets>
    var queues: set<Id>
    ghost var pending: set<Id>
    ghost var used: map<Id, (Id, Id)>

    ghost function View(): Registry
      reads this
    {
      Registry(connections, queues, pending, used)
    }

    constructor ()
      ensures View() == EMPTY
    {
      connections, queues, pending, used := map[], {}, {}, map[];
    }

    method ActiveSocketCount() returns (n: nat)
      ensures n == SocketCount(View())
    {
      hide Size, Sum;
      n := 0;
      assert Sizes(map[]) == map[];
      NoSockets();
      var rest := connections;
      while rest != map[]
        invariant n + Sum(Sizes(rest)) == SocketCount(View())
        decreases |rest|
      {
        var a :| a in rest;
        SumRemove(Sizes(rest), a);
        SizesUpdate(rest, a, map[]);
        n := n + Size(rest[a]);
        rest := rest - {a};
      }
    }

    method RegisterConnection(c: Connection) returns (previous: Result<Option<Connection>>)
      requires c.id !in used
      modifies this
      ensures View() == Step(old(View()), Register(c))
      ensures previous.Err? <==> c.id !in used
      ensures previous.Ok? ==> previous.value == SocketOf(old(View()), c.account, c.device)
    {
      var sockets := if c.account in connections then connections[c.account] else map[];
      var total := ActiveSocketCount();
      if c.device !in sockets && (|sockets| >= MAX_CONNECTIONS_PER_ACCOUNT || total >= MAX_TOTAL_CONNECTIONS) {
        return Err("ConnectionLimitError");
      }
      previous := Ok(if c.device in sockets then Some(sockets[c.device]) else None);
      var extended: Sockets := sockets[c.device := c];
      connections := connections[c.account := extended];
      if c.device in sockets {
        queues := queues - {sockets[c.device].id};
      }
      queues := queues + {c.id};
      used := used[c.id := (c.account, c.device)];
    }

    method RemoveConnection(c: Connection) returns (removed: bool)
      modifies this
      ensures View() == Step(old(View()), Remove(c)) && removed == Current(old(View()), c)
    {
      if c.account !in connections {
        return false;
      }
      var sockets := connections[c.account];
      if c.device !in sockets || sockets[c.device].id != c.id {
        return false;
      }
      sockets := sockets - {c.device};
      if sockets == map[] {
        connections := connections - {c.account};
      } else {
        connections := connections[c.account := sockets];
      }
      queues := queues - {c.id};
      return true;
    }

    method RefreshHeartbeat(c: Connection, now: int) returns (updated: Option<Connection>)
      modifies this
      ensures View() == Step(old(View()), Heartbeat(c, now)) && updated.Some? == Current(old(View()), c)
    {
      if c.account !in connections || c.device !in connections[c.account]
          || connections[c.account][c.device].id != c.id {
        return None;
      }
      var refreshed := connections[c.account][c.device].(lastHeartbeatAt := now);
      var sockets: Sockets := connections[c.account][c.device := refreshed];
      connections := connections[c.account := sockets];
      return Some(refreshed);
    }

    // The first section of prune_expired, for one account or for all: the stale sockets go, their queues stay for now.
    method PruneExpired(account: Option<Id>, now: int, timeout: int) returns (expired: set<Id>)
      modifies this
      ensures var accounts := if account.Some? then {account.value} else old(connections).Keys;
              View() == Step(old(View()), Prune(accounts, now, timeout))
              && expired == ExpiredIn(old(connections), accounts, now, timeout)
    {
      hide Pruned, ExpiredIn;
      var accounts := if account.Some? then {account.value} else connections.Keys;
      var live;
      live, expired := PruneAccounts(connections, accounts, now, timeout);
      connections := live;
      pending := pending + expired;
    }
  }

  // The loop over the accounts of a pruning pass.
  method PruneAccounts(m: map<Id, Sockets>, accounts: set<Id>, now: int, timeout: int)
    returns (live: map<Id, Sockets>, expired: set<Id>)
    ensures live == Pruned(m, accounts, now, timeout) && expired == ExpiredIn(m, accounts, now, timeout)
  {
    hide LiveSockets, Pruned, ExpiredIn, ExpiredOf;
    PruneNothing(m, now, timeout);
    live, expired := m, {};
    var rest := accounts;
    ghost var done := {};
    while rest != {}
      invariant done !! rest && done + rest == accounts
      invariant live == Pruned(m, done, now, timeout) && expired == ExpiredIn(m, done, now, timeout)
      decreases |rest|
    {
      var account :| account in rest;
      PruneOneMore(m, done, account, now, timeout);
      rest, done := rest - {account}, done + {account};
      if account in live {
        var sockets, gone := SplitStale(live[account], now, timeout);
        expired := expired + gone;
        live := if sockets == map[] then live - {account} else live[account := sockets];
      }
    }
    assert done == accounts;
  }

  // One turn of that loop.
  lemma {:induction false} PruneOneMore(m: map<Id, Sockets>, done: set<Id>, account: Id, now: int, timeout: int)
    requires account !in done
    ensures var before, after := Pruned(m, done, now, timeout), Pruned(m, done + {account}, now, timeout);
            && (account in before <==> account in m)
            && (account !in m ==>
                  after == before && ExpiredIn(m, done + {account}, now, timeout) == ExpiredIn(m, done, now, timeout))
            && (account in m ==>
                  && before[account] == m[account]
                  && (var live := LiveSockets(m[account], now, timeout);
                      after == if live == map[] then before - {account} else before[account := live])
                  && ExpiredIn(m, done + {account}, now, timeout)
                     == ExpiredIn(m, done, now, timeout) + ExpiredOf(m[account], now, timeout))
  {
    hide LiveSockets, Stale;
  }

  method SplitStale(s: Sockets, now: int, timeout: int) returns (live: Sockets, expired: set<Id>)
    ensures live == LiveSockets(s, now, timeout)
    ensures expired == ExpiredOf(s, now, timeout)
  {
    live, expired := s, {};
    var rest := s.Keys;
    while rest != {}
      invariant rest <= s.Keys
      invariant live == map d | d in s && (d in rest || !Stale(s[d], now, timeout)) :: s[d]
      invariant expired == set d | d in s && d !in rest && Stale(s[d], now, timeout) :: s[d].id
      decreases |rest|
    {
      var device :| device in rest;
      if Stale(s[device], now, timeout) {
        expired := expired + {s[device].id};
        live := live - {device};
      }
      rest := rest - {device};
    }
  }
}

/** The bounded writer queue of one socket, with its drain task (backend/app/presence.py). */
module OutboundQueue {
  import opened Outcomes

  const MAX_WEBSOCKET_QUEUE_MESSAGES := 32
  const MAX_WEBSOCKET_QUEUE_BYTES := 256 * 1024

  // A payload and its encoded size; the model does not look inside.
  datatype Payload = Payload(content: int, size: nat)

  // Where the drain task is: waiting on the queue; holding a payload it has not accounted for yet; writing it to
  // the socket; about to leave the written or failed write; or over, possibly with an unwritten payload.
  datatype Phase =
    | Waiting
    | Fetched(payload: Payload)
    | Sending(payload: Payload)
    | Settling
    | Failing(payload: Payload)
    | Ended(unwritten: seq<Payload>)

  // `accepted` and `sent` record what enqueueing accepted and what the socket has been given.
  datatype Outbound = Outbound(
    queue: seq<Payload>, queuedBytes: nat, inFlight: int, failed: bool, phase: Phase,
    stopped: bool, accepted: seq<Payload>, sent: seq<Payload>)

  const FRESH := Outbound([], 0, 0, false, Waiting, false, [], [])

  // `Enqueue` says whether the registry still lists the socket. `Cancel` may hit the task anywhere.
  datatype Action =
    | Enqueue(payload: Payload, current: bool)
    | Get
    | Account
    | Written
    | Settle
    | WriteFails
    | RecordFailure
    | Stop
    | Cancel

  function InHand(p: Phase): seq<Payload> {
    match p
    case Fetched(x) => [x]
    case Sending(x) => [x]
    case Failing(x) => [x]
    case Ended(xs) => xs
    case _ => []
  }

  predicate Overflows(o: Outbound, p: Payload) {
    |o.queue| >= MAX_WEBSOCKET_QUEUE_MESSAGES || o.queuedBytes + p.size > MAX_WEBSOCKET_QUEUE_BYTES
  }

  function Step(o: Outbound, a: Action): Outbound {
    match a
    case Enqueue(p, current) =>
      if !current || o.failed then o
      else if Overflows(o, p) then o.(failed := true)
      else o.(queue := o.queue + [p], queuedBytes := o.queuedBytes + p.size, accepted := o.accepted + [p])
    case Get => if o.phase.Waiting? && o.queue != [] then o.(phase := Fetched(o.queue[0]), queue := o.queue[1..]) else o
    case Account =>
      if o.phase.Fetched?
      then o.(queuedBytes := if o.queuedBytes >= o.phase.payload.size then o.queuedBytes - o.phase.payload.size else 0,
              inFlight := o.inFlight + 1, phase := Sending(o.phase.payload))
      else o
    case Written => if o.phase.Sending? then o.(sent := o.sent + [o.phase.payload], phase := Settling) else o
    case Settle => if o.phase.Settling? then o.(inFlight := o.inFlight - 1, phase := Waiting) else o
    case WriteFails => if o.phase.Sending? then o.(phase := Failing(o.phase.payload)) else o
    case RecordFailure =>
      if o.phase.Failing? then o.(failed := true, inFlight := o.inFlight - 1, phase := Ended([o.phase.payload])) else o
    case Stop => o.(failed := true, queuedBytes := 0, queue := [], stopped := true)
    // Only an interrupted write marks the queue failed; _stop_outbound has already done so otherwise.
    case Cancel => if o.stopped && !o.phase.Ended? then o.(failed := true, phase := Ended(InHand(o.phase))) else o
  }

  function Exec(run: seq<Action>): Outbound {
    if run == [] then FRESH else Step(Exec(run[..|run| - 1]), run[|run| - 1])
  }

  function Bytes(q: seq<Payload>): nat {
    if q == [] then 0 else q[0].size + Bytes(q[1..])
  }

  lemma {:induction false} BytesAppend(q: seq<Payload>, p: Payload)
    ensures Bytes(q + [p]) == Bytes(q) + p.size
  {
    if q == [] {
      assert q + [p] == [p];
    } else {
      assert (q + [p])[1..] == q[1..] + [p];
      BytesAppend(q[1..], p);
    }
  }

  // The bytes of a payload that left the queue but is still counted.
  function Uncounted(p: Phase): nat {
    if p.Fetched? then p.payload.size else 0
  }

  ghost predicate Conserved(o: Outbound) {
    && o.sent + InHand(o.phase) <= o.accepted
    && (!o.stopped ==> o.accepted == o.sent + InHand(o.phase) + o.queue)
    && (!o.stopped ==> o.queuedBytes == Bytes(o.queue) + Uncounted(o.phase))
    && (o.stopped ==> o.failed && o.queue == [] && o.queuedBytes == 0)
    && |o.queue| <= MAX_WEBSOCKET_QUEUE_MESSAGES
    && o.queuedBytes <= MAX_WEBSOCKET_QUEUE_BYTES
    && (o.phase.Sending? || o.phase.Settling? || o.phase.Failing? ==> o.inFlight == 1)
    && (o.phase.Waiting? || o.phase.Fetched? ==> o.inFlight == 0)
    && 0 <= o.inFlight <= 1
    && (o.phase.Ended? ==> o.failed)
  }

  lemma StepConserves(o: Outbound, a: Action)
    requires Conserved(o)
    ensures Conserved(Step(o, a))
  {
    match a
    case Enqueue(p, current) => EnqueueConserves(o, p, current);
    case Get => GetConserves(o);
    case _ => DrainConserves(o, a);
  }

  lemma DrainConserves(o: Outbound, a: Action)
    requires Conserved(o) && !a.Enqueue? && !a.Get?
    ensures Conserved(Step(o, a))
  {
    hide Bytes;
  }

  /** Until the queue is stopped the byte count never has to be clipped at zero; what the socket has been given only
      grows, and nothing is accepted once the queue has failed. */
  lemma StepOnlyGrows(o: Outbound, a: Action)
    requires Conserved(o)
    ensures a.Account? && o.phase.Fetched? && !o.stopped ==> o.queuedBytes >= o.phase.payload.size
    ensures o.sent <= Step(o, a).sent && o.accepted <= Step(o, a).accepted
    ensures o.failed ==> Step(o, a).failed && Step(o, a).accepted == o.accepted
  {
  }

  lemma EnqueueConserves(o: Outbound, p: Payload, current: bool)
    requires Conserved(o)
    ensures Conserved(Step(o, Enqueue(p, current)))
  {
    hide InHand, Bytes;
    BytesAppend(o.queue, p);
    assert o.sent + InHand(o.phase) + (o.queue + [p]) == o.sent + InHand(o.phase) + o.queue + [p];
  }

  lemma GetConserves(o: Outbound)
    requires Conserved(o)
    ensures Conserved(Step(o, Get))
  {
    if o.phase.Waiting? && o.queue != [] {
      assert o.sent + [o.queue[0]] + o.queue[1..] == o.sent + [] + o.queue;
    }
  }

  /** In every interleaving of enqueueing, draining and stopping: what was sent is a prefix of what was accepted;
      until the queue is stopped nothing is lost or reordered and the byte count is exact; the bounds hold. */
  lemma {:induction false} OutboundConservation(run: seq<Action>)
    ensures Conserved(Exec(run)) && |Exec(run).queue| <= 32 && Exec(run).queuedBytes <= 262144
  {
    if run != [] {
      OutboundConservation(run[..|run| - 1]);
      StepConserves(Exec(run[..|run| - 1]), run[|run| - 1]);
    }
  }

  /** Nothing is accepted after a failure, however the run goes on. */
  lemma {:induction false} NothingAcceptedAfterFailure(run: seq<Action>, more: seq<Action>)
    requires Exec(run).failed
    ensures Exec(run + more).failed && Exec(run + more).accepted == Exec(run).accepted
    decreases |more|
  {
    if more == [] {
      assert run + more == run;
    } else {
      var init := more[..|more| - 1];
      assert (run + more)[..|run + more| - 1] == run + init;
      NothingAcceptedAfterFailure(run, init);
      OutboundConservation(run + init);
      StepOnlyGrows(Exec(run + init), more[|more| - 1]);
    }
  }

  /** In every run, a payload for a listed socket whose queue has not failed is accepted, behind everything accepted
      before it, exactly when fewer than 32 payloads wait and the bytes still counted and its own are at most 262144;
      otherwise the queue fails. */
  lemma {:induction false} AdmitsExactly(run: seq<Action>, p: Payload)
    requires !Exec(run).failed
    ensures var o, o' := Exec(run), Exec(run + [Enqueue(p, true)]);
            if |o.queue| < 32 && Bytes(o.queue) + Uncounted(o.phase) + p.size <= 262144
            then o'.accepted == o.accepted + [p] && o'.queue == o.queue + [p] && !o'.failed
            else o'.accepted == o.accepted && o'.queue == o.queue && o'.failed
  {
    hide Bytes;
    OutboundConservation(run);
    var more := run + [Enqueue(p, true)];
    assert more[..|more| - 1] == run;
  }

  // One turn of the drain loop that succeeds.
  function Drained(o: Outbound): Outbound {
    Step(Step(Step(Step(o, Get), Account), Written), Settle)
  }

  /** A turn of the drain loop gives the socket the oldest payload. */
  lemma {:induction false} DrainSendsOldest(o: Outbound)
    requires Conserved(o) && o.phase.Waiting? && o.queue != []
    ensures var o' := Drained(o);
            && o'.sent == o.sent + [o.queue[0]] && o'.queue == o.queue[1..] && o'.phase.Waiting?
            && o'.accepted == o.accepted && o'.failed == o.failed && o'.stopped == o.stopped && Conserved(o')
  {
    var o1 := Step(o, Get);
    var o2 := Step(o1, Account);
    var o3 := Step(o2, Written);
    StepConserves(o, Get);
    StepConserves(o1, Account);
    StepConserves(o2, Written);
    StepConserves(o3, Settle);
  }

  function DrainedAll(o: Outbound, turns: nat): Outbound
    decreases turns
  {
    if turns == 0 then o else DrainedAll(Drained(o), turns - 1)
  }

  /** As many turns as payloads wait give the socket everything that was accepted, in that order. */
  lemma {:induction false} QueueDrains(o: Outbound)
    requires Conserved(o) && o.phase.Waiting? && !o.stopped
    ensures var o' := DrainedAll(o, |o.queue|); o'.sent == o.accepted && o'.queue == [] && o'.queuedBytes == 0
    decreases |o.queue|
  {
    hide Drained;
    if o.queue != [] {
      DrainSendsOldest(o);
      QueueDrains(Drained(o));
    }
  }

  /** The queue object. Each method is one section that nothing else interrupts. */
  class Queue {
    var queue: seq<Payload>
    var queuedBytes: nat
    var inFlight: int
    var failed: bool
    var phase: Phase
    ghost var stopped: bool
    ghost var accepted: seq<Payload>
    ghost var sent: seq<Payload>

    ghost function View(): Outbound
      reads this
    {
      Outbound(queue, queuedBytes, inFlight, failed, phase, stopped, accepted, sent)
    }

    constructor ()
      ensures View() == FRESH && Conserved(View())
    {
      queue, queuedBytes, inFlight, failed, phase := [], 0, 0, false, Waiting;
      stopped, accepted, sent := false, [], [];
    }

    method EnqueueOutbound(p: Payload, current: bool) returns (accepted': bool)
      requires Conserved(View())
      modifies this
      ensures View() == Step(old(View()), Enqueue(p, current)) && Conserved(View())
      ensures accepted' <==> accepted == old(accepted) + [p]
    {
      StepConserves(View(), Enqueue(p, current));
      if !current || failed {
        return false;
      }
      if |queue| >= MAX_WEBSOCKET_QUEUE_MESSAGES || queuedBytes + p.size > MAX_WEBSOCKET_QUEUE_BYTES {
        failed := true;
        return false;
      }
      queue := queue + [p];
      queuedBytes := queuedBytes + p.size;
      accepted := accepted + [p];
      return true;
    }

    // The next payload, then its accounting, as the drain loop does them.
    method Fetch()
      requires Conserved(View()) && phase.Waiting? && queue != []
      modifies this
      ensures View() == Step(old(View()), Get) && Conserved(View())
    {
      StepConserves(View(), Get);
      phase, queue := Fetched(queue[0]), queue[1..];
    }

    method AccountFetched()
      requires Conserved(View()) && phase.Fetched?
      modifies this
      ensures View() == Step(old(View()), Account) && Conserved(View())
    {
      StepConserves(View(), Account);
      queuedBytes := if queuedBytes >= phase.payload.size then queuedBytes - phase.payload.size else 0;
      inFlight := inFlight + 1;
      phase := Sending(phase.payload);
    }

    method FinishWrite(ok: bool)
      requires Conserved(View()) && phase.Sending?
      modifies this
      ensures View() == (if ok then Step(Step(old(View()), Written), Settle)
              else Step(Step(old(View()), WriteFails), RecordFailure))
      ensures Conserved(View())
    {
      if ok {
        StepConserves(View(), Written);
        StepConserves(Step(View(), Written), Settle);
        sent := sent + [phase.payload];
        inFlight := inFlight - 1;
        phase := Waiting;
      } else {
        StepConserves(View(), WriteFails);
        StepConserves(Step(View(), WriteFails), RecordFailure);
        failed := true;
        inFlight := inFlight - 1;
        phase := Ended([phase.payload]);
      }
    }

    method StopOutbound()
      requires Conserved(View())
      modifies this
      ensures View() == Step(old(View()), Stop) && Conserved(View())
    {
      StepConserves(View(), Stop);
      failed, queuedBytes, stopped := true, 0, true;
      while queue != []
        invariant View() == Step(old(View()), Stop).(queue := queue)
        decreases |queue|
      {
        queue := queue[1..];
      }
    }
  }
}

/** The registry and the queues of its sockets together (backend/app/presence.py). */
module SocketQueues {
  import opened Outcomes
  import opened Names
  import R = SocketRegistry
  import Q = OutboundQueue

  // The outbound queue of every socket that owns one.
  datatype Manager = Manager(registry: R.Registry, outbound: map<Id, Q.Outbound>)

  // A lock section of the registry; an enqueue for a socket, named by a handle that may be out of date; or a step of
  // the
  // drain task of a queue.
  datatype Action =
    | Registry(action: R.Action)
    | Enqueue(c: R.Connection, payload: Q.Payload)
    | Drain(id: Id, step: Q.Action)

  // Queues appear with their sockets and go with them.
  function QueuesOf(r: R.Registry, outbound: map<Id, Q.Outbound>): map<Id, Q.Outbound> {
    map id | id in r.queues :: if id in outbound then outbound[id] else Q.FRESH
  }

  // _enqueue_outbound looks the socket up again before it touches a queue.
  ghost function Step(m: Manager, a: Action): Manager {
    match a
    case Registry(action) => var r := R.Step(m.registry, action); Manager(r, QueuesOf(r, m.outbound))
    case Enqueue(c, payload) =>
      if !R.Current(m.registry, c) || c.id !in m.outbound then m
      else m.(outbound := m.outbound[c.id := Q.Step(m.outbound[c.id], Q.Enqueue(payload, true))])
    case Drain(id, action) =>
      if id !in m.outbound || action.Enqueue? then m else m.(outbound
          := m.outbound[id := Q.Step(m.outbound[id], action)])
  }

  ghost function After(m: Manager, run: seq<Action>): Manager {
    if run == [] then m else Step(After(m, run[..|run| - 1]), run[|run| - 1])
  }

  const EMPTY := Manager(R.EMPTY, map[])

  ghost predicate Sound(m: Manager) {
    && R.Safe(m.registry) && m.outbound.Keys == m.registry.queues
    && forall id :: id in m.outbound ==> Q.Conserved(m.outbound[id])
  }

  lemma {:induction false} FreshIsConserved()
    ensures Q.Conserved(Q.FRESH)
  {
  }

  /** In every run the registry is safe, every registered socket has its own queue, and every queue is conserved. */
  lemma {:induction false} ManagerSafety(run: seq<Action>)
    ensures Sound(After(EMPTY, run))
  {
    hide R.Safe, Q.Conserved, R.Step, Q.Step;
    if run == [] {
      R.RegistrySafety([]);
    } else {
      ManagerSafety(run[..|run| - 1]);
      var before, a := After(EMPTY, run[..|run| - 1]), run[|run| - 1];
      match a
      case Registry(action) =>
        R.StepIsSafe(before.registry, action);
        FreshIsConserved();
      case Enqueue(c, payload) =>
        if c.id in before.outbound { Q.StepConserves(before.outbound[c.id], Q.Enqueue(payload, true)); }
      case Drain(id, action) =>
        if id in before.outbound { Q.StepConserves(before.outbound[id], action); }
    }
  }

  /** However a run goes on after a socket was replaced or removed, a removal, a heartbeat or an enqueue by its old
      handle
      changes nothing: neither the registry nor any queue, its successor's included. */
  lemma {:induction false} SupersededHandleChangesNothing(
      m: Manager, run: seq<Action>, c: R.Connection, now: int, payload: Q.Payload)
    requires R.Superseded(m.registry, c.id) && m.outbound.Keys == m.registry.queues
    ensures var m' := After(m, run);
            && R.Superseded(m'.registry, c.id) && m'.outbound.Keys == m'.registry.queues
            && Step(m', Registry(R.Remove(c))) == m'
            && Step(m', Registry(R.Heartbeat(c, now))) == m'
            && Step(m', Enqueue(c, payload)) == m'
  {
    if run != [] {
      var init, a := run[..|run| - 1], run[|run| - 1];
      SupersededHandleChangesNothing(m, init, c, now, payload);
      if a.Registry? { R.SupersededStaysSuperseded(After(m, init).registry, a.action, c.id); }
    }
    var m' := After(m, run);
    R.SupersededIsPowerless(m'.registry, [], c, now);
    assert QueuesOf(m'.registry, m'.outbound) == m'.outbound;
  }

  /** An enqueue by the current handle goes to that socket's queue and to no other. */
  lemma {:induction false} EnqueueReachesItsOwnQueue(m: Manager, c: R.Connection, payload: Q.Payload)
    requires Sound(m) && R.Current(m.registry, c)
    ensures c.id in m.outbound
    ensures var m' := Step(m, Enqueue(c, payload));
            && m'.registry == m.registry && m'.outbound - {c.id} == m.outbound - {c.id}
            && m'.outbound[c.id] == Q.Step(m.outbound[c.id], Q.Enqueue(payload, true))
  {
    hide Q.Conserved, Q.Step;
    assert R.SocketsOk(m.registry, c.account, m.registry.connections[c.account]);
    assert R.Filed(m.registry, c.account, c.device, m.registry.connections[c.account][c.device]);
  }
}
