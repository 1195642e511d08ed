/** The fixed-window rate limiter in its two implementations: the process-local one of
    backend/app/auth.py and the table-backed one of backend/app/repositories/rate_limits.py. */
module RateLimit {
  import opened Outcomes

  // A bucket key is the scope and the keyed digest of the limited value.
  datatype Key = Key(scope: string, digest: seq<int>)
  datatype Request = Request(key: Key, limit: int, window: int)
  datatype Bucket = Bucket(expiresAt: int, count: nat)
  type Buckets = map<Key, Bucket>

  predicate Usable(r: Request) {
    r.key.scope != "" && r.limit > 0 && r.window > 0
  }

  // What the limiter sees for a request: the open window, or a fresh one.
  function Seen(b: Buckets, r: Request, now: int): Bucket {
    if r.key in b && b[r.key].expiresAt > now then b[r.key] else Bucket(now + r.window, 0)
  }

  predicate Fits(b: Buckets, r: Request, now: int) {
    Seen(b, r, now).count < r.limit
  }

  // Write one more use for each request; every write is computed from the buckets before the call.
  function Charge(b: Buckets, reqs: seq<Request>, now: int): Buckets {
    if reqs == [] then b else
      var r := reqs[|reqs| - 1];
      var s := Seen(b, r, now);
      Charge(b, reqs[..|reqs| - 1], now)[r.key := s.(count := s.count + 1)]
  }

  predicate Admits(b: Buckets, reqs: seq<Request>, now: int) {
    forall r :: r in reqs ==> Fits(b, r, now)
  }

  function AllowMany(b: Buckets, reqs: seq<Request>, now: int): Buckets {
    if Admits(b, reqs, now) then Charge(b, reqs, now) else b
  }

  predicate NamedIn(reqs: seq<Request>, k: Key) {
    exists r :: r in reqs && r.key == k
  }

  // Charging touches the named buckets only, and writes what the last request for the bucket saw, plus one.
  lemma {:induction false} ChargedBucket(b: Buckets, reqs: seq<Request>, now: int, k: Key) returns (r: Option<Request>)
    ensures r.Some? <==> NamedIn(reqs, k)
    ensures r.None? ==> (k in Charge(b, reqs, now) <==> k in b) && (k in b ==> Charge(b, reqs, now)[k] == b[k])
    ensures r.Some? ==> r.value in reqs && r.value.key == k && k in Charge(b, reqs, now)
                        && Charge(b, reqs, now)[k] == var s := Seen(b, r.value, now); s.(count := s.count + 1)
  {
    hide Seen;
    r := None;
    if reqs != [] {
      var init, last := reqs[..|reqs| - 1], reqs[|reqs| - 1];
      r := ChargedBucket(b, init, now, k);
      assert reqs == init + [last];
      if last.key == k {
        r := Some(last);
      }
    }
  }

  /** The process-local limiter. Each method body is one section under the lock. */
  class RateLimiter {
    var buckets: Buckets

    constructor ()
      ensures buckets == map[]
    {
      buckets := map[];
    }

    // One bucket. A rejection writes back the window it read.
    method Allow(r: Request, now: int) returns (result: Result<bool>)
      modifies this
      ensures result.Ok? <==> Usable(r)
      ensures result.Err? ==> buckets == old(buckets)
      ensures result.Ok? ==> result.value == Admits(old(buckets), [r], now)
                             && buckets == AllowMany(old(buckets), [r], now)
    {
      if r.key.scope == "" || r.limit <= 0 || r.window <= 0 {
        return Err("ValueError");
      }
      ghost var before := buckets;
      var expiresAt, count := now, 0;
      if r.key in buckets {
        expiresAt, count := buckets[r.key].expiresAt, buckets[r.key].count;
      }
      if expiresAt <= now {
        expiresAt, count := now + r.window, 0;
      }
      assert Seen(before, r, now) == Bucket(expiresAt, count);
      assert [r][..0] == [];
      assert Charge(before, [r][..0], now) == before;
      assert r in [r] && forall q :: q in [r] ==> q == r;
      if count >= r.limit {
        buckets := buckets[r.key := Bucket(expiresAt, count)];
        assert buckets == before;
        return Ok(false);
      }
      buckets := buckets[r.key := Bucket(expiresAt, count + 1)];
      return Ok(true);
    }

    // Several buckets together: a check loop, then a write loop.
    method AllowManyRequests(reqs: seq<Request>, now: int) returns (result: Result<bool>)
      modifies this
      ensures result.Ok? <==> reqs != [] && forall r :: r in reqs ==> Usable(r)
      ensures result.Err? ==> buckets == old(buckets)
      ensures result.Ok? ==> result.value == Admits(old(buckets), reqs, now)
                             && buckets == AllowMany(old(buckets), reqs, now)
    {
      if reqs == [] {
        return Err("ValueError");
      }
      for i := 0 to |reqs|
        invariant buckets == old(buckets)
        invariant forall r :: r in reqs[..i] ==> Usable(r)
      {
        assert reqs[i] in reqs;
        if reqs[i].key.scope == "" || reqs[i].limit <= 0 || reqs[i].window <= 0 {
          return Err("ValueError");
        }
        assert reqs[..i + 1] == reqs[..i] + [reqs[i]];
      }
      assert reqs[..|reqs|] == reqs;
      var states: seq<Bucket> := [];
      for i := 0 to |reqs|
        invariant buckets == old(buckets)
        invariant |states| == i
        invariant forall j :: 0 <= j < i ==> states[j] == Seen(buckets, reqs[j], now) && Fits(buckets, reqs[j], now)
      {
        var r := reqs[i];
        var expiresAt, count := now, 0;
        if r.key in buckets {
          expiresAt, count := buckets[r.key].expiresAt, buckets[r.key].count;
        }
        if expiresAt <= now {
          expiresAt, count := now + r.window, 0;
        }
        if count >= r.limit {
          assert r in reqs && !Fits(buckets, r, now);
          return Ok(false);
        }
        states := states + [Bucket(expiresAt, count)];
      }
      for i := 0 to |reqs|
        invariant |states| == |reqs|
        invariant forall j :: 0 <= j < |reqs| ==> states[j] == Seen(old(buckets), reqs[j], now)
        invariant buckets == Charge(old(buckets), reqs[..i], now)
      {
        assert reqs[..i + 1][..i] == reqs[..i];
        buckets := buckets[reqs[i].key := Bucket(states[i].expiresAt, states[i].count + 1)];
      }
      return Ok(true);
    }
  }

  // ----- The table-backed limiter -----

  datatype Row = Row(startedAt: int, expiresAt: int, count: nat)
  type Table = map<Key, Row>

  predicate Storable(r: Request) {
    1 <= |r.key.scope| <= 64 && |r.key.digest| == 32 && r.limit > 0 && r.window > 0
  }

  function Project(t: Table): Buckets {
    map k | k in t :: Bucket(t[k].expiresAt, t[k].count)
  }

  /** The table-backed limiter. Each method body is one serialised transaction. */
  class RateLimitBucketRepository {
    var table: Table

    constructor ()
      ensures table == map[]
    {
      table := map[];
    }

    method ConsumeMany(reqs: seq<Request>, now: int) returns (result: Result<bool>)
      modifies this
      ensures result.Ok? <==> reqs != [] && forall r :: r in reqs ==> Storable(r)
      ensures result.Err? ==> table == old(table)
      ensures result.Ok? ==> result.value == Admits(Project(old(table)), reqs, now)
                             && Project(table) == AllowMany(Project(old(table)), reqs, now)
                             && (!result.value ==> table == old(table))
    {
      if reqs == [] {
        return Err("ValueError");
      }
      for i := 0 to |reqs|
        invariant table == old(table)
        invariant forall r :: r in reqs[..i] ==> Storable(r)
      {
        assert reqs[i] in reqs;
        if !(1 <= |reqs[i].key.scope| <= 64) || |reqs[i].key.digest| != 32 || reqs[i].limit <= 0
            || reqs[i].window <= 0 {
          return Err("ValueError");
        }
        assert reqs[..i + 1] == reqs[..i] + [reqs[i]];
      }
      assert reqs[..|reqs|] == reqs;
      var states := ReadRows(table, reqs, now);
      if states.None? {
        return Ok(false);
      }
      table := WriteRows(table, reqs, states.value, now);
      return Ok(true);
    }

    // Removes at most `limit` expired rows, the earliest deadlines first.
    method DeleteExpired(now: int, limit: int) returns (result: Result<nat>, ghost deleted: set<Key>)
      modifies this
      ensures result.Err? <==> limit <= 0
      ensures result.Err? ==> table == old(table) && deleted == {}
      ensures result.Ok? ==> result.value == |deleted| && EarliestOf(old(table), now, limit, deleted)
      ensures table == old(table) - deleted
      ensures Project(table) == Deleted(Project(old(table)), now, deleted)
    {
      deleted := {};
      if limit <= 0 {
        assert table - {} == table;
        DeletedProjects(table, now, {});
        return Err("ValueError"), deleted;
      }
      var chosen := SelectExpired(table, now, limit);
      deleted := chosen;
      DeletedProjects(table, now, chosen);
      table := table - chosen;
      return Ok(|chosen|), deleted;
    }
  }

  // What the statement's ORDER BY and LIMIT select: only expired rows, as many as allowed, earliest first.
  ghost predicate EarliestOf(t: Table, now: int, limit: int, chosen: set<Key>) {
    && |chosen| <= limit
    && (forall k :: k in chosen ==> k in t && t[k].expiresAt <= now)
    && (|chosen| < limit ==> forall k :: k in t && t[k].expiresAt <= now ==> k in chosen)
    && (forall k, j :: k in chosen && j in t && j !in chosen && t[j].expiresAt <= now ==>
          t[k].expiresAt <= t[j].expiresAt)
  }

  method SelectExpired(t: Table, now: int, limit: int) returns (chosen: set<Key>)
    requires limit > 0
    ensures EarliestOf(t, now, limit, chosen)
  {
    var remaining := set k | k in t && t[k].expiresAt <= now;
    ghost var expired := remaining;
    chosen := {};
    while |chosen| < limit && remaining != {}
      invariant expired == chosen + remaining && chosen !! remaining && |chosen| <= limit
      invariant forall k, j :: k in chosen && j in remaining ==> t[k].expiresAt <= t[j].expiresAt
      decreases |remaining|
    {
      EarliestExists(t, remaining);
      var first :| first in remaining && forall j :: j in remaining ==> t[first].expiresAt <= t[j].expiresAt;
      remaining, chosen := remaining - {first}, chosen + {first};
    }
  }

  lemma DeletedProjects(t: Table, now: int, chosen: set<Key>)
    requires forall k :: k in chosen ==> k in t && t[k].expiresAt <= now
    ensures Project(t - chosen) == Deleted(Project(t), now, chosen)
  {
  }

  lemma {:induction false} EarliestExists(t: Table, keys: set<Key>)
    requires keys != {} && keys <= t.Keys
    ensures exists k :: k in keys && forall j :: j in keys ==> t[k].expiresAt <= t[j].expiresAt
    decreases |keys|
  {
    var some :| some in keys;
    if keys != {some} {
      assert keys - {some} != {};
      EarliestExists(t, keys - {some});
      var k :| k in keys - {some} && forall j :: j in keys - {some} ==> t[k].expiresAt <= t[j].expiresAt;
      assert forall j :: j in keys ==> j == some || j in keys - {some};
      if t[some].expiresAt < t[k].expiresAt {
        assert forall j :: j in keys ==> t[some].expiresAt <= t[j].expiresAt;
      }
    }
  }

  function RowOf(t: Table, k: Key): Option<Row> {
    if k in t then Some(t[k]) else None
  }

  // The first loop of the transaction: the rows of all requests, or nothing if one of them is exhausted.
  method ReadRows(t: Table, reqs: seq<Request>, now: int) returns (states: Option<seq<Option<Row>>>)
    requires forall r :: r in reqs ==> r.limit > 0
    ensures states.Some? <==> Admits(Project(t), reqs, now)
    ensures states.Some? ==>
              |states.value| == |reqs| && forall j :: 0 <= j < |reqs| ==> states.value[j] == RowOf(t, reqs[j].key)
  {
    var rows: seq<Option<Row>> := [];
    for i := 0 to |reqs|
      invariant |rows| == i
      invariant forall j :: 0 <= j < i ==> rows[j] == RowOf(t, reqs[j].key) && Fits(Project(t), reqs[j], now)
    {
      var r := reqs[i];
      assert r in reqs;
      var row := RowOf(t, r.key);
      if row.Some? && row.value.expiresAt > now && row.value.count >= r.limit {
        assert !Fits(Project(t), r, now);
        return None;
      }
      rows := rows + [row];
    }
    return Some(rows);
  }

  // Rows whose window is open keep it, whatever the earlier writes of the transaction did.
  ghost predicate KeepsOpenRows(before: Table, t: Table, now: int) {
    forall k :: k in before && before[k].expiresAt > now ==> k in t && t[k].expiresAt == before[k].expiresAt
  }

  // The second loop: an upsert where the window was closed, an update of the count otherwise.
  method WriteRows(before: Table, reqs: seq<Request>, states: seq<Option<Row>>, now: int) returns (t: Table)
    requires |states| == |reqs| && forall j :: 0 <= j < |reqs| ==> states[j] == RowOf(before, reqs[j].key)
    ensures Project(t) == Charge(Project(before), reqs, now)
  {
    hide Charge;
    t := before;
    NoRequests(Project(before), now);
    assert reqs[..0] == [];
    for i := 0 to |reqs|
      invariant KeepsOpenRows(before, t, now)
      invariant Project(t) == Charge(Project(before), reqs[..i], now)
    {
      var r, row := reqs[i], states[i];
      ghost var previous := t;
      if row.None? || row.value.expiresAt <= now {
        t := t[r.key := Row(now, now + r.window, 1)];
      } else {
        t := t[r.key := t[r.key].(count := row.value.count + 1)];
      }
      WriteMatches(before, reqs, i, now);
      ProjectUpdate(previous, r.key, t[r.key]);
    }
    assert reqs[..|reqs|] == reqs;
  }

  lemma {:induction false} NoRequests(b: Buckets, now: int)
    ensures Charge(b, [], now) == b
  {
  }

  lemma ProjectUpdate(t: Table, k: Key, row: Row)
    ensures Project(t[k := row]) == Project(t)[k := Bucket(row.expiresAt, row.count)]
  {
  }

  // One write of the transaction is the write of the process-local limiter.
  lemma {:induction false} WriteMatches(before: Table, reqs: seq<Request>, i: nat, now: int)
    requires i < |reqs|
    ensures reqs[..i + 1][..i] == reqs[..i]
    ensures Charge(Project(before), reqs[..i + 1], now)
         == Charge(Project(before), reqs[..i], now)
              [reqs[i].key := var s := Seen(Project(before), reqs[i], now); s.(count := s.count + 1)]
  {
    assert reqs[..i + 1][..i] == reqs[..i];
  }

  // ----- Serial histories -----

  datatype Call = Call(reqs: seq<Request>, now: int)

  predicate Monotone(calls: seq<Call>) {
    forall i, j :: 0 <= i < j < |calls| ==> calls[i].now <= calls[j].now
  }

  // The buckets after a history that starts from an empty limiter.
  function After(calls: seq<Call>): Buckets {
    if calls == [] then map[] else
      var last := calls[|calls| - 1];
      AllowMany(After(calls[..|calls| - 1]), last.reqs, last.now)
  }

  predicate Names(c: Call, k: Key) {
    NamedIn(c.reqs, k)
  }

  predicate LastAdmitted(calls: seq<Call>)
    requires calls != []
  {
    Admits(After(calls[..|calls| - 1]), calls[|calls| - 1].reqs, calls[|calls| - 1].now)
  }

  // The times at which the history admitted a call that names the bucket.
  ghost function Uses(calls: seq<Call>, k: Key): seq<int> {
    if calls == [] then [] else
      Uses(calls[..|calls| - 1], k)
        + if LastAdmitted(calls) && Names(calls[|calls| - 1], k) then [calls[|calls| - 1].now] else []
  }

  function CountIn(times: seq<int>, lo: int, hi: int): nat {
    if times == [] then 0 else
      CountIn(times[..|times| - 1], lo, hi) + if lo <= times[|times| - 1] < hi then 1 else 0
  }

  // The policy fixes one limit and one window for each bucket.
  datatype Policy = Policy(limit: int, window: int)

  ghost predicate Follows(calls: seq<Call>, policy: Key -> Policy) {
    forall i, r :: 0 <= i < |calls| && r in calls[i].reqs ==>
      Usable(r) && policy(r.key) == Policy(r.limit, r.window)
  }

  // ----- The sliding-interval bound -----

  // What a call adds to the uses of one bucket, grouped by the window that admitted them.
  ghost function NextWindows(b: Buckets, ws: seq<seq<int>>, c: Call, k: Key): seq<seq<int>> {
    if !(Admits(b, c.reqs, c.now) && Names(c, k)) then ws
    else if ws != [] && k in b && b[k].expiresAt > c.now
    then ws[..|ws| - 1] + [ws[|ws| - 1] + [c.now]]
    else ws + [[c.now]]
  }

  ghost function Windows(calls: seq<Call>, k: Key): seq<seq<int>> {
    if calls == [] then [] else
      var init := calls[..|calls| - 1];
      NextWindows(After(init), Windows(init, k), calls[|calls| - 1], k)
  }

  function Flatten(ws: seq<seq<int>>): seq<int> {
    if ws == [] then [] else Flatten(ws[..|ws| - 1]) + ws[|ws| - 1]
  }

  // One window: it opens with its first use and holds at most `limit` uses.
  ghost predicate InOneWindow(w: seq<int>, limit: int, window: int) {
    0 < |w| <= limit && forall j :: 0 <= j < |w| ==> w[0] <= w[j] < w[0] + window
  }

  // Each window is over before the next one opens.
  ghost predicate WellSpaced(ws: seq<seq<int>>, limit: int, window: int) {
    ws == [] ||
    var init, last := ws[..|ws| - 1], ws[|ws| - 1];
    && WellSpaced(init, limit, window)
    && InOneWindow(last, limit, window)
    && (init != [] ==> init[|init| - 1] != [] && init[|init| - 1][0] + window <= last[0])
  }

  lemma {:induction false} FlattenAppend(ws: seq<seq<int>>, w: seq<int>, t: int)
    ensures Flatten(ws + [w]) == Flatten(ws) + w
    ensures ws != [] ==> Flatten(ws[..|ws| - 1] + [ws[|ws| - 1] + [t]]) == Flatten(ws) + [t]
  {
    assert (ws + [w])[..|ws|] == ws;
    if ws != [] {
      var init, last := ws[..|ws| - 1], ws[|ws| - 1];
      assert (init + [last + [t]])[..|init|] == init;
      assert Flatten(init) + (last + [t]) == Flatten(init) + last + [t];
    }
  }

  lemma {:induction false} WindowsAreUses(calls: seq<Call>, k: Key)
    ensures Flatten(Windows(calls, k)) == Uses(calls, k)
  {
    if calls != [] {
      WindowsAreUses(calls[..|calls| - 1], k);
      var ws := Windows(calls[..|calls| - 1], k);
      FlattenAppend(ws, [calls[|calls| - 1].now], calls[|calls| - 1].now);
    }
  }

  // The bucket is the last window: it expires one window length after the first use and counts every use.
  ghost predicate IsLastWindow(b: Buckets, ws: seq<seq<int>>, k: Key, p: Policy, now: int) {
    && WellSpaced(ws, p.limit, p.window)
    && (k in b <==> ws != [])
    && (ws != [] ==> ws[|ws| - 1] != []
                     && b[k] == Bucket(ws[|ws| - 1][0] + p.window, |ws[|ws| - 1]|)
                     && ws[|ws| - 1][0] <= now)
  }

  lemma {:induction false} BucketIsLastWindow(calls: seq<Call>, k: Key, policy: Key -> Policy, now: int)
    requires Monotone(calls) && Follows(calls, policy)
    requires calls != [] ==> calls[|calls| - 1].now <= now
    ensures IsLastWindow(After(calls), Windows(calls, k), k, policy(k), now)
  {
    if calls != [] {
      hide AllowMany, NextWindows, WellSpaced;
      var init, last := calls[..|calls| - 1], calls[|calls| - 1];
      assert forall i :: 0 <= i < |init| ==> init[i] == calls[i];
      BucketIsLastWindow(init, k, policy, last.now);
      CallExtendsWindows(After(init), Windows(init, k), last, k, policy(k));
    }
  }

  lemma CallExtendsWindows(b: Buckets, ws: seq<seq<int>>, c: Call, k: Key, p: Policy)
    requires IsLastWindow(b, ws, k, p, c.now)
    requires forall r :: r in c.reqs && r.key == k ==> Usable(r) && p == Policy(r.limit, r.window)
    ensures IsLastWindow(AllowMany(b, c.reqs, c.now), NextWindows(b, ws, c, k), k, p, c.now)
  {
    hide WellSpaced, Charge;
    if Admits(b, c.reqs, c.now) {
      var r := ChargedBucket(b, c.reqs, c.now, k);
      if r.Some? {
        assert r.value == Request(k, p.limit, p.window) && Fits(b, r.value, c.now);
        UseExtendsWindows(b, ws, k, p, c.now);
      }
    }
  }

  // An admitted use joins the open window or opens the next one.
  lemma UseExtendsWindows(b: Buckets, ws: seq<seq<int>>, k: Key, p: Policy, now: int)
    requires p.limit > 0 && p.window > 0 && IsLastWindow(b, ws, k, p, now)
    requires Fits(b, Request(k, p.limit, p.window), now)
    ensures var open := ws != [] && b[k].expiresAt > now;
            var ws' := if open then ws[..|ws| - 1] + [ws[|ws| - 1] + [now]] else ws + [[now]];
            var s := Seen(b, Request(k, p.limit, p.window), now);
            IsLastWindow(b[k := s.(count := s.count + 1)], ws', k, p, now)
  {
    if ws != [] && b[k].expiresAt > now {
      var ws' := ws[..|ws| - 1] + [ws[|ws| - 1] + [now]];
      assert ws'[..|ws'| - 1] == ws[..|ws| - 1];
    } else {
      assert (ws + [[now]])[..|ws|] == ws;
    }
  }

  lemma {:induction false} CountConcat(a: seq<int>, b: seq<int>, lo: int, hi: int)
    ensures CountIn(a + b, lo, hi) == CountIn(a, lo, hi) + CountIn(b, lo, hi)
    decreases |b|
  {
    if b == [] {
      assert a + b == a;
    } else {
      assert (a + b)[..|a + b| - 1] == a + b[..|b| - 1];
      CountConcat(a, b[..|b| - 1], lo, hi);
    }
  }

  lemma {:induction false} CountBounds(s: seq<int>, lo: int, hi: int)
    ensures CountIn(s, lo, hi) <= |s|
    ensures (forall i :: 0 <= i < |s| ==> s[i] < lo || hi <= s[i]) ==> CountIn(s, lo, hi) == 0
    ensures s != [] && s[0] < lo ==> CountIn(s, lo, hi) <= |s| - 1
  {
    if s != [] {
      CountBounds(s[..|s| - 1], lo, hi);
    }
  }

  // Everything up to the last window is over one window length after it opened.
  lemma {:induction false} EarlierWindows(ws: seq<seq<int>>, limit: int, window: int, bound: int)
    requires window > 0 && WellSpaced(ws, limit, window)
    requires ws != [] ==> ws[|ws| - 1][0] + window <= bound
    ensures forall i :: 0 <= i < |Flatten(ws)| ==> Flatten(ws)[i] < bound
  {
    if ws != [] {
      EarlierWindows(ws[..|ws| - 1], limit, window, bound);
    }
  }

  // How many uses of a bucket an interval of one window length can hold. A window of one tick never straddles.
  function Peak(limit: int, window: int): int {
    if window == 1 then limit else 2 * limit - 1
  }

  // At most the last window and, without its first use, the one before reach into the interval.
  lemma {:induction false} WindowCount(ws: seq<seq<int>>, limit: int, window: int, from: int)
    requires limit > 0 && window > 0 && WellSpaced(ws, limit, window)
    ensures CountIn(Flatten(ws), from, from + window) <= Peak(limit, window)
  {
    if ws != [] {
      var init, last := ws[..|ws| - 1], ws[|ws| - 1];
      CountConcat(Flatten(init), last, from, from + window);
      CountBounds(last, from, from + window);
      if last[0] >= from + window {
        WindowCount(init, limit, window, from);
      } else if last[0] < from {
        EarlierWindows(init, limit, window, last[0]);
        CountBounds(Flatten(init), from, from + window);
      } else {
        LateWindow(init, limit, window, from);
      }
    }
  }

  // Windows that opened before `from` contribute at most limit - 1 uses.
  lemma {:induction false} LateWindow(ws: seq<seq<int>>, limit: int, window: int, from: int)
    requires limit > 0 && window > 0 && WellSpaced(ws, limit, window)
    requires ws != [] ==> ws[|ws| - 1][0] < from
    ensures CountIn(Flatten(ws), from, from + window) <= Peak(limit, window) - limit
  {
    if ws != [] {
      var init, last := ws[..|ws| - 1], ws[|ws| - 1];
      CountConcat(Flatten(init), last, from, from + window);
      CountBounds(last, from, from + window);
      EarlierWindows(init, limit, window, last[0]);
      CountBounds(Flatten(init), from, from + window);
    }
  }

  /** Any interval of one window length admits at most 2 * limit - 1 calls on a bucket, and at most `limit` if the
      window
      is a single tick. */
  lemma {:induction false} SlidingIntervalBound(calls: seq<Call>, k: Key, policy: Key -> Policy, from: int)
    requires Monotone(calls) && Follows(calls, policy)
    requires policy(k).limit > 0 && policy(k).window > 0
    ensures CountIn(Uses(calls, k), from, from + policy(k).window) <= Peak(policy(k).limit, policy(k).window)
  {
    hide After, Windows, Uses, Flatten, WellSpaced, CountIn, Monotone, Follows;
    BucketIsLastWindow(calls, k, policy, if calls == [] then 0 else calls[|calls| - 1].now);
    WindowsAreUses(calls, k);
    WindowCount(Windows(calls, k), policy(k).limit, policy(k).window, from);
  }

  // The bound is met by one use when a window opens, the rest of its limit just before it closes, and the whole limit
  // of
  // the next window when that opens; if the window is one tick, by the limit at one instant.
  function Repeated(r: Request, t: int, n: nat): seq<Call> {
    seq(n, _ => Call([r], t))
  }

  function BusyCalls(r: Request): seq<Call>
    requires r.limit > 0
  {
    if r.window == 1 then Repeated(r, 0, r.limit)
    else Repeated(r, 0, 1) + Repeated(r, r.window - 1, r.limit - 1) + Repeated(r, r.window, r.limit)
  }

  function Times(t: int, n: nat): seq<int> {
    seq(n, _ => t)
  }

  // A bucket takes uses at one instant until its limit is reached.
  lemma {:induction false} RepeatedUses(calls: seq<Call>, r: Request, t: int, n: nat)
    requires r.window > 0 && Seen(After(calls), r, t).count + n <= r.limit
    ensures var seen := Seen(After(calls), r, t);
            After(calls + Repeated(r, t, n))
            == if n == 0 then After(calls) else After(calls)[r.key := seen.(count := seen.count + n)]
    ensures Uses(calls + Repeated(r, t, n), r.key) == Uses(calls, r.key) + Times(t, n)
    decreases n
  {
    hide After, Uses;
    if n == 0 {
      assert calls + Repeated(r, t, 0) == calls && Times(t, 0) == [];
    } else {
      RepeatedUses(calls, r, t, n - 1);
      var before := calls + Repeated(r, t, n - 1);
      OneMoreUse(before, r, t);
      assert before + [Call([r], t)] == calls + Repeated(r, t, n);
      assert Times(t, n - 1) + [t] == Times(t, n);
    }
  }

  lemma {:induction false} CountTimes(t: int, n: nat, lo: int, hi: int)
    ensures CountIn(Times(t, n), lo, hi) == if lo <= t < hi then n else 0
    decreases n
  {
    if n > 0 {
      CountTimes(t, n - 1, lo, hi);
      assert Times(t, n)[..n - 1] == Times(t, n - 1);
    }
  }

  lemma {:induction false} BusyUses(r: Request)
    requires r.limit > 0 && r.window > 0
    ensures Uses(BusyCalls(r), r.key)
         == if r.window == 1 then Times(0, r.limit)
            else Times(0, 1) + Times(r.window - 1, r.limit - 1) + Times(r.window, r.limit)
  {
    hide After, Uses;
    NoCalls(r.key);
    if r.window == 1 {
      RepeatedUses([], r, 0, r.limit);
      assert [] + Repeated(r, 0, r.limit) == Repeated(r, 0, r.limit) && [] + Times(0, r.limit) == Times(0, r.limit);
    } else {
      var c1 := Repeated(r, 0, 1);
      var c2 := c1 + Repeated(r, r.window - 1, r.limit - 1);
      RepeatedUses([], r, 0, 1);
      assert [] + c1 == c1 && [] + Times(0, 1) == Times(0, 1);
      RepeatedUses(c1, r, r.window - 1, r.limit - 1);
      RepeatedUses(c2, r, r.window, r.limit);
    }
  }

  /** The bound is attained for every limit and every window. */
  lemma {:induction false} SlidingIntervalBoundIsMet(r: Request)
    requires Usable(r)
    ensures var from := if r.window == 1 then 0 else 1;
            && Monotone(BusyCalls(r)) && Follows(BusyCalls(r), _ => Policy(r.limit, r.window))
            && CountIn(Uses(BusyCalls(r), r.key), from, from + r.window) == Peak(r.limit, r.window)
  {
    hide Uses, CountIn;
    BusyUses(r);
    var from := if r.window == 1 then 0 else 1;
    CountTimes(0, r.limit, 0, 1);
    if r.window > 1 {
      CountTimes(0, 1, from, from + r.window);
      CountTimes(r.window - 1, r.limit - 1, from, from + r.window);
      CountTimes(r.window, r.limit, from, from + r.window);
      CountConcat(Times(0, 1), Times(r.window - 1, r.limit - 1), from, from + r.window);
      CountConcat(Times(0, 1) + Times(r.window - 1, r.limit - 1), Times(r.window, r.limit), from, from + r.window);
    }
  }

  lemma {:induction false} NoCalls(k: Key)
    ensures After([]) == map[] && Uses([], k) == []
  {
  }

  lemma {:induction false} OneMoreUse(calls: seq<Call>, r: Request, now: int)
    requires Fits(After(calls), r, now)
    ensures After(calls + [Call([r], now)]) == After(calls)[r.key := var s := Seen(After(calls), r, now);
            s.(count := s.count + 1)]
    ensures Uses(calls + [Call([r], now)], r.key) == Uses(calls, r.key) + [now]
  {
    var more := calls + [Call([r], now)];
    assert more[..|more| - 1] == calls;
    assert r in [r] && [r][..0] == [];
    assert Charge(After(calls), [r][..0], now) == After(calls);
    assert Names(more[|more| - 1], r.key);
  }

  // The bucket of the request has admitted its limit within the window that ends now.
  ghost predicate UsedUp(calls: seq<Call>, r: Request, now: int) {
    CountIn(Uses(calls, r.key), now - r.window + 1, now + 1) >= r.limit
  }

  ghost predicate SomeUsedUp(calls: seq<Call>, reqs: seq<Request>, now: int) {
    exists r :: r in reqs && UsedUp(calls, r, now)
  }

  /** A rejected call changes nothing, and one of its buckets has used up its limit inside its open window. */
  lemma {:induction false} RejectionMeansFull(calls: seq<Call>, policy: Key -> Policy)
    requires calls != [] && Monotone(calls) && Follows(calls, policy) && !LastAdmitted(calls)
    ensures After(calls) == After(calls[..|calls| - 1])
    ensures SomeUsedUp(calls[..|calls| - 1], calls[|calls| - 1].reqs, calls[|calls| - 1].now)
  {
    hide Windows, Uses, CountIn, Charge;
    var init, last := calls[..|calls| - 1], calls[|calls| - 1];
    var r :| r in last.reqs && !Fits(After(init), r, last.now);
    assert forall i :: 0 <= i < |init| ==> init[i] == calls[i];
    RefusedIsUsedUp(init, policy, r, last.now);
  }

  lemma {:induction false} RefusedIsUsedUp(calls: seq<Call>, policy: Key -> Policy, r: Request, now: int)
    requires Monotone(calls) && Follows(calls, policy) && (calls != [] ==> calls[|calls| - 1].now <= now)
    requires policy(r.key) == Policy(r.limit, r.window) && Usable(r) && !Fits(After(calls), r, now)
    ensures UsedUp(calls, r, now)
  {
    hide Windows, Uses, Flatten, WellSpaced, CountIn, Charge;
    BucketIsLastWindow(calls, r.key, policy, now);
    WindowsAreUses(calls, r.key);
    UsesAreInThePast(calls, r.key, now);
    FullWindow(Windows(calls, r.key), r.limit, r.window, now);
  }

  lemma FullWindow(ws: seq<seq<int>>, limit: int, window: int, now: int)
    requires ws != [] && WellSpaced(ws, limit, window)
    requires now < ws[|ws| - 1][0] + window
    requires forall i :: 0 <= i < |Flatten(ws)| ==> Flatten(ws)[i] <= now
    ensures CountIn(Flatten(ws), now - window + 1, now + 1) >= |ws[|ws| - 1]|
  {
    var init, last := ws[..|ws| - 1], ws[|ws| - 1];
    CountConcat(Flatten(init), last, now - window + 1, now + 1);
    forall i | 0 <= i < |last| ensures now - window + 1 <= last[i] < now + 1 {
      assert last[i] == Flatten(ws)[|Flatten(init)| + i];
    }
    CountAll(last, now - window + 1, now + 1);
  }

  lemma {:induction false} UsesAreInThePast(calls: seq<Call>, k: Key, now: int)
    requires forall i :: 0 <= i < |calls| ==> calls[i].now <= now
    ensures forall i :: 0 <= i < |Uses(calls, k)| ==> Uses(calls, k)[i] <= now
  {
    if calls != [] {
      UsesAreInThePast(calls[..|calls| - 1], k, now);
    }
  }

  lemma {:induction false} CountAll(s: seq<int>, lo: int, hi: int)
    requires forall i :: 0 <= i < |s| ==> lo <= s[i] < hi
    ensures CountIn(s, lo, hi) == |s|
  {
    if s != [] {
      CountAll(s[..|s| - 1], lo, hi);
    }
  }

  // ----- Deleting expired rows -----

  // A table history: uses, and deletions of rows whose window is over.
  datatype Op = Use(call: Call) | Delete(now: int, victims: set<Key>)

  function TimeOf(op: Op): int {
    match op case Use(c) => c.now case Delete(now, _) => now
  }

  // A deletion only ever selects expired rows, whatever set it is asked for.
  function Deleted(b: Buckets, now: int, victims: set<Key>): Buckets {
    b - set k | k in victims && k in b && b[k].expiresAt <= now
  }

  function Decisions(b: Buckets, ops: seq<Op>): seq<bool>
    decreases |ops|
  {
    if ops == [] then [] else
      match ops[0]
      case Use(c) => [Admits(b, c.reqs, c.now)] + Decisions(AllowMany(b, c.reqs, c.now), ops[1..])
      case Delete(now, victims) => Decisions(Deleted(b, now, victims), ops[1..])
  }

  function OnlyUses(ops: seq<Op>): seq<Op> {
    if ops == [] then [] else (if ops[0].Use? then [ops[0]] else []) + OnlyUses(ops[1..])
  }

  // Two bucket maps that a limiter cannot tell apart from `now` on.
  ghost predicate SameOpenWindows(b: Buckets, c: Buckets, now: int) {
    forall k :: ((k in b && b[k].expiresAt > now) <==> (k in c && c[k].expiresAt > now))
                && (k in b && b[k].expiresAt > now ==> b[k] == c[k])
  }

  lemma {:induction false} ChargeKeepsOpenWindows(b: Buckets, c: Buckets, reqs: seq<Request>, now: int)
    requires SameOpenWindows(b, c, now)
    ensures SameOpenWindows(Charge(b, reqs, now), Charge(c, reqs, now), now)
  {
    if reqs != [] {
      ChargeKeepsOpenWindows(b, c, reqs[..|reqs| - 1], now);
      var r := reqs[|reqs| - 1];
      assert Seen(b, r, now) == Seen(c, r, now);
    }
  }

  lemma {:induction false} SameWindowsSameDecisions(b: Buckets, c: Buckets, ops: seq<Op>, now: int)
    requires SameOpenWindows(b, c, now)
    requires forall i :: 0 <= i < |ops| ==> now <= TimeOf(ops[i])
    requires forall i, j :: 0 <= i < j < |ops| ==> TimeOf(ops[i]) <= TimeOf(ops[j])
    ensures Decisions(b, ops) == Decisions(c, OnlyUses(ops))
    decreases |ops|
  {
    if ops != [] {
      var t := TimeOf(ops[0]);
      assert SameOpenWindows(b, c, t);
      assert forall i :: 0 <= i < |ops[1..]| ==> t <= TimeOf(ops[1..][i]);
      match ops[0]
      case Use(call) =>
        assert forall r :: Seen(b, r, t) == Seen(c, r, t);
        ChargeKeepsOpenWindows(b, c, call.reqs, t);
        SameWindowsSameDecisions(AllowMany(b, call.reqs, t), AllowMany(c, call.reqs, t), ops[1..], t);
        assert OnlyUses(ops)[1..] == OnlyUses(ops[1..]);
      case Delete(_, victims) =>
        SameWindowsSameDecisions(Deleted(b, t, victims), c, ops[1..], t);
        assert OnlyUses(ops) == OnlyUses(ops[1..]);
    }
  }

  /** Deleting expired rows at any points of a history changes no decision of the history. */
  lemma {:induction false} DeletionIsInvisible(b: Buckets, ops: seq<Op>)
    requires forall i, j :: 0 <= i < j < |ops| ==> TimeOf(ops[i]) <= TimeOf(ops[j])
    ensures Decisions(b, ops) == Decisions(b, OnlyUses(ops))
  {
    if ops != [] {
      SameWindowsSameDecisions(b, b, ops, TimeOf(ops[0]));
    }
  }

  /** The two implementations, driven by one history, take the same decisions and hold the same buckets. */
  method DriveBoth(calls: seq<Call>) returns (local: seq<bool>, stored: seq<bool>, buckets: Buckets, table: Table)
    requires forall i :: 0 <= i < |calls| ==> calls[i].reqs != []
    requires forall i, r :: 0 <= i < |calls| && r in calls[i].reqs ==> Usable(r) && Storable(r)
    ensures local == stored && |local| == |calls|
    ensures buckets == Project(table) == After(calls)
    ensures forall i :: 0 <= i < |calls| ==> local[i] == LastAdmitted(calls[..i + 1])
  {
    var limiter := new RateLimiter();
    var repository := new RateLimitBucketRepository();
    local, stored := [], [];
    assert calls[..0] == [];
    for i := 0 to |calls|
      invariant local == stored && |local| == i
      invariant limiter.buckets == Project(repository.table) == After(calls[..i])
      invariant forall j :: 0 <= j < i ==> local[j] == LastAdmitted(calls[..j + 1])
    {
      assert calls[..i + 1][..i] == calls[..i];
      var a := limiter.AllowManyRequests(calls[i].reqs, calls[i].now);
      var b := repository.ConsumeMany(calls[i].reqs, calls[i].now);
      local, stored := local + [a.value], stored + [b.value];
    }
    assert calls[..|calls|] == calls;
    return local, stored, limiter.buckets, repository.table;
  }
}
