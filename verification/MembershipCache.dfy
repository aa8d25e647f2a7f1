/**
 * The permission cache in its two forms: the in-process Map, which can be scanned, and
 * Redis, which cannot, so that writes keep reverse index sets with expiries of their own.
 * In Redis an invalidation by role or by user is two calls, the members read and the keys
 * deleted, and anything may happen between them. Times are milliseconds; an entry is live
 * while the clock is short of its expiry.
 */
module MembershipCache {
  import opened Wrappers

  datatype Snapshot = Snapshot(membership: nat, role: nat, user: nat, permissions: set<nat>)

  datatype Timed<T> = Timed(expires: nat, value: T)

  type Local = map<nat, Timed<Snapshot>>

  /** The key of a reverse index: the memberships of a role, or of a user. */
  datatype IndexKey = OfRole(role: nat) | OfUser(user: nat)

  type Index = map<IndexKey, Timed<set<nat>>>

  datatype Redis = Redis(keys: map<nat, Timed<Snapshot>>, index: Index)

  const TTL: nat := 30 * 1000
  const INDEX_TTL: nat := 300 * 1000

  /** Drop(key, at) deletes what the Read at position `at` returned; the Map scans instead. */
  datatype Op =
    | Set(snapshot: Snapshot)
    | Get(membership: nat)
    | InvalidateMembership(membership: nat)
    | Read(key: IndexKey)
    | Drop(key: IndexKey, at: nat)
    | Clear

  /** failed: Redis did not answer, so a read falls through and a write is only logged. */
  datatype Call = Call(op: Op, now: nat, failed: bool)

  predicate Live<K, T>(entries: map<K, Timed<T>>, k: K, now: nat) { k in entries && now < entries[k].expires }

  function Lookup<K, T>(entries: map<K, Timed<T>>, k: K, now: nat): Option<T> {
    if Live(entries, k, now) then Some(entries[k].value) else None
  }

  predicate Under(key: IndexKey, snapshot: Snapshot) {
    match key
    case OfRole(role) => snapshot.role == role
    case OfUser(user) => snapshot.user == user
  }

  // ---------------------------------------------------------------------------
  // The Map
  // ---------------------------------------------------------------------------

  function LocalStep(local: Local, op: Op, now: nat): Local {
    match op
    case Set(snapshot) => local[snapshot.membership := Timed(now + TTL, snapshot)]
    case Get(id) => if id in local && !Live(local, id, now) then local - {id} else local
    case InvalidateMembership(id) => local - {id}
    case Read(_) => local
    case Drop(key, _) => map id | id in local && !Under(key, local[id].value) :: local[id]
    case Clear => map[]
  }

  // ---------------------------------------------------------------------------
  // Redis
  // ---------------------------------------------------------------------------

  /** smembers: a set that has expired is empty. */
  function Members(index: Index, key: IndexKey, now: nat): set<nat> {
    if Live(index, key, now) then index[key].value else {}
  }

  /** sadd, then expire. */
  function Indexed(index: Index, key: IndexKey, id: nat, now: nat): Index {
    index[key := Timed(now + INDEX_TTL, Members(index, key, now) + {id})]
  }

  /** The multi of set: the snapshot and both indexes together. */
  function Stored(redis: Redis, snapshot: Snapshot, now: nat): Redis {
    Redis(redis.keys[snapshot.membership := Timed(now + TTL, snapshot)],
          Indexed(Indexed(redis.index, OfRole(snapshot.role), snapshot.membership, now),
                  OfUser(snapshot.user), snapshot.membership, now))
  }

  /** The del of invalidateIndexed: the keys of the members read, and the index itself. */
  function Dropped(redis: Redis, key: IndexKey, read: set<nat>): Redis {
    Redis(redis.keys - read, redis.index - {key})
  }

  const EMPTY := Redis(map[], map[])

  /** read: what the invalidation read, for a Drop. */
  function RedisStep(redis: Redis, op: Op, now: nat, read: set<nat>): Redis {
    match op
    case Set(snapshot) => Stored(redis, snapshot, now)
    case Get(_) => redis
    case InvalidateMembership(id) => redis.(keys := redis.keys - {id})
    case Read(_) => redis
    case Drop(key, _) => Dropped(redis, key, read)
    case Clear => EMPTY
  }

  // ---------------------------------------------------------------------------
  // Runs
  // ---------------------------------------------------------------------------

  /** Time never runs backwards from one call to the next. */
  ghost predicate InOrder(calls: seq<Call>) {
    forall i, j | 0 <= i < j < |calls| :: calls[i].now <= calls[j].now
  }

  /** A deletion follows a read of its index that was answered. */
  predicate Paired(calls: seq<Call>, i: nat)
    requires i < |calls| && calls[i].op.Drop?
  {
    calls[i].op.at < i && calls[calls[i].op.at].op == Read(calls[i].op.key) && !calls[calls[i].op.at].failed
  }

  /** The call reaches Redis and changes it, or may. */
  predicate Effective(calls: seq<Call>, i: nat)
    requires i < |calls|
  {
    !calls[i].failed && (calls[i].op.Drop? ==> Paired(calls, i))
  }

  function ReadAt(calls: seq<Call>, i: nat): set<nat>
    requires i < |calls| && calls[i].op.Read?
    decreases i, 1
  {
    Members(RunRedis(calls, i).index, calls[i].op.key, calls[i].now)
  }

  function RunRedis(calls: seq<Call>, n: nat): Redis
    requires n <= |calls|
    decreases n, 0
  {
    if n == 0 then EMPTY
    else
      var before, call := RunRedis(calls, n - 1), calls[n - 1];
      if !Effective(calls, n - 1) then before
      else RedisStep(before, call.op, call.now, if call.op.Drop? then ReadAt(calls, call.op.at) else {})
  }

  function RunLocal(calls: seq<Call>, n: nat): Local
    requires n <= |calls|
  {
    if n == 0 then map[] else LocalStep(RunLocal(calls, n - 1), calls[n - 1].op, calls[n - 1].now)
  }

  /** What a get at position i returns. */
  function RedisAnswer(calls: seq<Call>, i: nat): Option<Snapshot>
    requires i < |calls| && calls[i].op.Get?
  {
    if calls[i].failed then None else Lookup(RunRedis(calls, i).keys, calls[i].op.membership, calls[i].now)
  }

  function LocalAnswer(calls: seq<Call>, i: nat): Option<Snapshot>
    requires i < |calls| && calls[i].op.Get?
  {
    Lookup(RunLocal(calls, i), calls[i].op.membership, calls[i].now)
  }

  function Clock(calls: seq<Call>, n: nat): nat
    requires n <= |calls|
  {
    if n == 0 then 0 else calls[n - 1].now
  }

  // ---------------------------------------------------------------------------
  // Where an entry comes from
  // ---------------------------------------------------------------------------

  predicate SetsId(calls: seq<Call>, k: nat, id: nat)
    requires k < |calls|
  {
    calls[k].op.Set? && !calls[k].failed && calls[k].op.snapshot.membership == id
  }

  /** The call that stored the entry. */
  function Origin(calls: seq<Call>, n: nat, id: nat): (k: nat)
    requires n <= |calls| && id in RunRedis(calls, n).keys
    ensures k < n && SetsId(calls, k, id)
    ensures RunRedis(calls, n).keys[id] == Timed(calls[k].now + TTL, calls[k].op.snapshot)
  {
    if SetsId(calls, n - 1, id) then n - 1 else Origin(calls, n - 1, id)
  }

  /** From its origin on, the entry has been there unchanged. */
  lemma {:induction false} EntrySince(calls: seq<Call>, m: nat, n: nat, id: nat)
    requires n <= |calls| && id in RunRedis(calls, n).keys && Origin(calls, n, id) < m <= n
    ensures id in RunRedis(calls, m).keys && RunRedis(calls, m).keys[id] == RunRedis(calls, n).keys[id]
    ensures Origin(calls, m, id) == Origin(calls, n, id)
  {
    if m < n { EntrySince(calls, m, n - 1, id); }
  }

  /** No entry outlives the time to live it was given. */
  lemma EntryIsRecent(calls: seq<Call>, n: nat, id: nat)
    requires InOrder(calls) && n <= |calls| && id in RunRedis(calls, n).keys
    ensures RunRedis(calls, n).keys[id].expires <= Clock(calls, n) + TTL
  {
    var k := Origin(calls, n, id);
  }

  // ---------------------------------------------------------------------------
  // Listed, or dropped from its index
  // ---------------------------------------------------------------------------

  /** Listed by an index that expires no earlier than the entry. */
  predicate Lists(index: Index, key: IndexKey, id: nat, until: nat) {
    key in index && id in index[key].value && until <= index[key].expires
  }

  predicate DropsAt(calls: seq<Call>, i: nat, key: IndexKey) {
    i < |calls| && calls[i].op.Drop? && calls[i].op.key == key && Effective(calls, i)
  }

  /** The index has been deleted since the entry was stored. */
  ghost predicate DroppedSince(calls: seq<Call>, n: nat, id: nat, key: IndexKey)
    requires n <= |calls| && id in RunRedis(calls, n).keys
  {
    exists i :: Origin(calls, n, id) < i < n && DropsAt(calls, i, key)
  }

  ghost predicate Alive(calls: seq<Call>, n: nat, id: nat, key: IndexKey) {
    n <= |calls| && Live(RunRedis(calls, n).keys, id, Clock(calls, n)) && Under(key, RunRedis(calls, n).keys[id].value)
  }

  /** The index of an entry as one call leaves it. */
  lemma CallListing(calls: seq<Call>, n: nat, id: nat, key: IndexKey)
    requires InOrder(calls) && 0 < n <= |calls| && Alive(calls, n, id, key)
    requires !SetsId(calls, n - 1, id) && !DropsAt(calls, n - 1, key)
    ensures Alive(calls, n - 1, id, key)
    ensures var e, before, after := RunRedis(calls, n).keys[id].expires, RunRedis(calls, n - 1).index, RunRedis(calls, n).index;
      && (Lists(before, key, id, e) ==> Lists(after, key, id, e))
      && ((key in after && id in after[key].value) ==> key in before && id in before[key].value)
  {
    EntryIsRecent(calls, n, id);
  }

  /** An entry is listed exactly as long as its index has not been deleted; afterwards it is on no list. */
  lemma {:induction false} ListedUnlessDropped(calls: seq<Call>, n: nat, id: nat, key: IndexKey)
    requires InOrder(calls) && n <= |calls| && Alive(calls, n, id, key)
    ensures var redis := RunRedis(calls, n);
      if DroppedSince(calls, n, id, key) then !(key in redis.index && id in redis.index[key].value)
      else Lists(redis.index, key, id, redis.keys[id].expires)
  {
    if !SetsId(calls, n - 1, id) {
      if DropsAt(calls, n - 1, key) {
        assert DroppedSince(calls, n, id, key);
      } else {
        CallListing(calls, n, id, key);
        ListedUnlessDropped(calls, n - 1, id, key);
        SameDrops(calls, n, id, key);
      }
    } else {
      StoredIsListed(calls, n, id, key);
    }
  }

  lemma SameDrops(calls: seq<Call>, n: nat, id: nat, key: IndexKey)
    requires 0 < n <= |calls| && id in RunRedis(calls, n).keys
    requires !SetsId(calls, n - 1, id) && !DropsAt(calls, n - 1, key)
    ensures DroppedSince(calls, n, id, key) <==> DroppedSince(calls, n - 1, id, key)
  {
    if DroppedSince(calls, n, id, key) {
      var i :| Origin(calls, n, id) < i < n && DropsAt(calls, i, key);
      assert i != n - 1;
    }
  }

  lemma StoredIsListed(calls: seq<Call>, n: nat, id: nat, key: IndexKey)
    requires 0 < n <= |calls| && Alive(calls, n, id, key) && SetsId(calls, n - 1, id)
    ensures Lists(RunRedis(calls, n).index, key, id, RunRedis(calls, n).keys[id].expires)
    ensures !DroppedSince(calls, n, id, key)
  {
    assert Origin(calls, n, id) == n - 1;
  }

  // ---------------------------------------------------------------------------
  // Stored in the gap
  // ---------------------------------------------------------------------------

  /** The set at k came between the read and the deletion at i, for a membership the read had not seen. */
  predicate InGap(calls: seq<Call>, i: nat, k: nat, key: IndexKey) {
    && DropsAt(calls, i, key) && calls[i].op.at < k < i
    && calls[k].op.Set? && !calls[k].failed && Under(key, calls[k].op.snapshot)
    && calls[k].op.snapshot.membership !in ReadAt(calls, calls[i].op.at)
  }

  /** What the set at k stored is still there, and live. */
  predicate Survives(calls: seq<Call>, k: nat, n: nat) {
    && k < n <= |calls| && calls[k].op.Set?
    && var id := calls[k].op.snapshot.membership;
       id in RunRedis(calls, n).keys && Origin(calls, n, id) == k && Live(RunRedis(calls, n).keys, id, Clock(calls, n))
  }

  predicate Astray(calls: seq<Call>, i: nat, k: nat, n: nat, key: IndexKey) {
    i < n && InGap(calls, i, k, key) && Survives(calls, k, n)
  }

  ghost predicate SomeAstray(calls: seq<Call>, n: nat, key: IndexKey) { exists i, k :: Astray(calls, i, k, n, key) }

  /** An entry its first deletion left behind was stored between that deletion and its read. */
  lemma {:induction false} DroppedMeansGap(calls: seq<Call>, n: nat, id: nat, key: IndexKey) returns (i: nat)
    requires InOrder(calls) && n <= |calls| && Alive(calls, n, id, key) && DroppedSince(calls, n, id, key)
    ensures Astray(calls, i, Origin(calls, n, id), n, key)
  {
    var k := Origin(calls, n, id);
    i := n - 1;
    EntrySince(calls, n - 1, n, id);
    if DroppedSince(calls, n - 1, id, key) {
      i := DroppedMeansGap(calls, n - 1, id, key);
    } else {
      OnlyTheLast(calls, n, id, key);
      if calls[n - 1].op.at > k { ReadSeesListed(calls, n, id, key); }
    }
  }

  lemma OnlyTheLast(calls: seq<Call>, n: nat, id: nat, key: IndexKey)
    requires 0 < n <= |calls| && id in RunRedis(calls, n).keys && !SetsId(calls, n - 1, id)
    requires DroppedSince(calls, n, id, key) && !DroppedSince(calls, n - 1, id, key)
    ensures DropsAt(calls, n - 1, key) && id !in ReadAt(calls, calls[n - 1].op.at)
  {
    var i :| Origin(calls, n, id) < i < n && DropsAt(calls, i, key);
    assert i == n - 1;
  }

  /** A read that comes after the entry was stored, and before its index is deleted, returns it. */
  lemma ReadSeesListed(calls: seq<Call>, n: nat, id: nat, key: IndexKey)
    requires InOrder(calls) && 0 < n <= |calls| && Alive(calls, n, id, key) && DropsAt(calls, n - 1, key)
    requires Origin(calls, n, id) < calls[n - 1].op.at && !SetsId(calls, n - 1, id)
    requires !DroppedSince(calls, n - 1, id, key)
    ensures id in ReadAt(calls, calls[n - 1].op.at)
  {
    var at := calls[n - 1].op.at;
    EntrySince(calls, at, n, id);
    assert Alive(calls, at, id, key);
    ListedUnlessDropped(calls, at, id, key);
  }

  /** What has gone astray is on no list. */
  lemma AstrayIsUnlisted(calls: seq<Call>, i: nat, k: nat, n: nat, key: IndexKey)
    requires InOrder(calls) && Astray(calls, i, k, n, key)
    ensures var id := calls[k].op.snapshot.membership;
      && Alive(calls, n, id, key) && DroppedSince(calls, n, id, key)
      && !Lists(RunRedis(calls, n).index, key, id, RunRedis(calls, n).keys[id].expires)
  {
    var id := calls[k].op.snapshot.membership;
    assert Origin(calls, n, id) < i < n;
    ListedUnlessDropped(calls, n, id, key);
  }

  // ---------------------------------------------------------------------------
  // The theorems
  // ---------------------------------------------------------------------------

  /** Every live snapshot under the key can be found by an invalidation of it. */
  ghost predicate Findable(calls: seq<Call>, n: nat, key: IndexKey)
    requires n <= |calls|
  {
    forall id | Alive(calls, n, id, key) :: Lists(RunRedis(calls, n).index, key, id, RunRedis(calls, n).keys[id].expires)
  }

  ghost predicate NoneUnder(calls: seq<Call>, n: nat, key: IndexKey)
    requires n <= |calls|
  {
    forall id :: !Alive(calls, n, id, key)
  }

  /**
   * In any timed run, failures included, every live snapshot of a role or user is listed
   * under it, by an index that expires no earlier, exactly when none stored in the gap of
   * one of its invalidations has survived.
   */
  lemma FindableIff(calls: seq<Call>, n: nat, key: IndexKey)
    requires InOrder(calls) && n <= |calls|
    ensures Findable(calls, n, key) <==> !SomeAstray(calls, n, key)
  {
    if SomeAstray(calls, n, key) {
      var i, k :| Astray(calls, i, k, n, key);
      AstrayIsUnlisted(calls, i, k, n, key);
    } else {
      forall id | Alive(calls, n, id, key)
        ensures Lists(RunRedis(calls, n).index, key, id, RunRedis(calls, n).keys[id].expires)
      {
        ListedUnlessDropped(calls, n, id, key);
        if DroppedSince(calls, n, id, key) { var i := DroppedMeansGap(calls, n, id, key); }
      }
    }
  }

  /**
   * After an invalidation has deleted, nothing it was meant to remove is live exactly when
   * nothing stored in the gap of an invalidation of that role or user has survived.
   */
  lemma DropClearsIff(calls: seq<Call>, i: nat, key: IndexKey)
    requires InOrder(calls) && DropsAt(calls, i, key)
    ensures NoneUnder(calls, i + 1, key) <==> !SomeAstray(calls, i + 1, key)
  {
    var n := i + 1;
    if SomeAstray(calls, n, key) {
      var j, k :| Astray(calls, j, k, n, key);
      AstrayIsUnlisted(calls, j, k, n, key);
    } else {
      forall id | Alive(calls, n, id, key) ensures false {
        assert DroppedSince(calls, n, id, key);
        var j := DroppedMeansGap(calls, n, id, key);
      }
    }
  }

  /** Nothing unseen by its read was stored between the read and the deletion at i, and is live after it. */
  ghost predicate QuietGap(calls: seq<Call>, i: nat, key: IndexKey)
    requires i < |calls|
  {
    forall k: nat | InGap(calls, i, k, key) :: !Survives(calls, k, i + 1)
  }

  /**
   * One invalidation by itself: if its read could find every live snapshot, then the
   * deletion leaves none, and leaves all findable, exactly when its own gap was quiet.
   */
  lemma DropClearsOwnGapIff(calls: seq<Call>, i: nat, key: IndexKey)
    requires InOrder(calls) && DropsAt(calls, i, key) && Findable(calls, calls[i].op.at, key)
    ensures NoneUnder(calls, i + 1, key) <==> QuietGap(calls, i, key)
    ensures Findable(calls, i + 1, key) <==> QuietGap(calls, i, key)
  {
    var n := i + 1;
    FindableIff(calls, n, key);
    DropClearsIff(calls, i, key);
    if SomeAstray(calls, n, key) {
      var j, k :| Astray(calls, j, k, n, key);
      AstrayFromOwnGap(calls, i, j, k, key);
    }
    assert forall k: nat | InGap(calls, i, k, key) && Survives(calls, k, n) :: Astray(calls, i, k, n, key);
  }

  lemma AstrayFromOwnGap(calls: seq<Call>, i: nat, j: nat, k: nat, key: IndexKey)
    requires InOrder(calls) && DropsAt(calls, i, key) && Findable(calls, calls[i].op.at, key)
    requires Astray(calls, j, k, i + 1, key)
    ensures InGap(calls, i, k, key)
  {
    var id, at := calls[k].op.snapshot.membership, calls[i].op.at;
    assert Origin(calls, i + 1, id) == k && k != at && k != i;
    assert id !in ReadAt(calls, at);
    if k < at {
      EntrySince(calls, at, i + 1, id);
      assert Alive(calls, at, id, key);
    }
  }

  // ---------------------------------------------------------------------------
  // Redis against the Map
  // ---------------------------------------------------------------------------

  /** No write before position n is lost. */
  ghost predicate NothingLost(calls: seq<Call>, n: nat)
    requires n <= |calls|
  {
    forall k | 0 <= k < n :: calls[k].op.Get? || Effective(calls, k)
  }

  /** An index of the entry has been deleted since it was stored. */
  ghost predicate Unlisted(calls: seq<Call>, n: nat, id: nat)
    requires n <= |calls| && id in RunRedis(calls, n).keys
  {
    var snapshot := RunRedis(calls, n).keys[id].value;
    DroppedSince(calls, n, id, OfRole(snapshot.role)) || DroppedSince(calls, n, id, OfUser(snapshot.user))
  }

  lemma UnderItsKeys(calls: seq<Call>, n: nat, id: nat, key: IndexKey)
    requires n <= |calls| && id in RunRedis(calls, n).keys && Under(key, RunRedis(calls, n).keys[id].value)
    requires DroppedSince(calls, n, id, key)
    ensures Unlisted(calls, n, id)
  {
    var snapshot := RunRedis(calls, n).keys[id].value;
    assert key == OfRole(snapshot.role) || key == OfUser(snapshot.user);
  }

  lemma UnlistedStep(calls: seq<Call>, n: nat, id: nat)
    requires 0 < n <= |calls| && id in RunRedis(calls, n).keys && !SetsId(calls, n - 1, id)
    requires !(calls[n - 1].op.Drop? && Effective(calls, n - 1)
               && Under(calls[n - 1].op.key, RunRedis(calls, n).keys[id].value))
    ensures Unlisted(calls, n, id) <==> Unlisted(calls, n - 1, id)
  {
    var snapshot := RunRedis(calls, n).keys[id].value;
    SameDrops(calls, n, id, OfRole(snapshot.role));
    SameDrops(calls, n, id, OfUser(snapshot.user));
  }

  /** What is live in Redis is in the Map, and the same, until one of its indexes is deleted; then it is not. */
  lemma {:induction false} MapFollows(calls: seq<Call>, n: nat, id: nat)
    requires InOrder(calls) && n <= |calls| && NothingLost(calls, n)
    requires Live(RunRedis(calls, n).keys, id, Clock(calls, n))
    ensures var local := RunLocal(calls, n);
      if Unlisted(calls, n, id) then id !in local else id in local && local[id] == RunRedis(calls, n).keys[id]
  {
    hide Unlisted, RunLocal;
    var call := calls[n - 1];
    if SetsId(calls, n - 1, id) {
      MapStores(calls, n, id);
    } else {
      var snapshot := RunRedis(calls, n).keys[id].value;
      MapFollows(calls, n - 1, id);
      if call.op.Drop? && Effective(calls, n - 1) && Under(call.op.key, snapshot) {
        MapDrops(calls, n, id);
      } else {
        UnlistedStep(calls, n, id);
        MapKeeps(calls, n, id);
      }
    }
  }

  lemma MapStores(calls: seq<Call>, n: nat, id: nat)
    requires 0 < n <= |calls| && SetsId(calls, n - 1, id)
    ensures id in RunRedis(calls, n).keys && !Unlisted(calls, n, id)
    ensures id in RunLocal(calls, n) && RunLocal(calls, n)[id] == RunRedis(calls, n).keys[id]
  {
    assert Origin(calls, n, id) == n - 1;
  }

  /** A deletion of one of its indexes takes the entry out of the Map. */
  lemma MapDrops(calls: seq<Call>, n: nat, id: nat)
    requires 0 < n <= |calls| && id in RunRedis(calls, n).keys && !SetsId(calls, n - 1, id)
    requires calls[n - 1].op.Drop? && Effective(calls, n - 1)
    requires Under(calls[n - 1].op.key, RunRedis(calls, n).keys[id].value)
    requires id in RunLocal(calls, n - 1) ==> RunLocal(calls, n - 1)[id].value == RunRedis(calls, n).keys[id].value
    ensures Unlisted(calls, n, id) && id !in RunLocal(calls, n)
  {
    hide Unlisted, RunRedis, Under;
    var key := calls[n - 1].op.key;
    assert DropsAt(calls, n - 1, key);
    assert DroppedSince(calls, n, id, key);
    UnderItsKeys(calls, n, id, key);
  }

  /** Any other call that leaves the entry in Redis leaves it in the Map. */
  lemma MapKeeps(calls: seq<Call>, n: nat, id: nat)
    requires 0 < n <= |calls| && NothingLost(calls, n) && Live(RunRedis(calls, n).keys, id, Clock(calls, n))
    requires !SetsId(calls, n - 1, id)
    requires !(calls[n - 1].op.Drop? && Effective(calls, n - 1)
               && Under(calls[n - 1].op.key, RunRedis(calls, n).keys[id].value))
    requires id in RunRedis(calls, n - 1).keys && RunRedis(calls, n - 1).keys[id] == RunRedis(calls, n).keys[id]
    requires id in RunLocal(calls, n - 1) ==> RunLocal(calls, n - 1)[id] == RunRedis(calls, n).keys[id]
    ensures id in RunLocal(calls, n) <==> id in RunLocal(calls, n - 1)
    ensures id in RunLocal(calls, n) ==> RunLocal(calls, n)[id] == RunRedis(calls, n).keys[id]
  {
    assert calls[n - 1].op.Get? || Effective(calls, n - 1);
  }

  /** The entry was stored in the gap of an invalidation of its role or of its user. */
  ghost predicate Escaped(calls: seq<Call>, n: nat, id: nat)
    requires n <= |calls| && id in RunRedis(calls, n).keys
  {
    exists i, key :: Astray(calls, i, Origin(calls, n, id), n, key)
  }

  lemma EscapedIffUnlisted(calls: seq<Call>, n: nat, id: nat)
    requires InOrder(calls) && n <= |calls| && Live(RunRedis(calls, n).keys, id, Clock(calls, n))
    ensures Escaped(calls, n, id) <==> Unlisted(calls, n, id)
  {
    var snapshot := RunRedis(calls, n).keys[id].value;
    if Escaped(calls, n, id) {
      var i, key :| Astray(calls, i, Origin(calls, n, id), n, key);
      AstrayIsUnlisted(calls, i, Origin(calls, n, id), n, key);
      UnderItsKeys(calls, n, id, key);
    }
    if Unlisted(calls, n, id) {
      var key := if DroppedSince(calls, n, id, OfRole(snapshot.role)) then OfRole(snapshot.role) else OfUser(snapshot.user);
      var i := DroppedMeansGap(calls, n, id, key);
    }
  }

  /**
   * Over any timed run in which no write is lost, what Redis returns is what the Map
   * returns, unless it was stored in the gap of an invalidation: then the Map has nothing.
   */
  lemma RedisReturnsNoMore(calls: seq<Call>, i: nat)
    requires InOrder(calls) && i < |calls| && calls[i].op.Get? && NothingLost(calls, i)
    ensures RedisAnswer(calls, i).Some? ==>
      LocalAnswer(calls, i) == if Escaped(calls, i, calls[i].op.membership) then None else RedisAnswer(calls, i)
  {
    if RedisAnswer(calls, i).Some? {
      assert Live(RunRedis(calls, i).keys, calls[i].op.membership, Clock(calls, i));
      MapFollows(calls, i, calls[i].op.membership);
      EscapedIffUnlisted(calls, i, calls[i].op.membership);
    }
  }

  // ---------------------------------------------------------------------------
  // Invalidation
  // ---------------------------------------------------------------------------

  /** A snapshot this invalidation must remove. */
  predicate Hit(op: Op, snapshot: Snapshot) {
    match op
    case InvalidateMembership(id) => snapshot.membership == id
    case Drop(key, _) => Under(key, snapshot)
    case Clear => true
    case _ => false
  }

  ghost predicate NoneHitLocally(local: Local, op: Op) {
    forall id | id in local :: !Hit(op, local[id].value)
  }

  lemma {:induction false} LocalKeys(calls: seq<Call>, n: nat)
    requires n <= |calls|
    ensures forall id | id in RunLocal(calls, n) :: RunLocal(calls, n)[id].value.membership == id
  {
    if n > 0 { LocalKeys(calls, n - 1); }
  }

  lemma {:induction false} StaysInvalidLocally(calls: seq<Call>, i: nat, n: nat)
    requires i < n <= |calls|
    requires forall k | i < k < n :: calls[k].op.Set? ==> !Hit(calls[i].op, calls[k].op.snapshot)
    ensures NoneHitLocally(RunLocal(calls, n), calls[i].op)
  {
    if i == n - 1 { LocalKeys(calls, i); } else { StaysInvalidLocally(calls, i, n - 1); }
  }

  /** An invalidation of one membership, or of all, removes the entry at once. */
  lemma InvalidationRemoves(calls: seq<Call>, i: nat, n: nat, id: nat)
    requires i < n <= |calls| && Effective(calls, i) && id in RunRedis(calls, n).keys && Origin(calls, n, id) < i
    requires Hit(calls[i].op, RunRedis(calls, n).keys[id].value)
    ensures calls[i].op.Drop?
  {
    EntrySince(calls, i + 1, n, id);
  }

  /** The snapshot asked for at j was stored in the gap of an invalidation of `key`. */
  ghost predicate AstrayAnswer(calls: seq<Call>, j: nat, key: IndexKey)
    requires j < |calls| && calls[j].op.Get?
  {
    exists i: nat, k: nat :: Astray(calls, i, k, j, key) && calls[k].op.snapshot.membership == calls[j].op.membership
  }

  /**
   * After an invalidation, and until an affected snapshot is set again, the Map returns
   * none, and Redis returns one exactly when it was stored in the gap of an invalidation
   * of that role or user; one membership, or everything, is always gone.
   */
  lemma InvalidatedIsGone(calls: seq<Call>, i: nat, j: nat)
    requires InOrder(calls) && i < j < |calls| && calls[j].op.Get? && Effective(calls, i)
    requires forall k | i < k < j :: calls[k].op.Set? ==> !Hit(calls[i].op, calls[k].op.snapshot)
    ensures LocalAnswer(calls, j).Some? ==> !Hit(calls[i].op, LocalAnswer(calls, j).value)
    ensures RedisAnswer(calls, j).Some? ==>
      (Hit(calls[i].op, RedisAnswer(calls, j).value) <==>
       calls[i].op.Drop? && AstrayAnswer(calls, j, calls[i].op.key))
  {
    StaysInvalidLocally(calls, i, j);
    if RedisAnswer(calls, j).Some? {
      var id, answer := calls[j].op.membership, RedisAnswer(calls, j).value;
      assert Live(RunRedis(calls, j).keys, id, Clock(calls, j));
      if Hit(calls[i].op, answer) {
        assert Origin(calls, j, id) < i;
        InvalidationRemoves(calls, i, j, id);
        var key := calls[i].op.key;
        assert DropsAt(calls, i, key) && DroppedSince(calls, j, id, key);
        var d := DroppedMeansGap(calls, j, id, key);
        assert Astray(calls, d, Origin(calls, j, id), j, key);
      }
      if calls[i].op.Drop? && AstrayAnswer(calls, j, calls[i].op.key) {
        var d: nat, k: nat :| Astray(calls, d, k, j, calls[i].op.key) && calls[k].op.snapshot.membership == id;
        AstrayIsUnlisted(calls, d, k, j, calls[i].op.key);
      }
    }
  }

  // ---------------------------------------------------------------------------
  // When Redis fails
  // ---------------------------------------------------------------------------

  /**
   * However many calls fail, invalidations included, whatever Redis returns was stored
   * less than the time to live before: a lost invalidation is stale for thirty seconds at most.
   */
  lemma StaleForThirtySecondsAtMost(calls: seq<Call>, i: nat)
    requires InOrder(calls) && i < |calls| && calls[i].op.Get? && RedisAnswer(calls, i).Some?
    ensures var answer := RedisAnswer(calls, i).value;
      exists k :: 0 <= k < i && calls[k].op == Set(answer) && calls[k].now <= calls[i].now < calls[k].now + 30 * 1000
  {
    var k := Origin(calls, i, calls[i].op.membership);
    assert calls[k].op == Set(RedisAnswer(calls, i).value);
  }

  // ---------------------------------------------------------------------------
  // A gap that is not quiet
  // ---------------------------------------------------------------------------

  /** One invalidation with a set in its gap, another undisturbed, and a get. */
  function Gap(snapshot: Snapshot): seq<Call> {
    var key := OfRole(snapshot.role);
    [Call(Read(key), 0, false), Call(Set(snapshot), 1, false), Call(Drop(key, 0), 2, false),
     Call(Read(key), 3, false), Call(Drop(key, 3), 4, false), Call(Get(snapshot.membership), 5, false)]
  }

  /** The snapshot stored in the gap is missed by the next invalidation of its role too. */
  lemma StoredInTheGapIsMissed(snapshot: Snapshot)
    ensures InOrder(Gap(snapshot)) && InGap(Gap(snapshot), 2, 1, OfRole(snapshot.role))
    ensures RedisAnswer(Gap(snapshot), 5) == Some(snapshot) && LocalAnswer(Gap(snapshot), 5) == None
  {
    var calls := Gap(snapshot);
    assert RunRedis(calls, 0) == EMPTY;
    assert RunRedis(calls, 1) == EMPTY && ReadAt(calls, 0) == {};
    assert RunRedis(calls, 2) == Stored(EMPTY, snapshot, 1);
    assert RunRedis(calls, 3).keys == Stored(EMPTY, snapshot, 1).keys;
    assert OfRole(snapshot.role) !in RunRedis(calls, 3).index;
    assert RunRedis(calls, 4) == RunRedis(calls, 3) && ReadAt(calls, 3) == {};
    assert RunRedis(calls, 5).keys == RunRedis(calls, 3).keys;
    assert RunLocal(calls, 0) == map[] && RunLocal(calls, 1) == map[];
    assert RunLocal(calls, 2) == map[snapshot.membership := Timed(1 + TTL, snapshot)];
    assert RunLocal(calls, 3) == map[] && RunLocal(calls, 4) == map[] && RunLocal(calls, 5) == map[];
  }
}
