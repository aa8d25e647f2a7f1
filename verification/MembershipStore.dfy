/** The two caches as they are updated: a Map that is scanned, and Redis keys with index sets. */
module MembershipStore {
  import opened Wrappers
  import opened MembershipCache

  class LocalCache {
    var local: Local

    constructor ()
      ensures local == map[]
    {
      local := map[];
    }

    method Get(id: nat, now: nat) returns (found: Option<Snapshot>)
      modifies this
      ensures found == old(Lookup(local, id, now))
      ensures found.Some? <==> id in old(local) && now < old(local)[id].expires
      ensures found.Some? ==> found.value == old(local)[id].value
      ensures forall k :: k in local <==> k in old(local) && (k == id ==> now < old(local)[k].expires)
      ensures forall k | k in local :: local[k] == old(local)[k]
      ensures local == LocalStep(old(local), MembershipCache.Get(id), now)
    {
      found := None;
      if id in local {
        if now < local[id].expires { found := Some(local[id].value); } else { local := local - {id}; }
      }
    }

    method Put(snapshot: Snapshot, now: nat)
      modifies this
      ensures local == LocalStep(old(local), Set(snapshot), now)
      ensures forall t | now <= t < now + 30_000 :: Lookup(local, snapshot.membership, t) == Some(snapshot)
      ensures forall t | t >= now + 30_000 :: Lookup(local, snapshot.membership, t) == None
      ensures forall id | id != snapshot.membership ::
        (id in local <==> id in old(local)) && (id in local ==> local[id] == old(local)[id])
    {
      local := local[snapshot.membership := Timed(now + TTL, snapshot)];
    }

    /** One membership's snapshot goes, and no other. */
    method Forget(id: nat, now: nat)
      modifies this
      ensures local == LocalStep(old(local), MembershipCache.InvalidateMembership(id), now)
      ensures forall k :: (k in local <==> k in old(local) && k != id) && (k in local ==> local[k] == old(local)[k])
    {
      local := local - {id};
    }

    /** The scan of invalidateIndexed: every entry that matches is deleted. */
    method InvalidateMatching(op: Op, now: nat)
      requires op.Drop?
      modifies this
      ensures local == LocalStep(old(local), op, now)
      ensures forall id :: id in local <==>
        && id in old(local)
        && (op.key.OfRole? ==> old(local)[id].value.role != op.key.role)
        && (op.key.OfUser? ==> old(local)[id].value.user != op.key.user)
      ensures forall id | id in local :: local[id] == old(local)[id]
    {
      var rest := local.Keys;
      while rest != {}
        invariant rest <= local.Keys <= old(local).Keys
        invariant forall id | id in local :: local[id] == old(local)[id] && (id in rest || !Hit(op, local[id].value))
        invariant forall id | id in old(local) && id !in local :: Hit(op, old(local)[id].value)
      {
        var id :| id in rest;
        if Hit(op, local[id].value) { local := local - {id}; }
        rest := rest - {id};
      }
    }
  }

  class RedisCache {
    var keys: map<nat, Timed<Snapshot>>
    var index: Index

    ghost function View(): Redis
      reads this
    {
      Redis(keys, index)
    }

    constructor ()
      ensures View() == EMPTY
    {
      keys, index := map[], map[];
    }

    /** sadd on an expired key starts a new set; expire then gives it a fresh lease. */
    method AddToIndex(key: IndexKey, id: nat, now: nat)
      modifies this`index
      ensures index == Indexed(old(index), key, id, now)
    {
      if key in index && now < index[key].expires {
        index := index[key := Timed(index[key].expires, index[key].value + {id})];
      } else {
        index := index[key := Timed(now, {id})];
      }
      assert index[key].value == Members(old(index), key, now) + {id};
      assert index.Keys == old(index).Keys + {key};
      index := index[key := Timed(now + INDEX_TTL, index[key].value)];
      assert index == Indexed(old(index), key, id, now);
    }

    /**
     * set: the snapshot is what its membership reads for the next thirty seconds, both its
     * indexes list it at least as long, and no other snapshot changes or leaves a list that is live.
     */
    method Put(snapshot: Snapshot, now: nat)
      modifies this
      ensures View() == RedisStep(old(View()), Set(snapshot), now, {})
      ensures forall t | now <= t < now + TTL :: Lookup(keys, snapshot.membership, t) == Some(snapshot)
      ensures forall key | Under(key, snapshot) :: Lists(index, key, snapshot.membership, now + TTL)
      ensures forall id | id != snapshot.membership :: id in keys <==> id in old(keys)
      ensures forall id | id != snapshot.membership && id in keys :: keys[id] == old(keys)[id]
      ensures forall key, id | id in Members(old(index), key, now) :: id in Members(index, key, now)
    {
      keys := keys[snapshot.membership := Timed(now + TTL, snapshot)];
      AddToIndex(OfRole(snapshot.role), snapshot.membership, now);
      AddToIndex(OfUser(snapshot.user), snapshot.membership, now);
    }

    /** One membership's snapshot goes, and no other; the lists it is on keep it. */
    method Forget(id: nat, now: nat)
      modifies this
      ensures View() == RedisStep(old(View()), MembershipCache.InvalidateMembership(id), now, {})
      ensures index == old(index)
      ensures forall k :: (k in keys <==> k in old(keys) && k != id) && (k in keys ==> keys[k] == old(keys)[k])
    {
      keys := keys - {id};
    }

    /** del of the members' keys, one after another, and of the index. */
    method DeleteIndexed(key: IndexKey, read: set<nat>)
      modifies this
      ensures View() == Dropped(old(View()), key, read)
    {
      var rest := read;
      while rest != {}
        invariant rest <= read && keys == old(keys) - (read - rest) && index == old(index)
      {
        var id :| id in rest;
        keys := keys - {id};
        rest := rest - {id};
      }
      index := index - {key};
    }

    /**
     * invalidateIndexed with nothing between its two calls: whatever is live and
     * listed under the key is gone, and nothing that was not on its list is.
     */
    method InvalidateIndexed(key: IndexKey, now: nat)
      modifies this
      ensures key !in index && keys.Keys <= old(keys).Keys
      ensures forall id | id in keys :: keys[id] == old(keys)[id]
      ensures forall id | Live(old(keys), id, now) && Lists(old(index), key, id, old(keys)[id].expires) :: id !in keys
      ensures forall id | id in old(keys) && id !in Members(old(index), key, now) :: id in keys
    {
      var read := if key in index && now < index[key].expires then index[key].value else {};
      DeleteIndexed(key, read);
    }
  }
}
