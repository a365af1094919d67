/** The per-process cache of string values. */
module Cache {
  import opened Basics
  import opened LockOrder

  type Time = int

  datatype Entry = Entry(value: string, expiresAt: Time)
  type Items = map<Key, Entry>

  /** What a lookup at `now` finds. */
  function Lookup(items: Items, key: Key, now: Time): Option<string> {
    if key in items && now <= items[key].expiresAt then Some(items[key].value) else None
  }

  /** A full cache takes no new key; maxSize <= 0 means no bound. */
  predicate Full(items: Items, key: Key, maxSize: int) {
    maxSize > 0 && |items| >= maxSize && key !in items
  }

  function Stored(items: Items, key: Key, value: string, now: Time, ttl: Time, maxSize: int): Items {
    if Full(items, key, maxSize) then items else items[key := Entry(value, now + ttl)]
  }

  function Expired(items: Items, now: Time): set<Key> { set k | k in items && items[k].expiresAt < now }

  /** Cleaning up is invisible from then on. */
  lemma CleanupIsInvisible(items: Items, now: Time, key: Key, later: Time)
    requires now <= later
    ensures Lookup(items - Expired(items, now), key, later) == Lookup(items, key, later)
  {
  }

  /** A value stored is found until its time is over, unless the cache is full and the key new; then the
      cache is as it was.  No other key is affected. */
  lemma StoredIsFound(items: Items, key: Key, value: string, now: Time, ttl: Time, maxSize: int, k: Key, later: Time)
    ensures var after := Stored(items, key, value, now, ttl, maxSize);
            && (key in items || maxSize <= 0 || |items| < maxSize ==>
                  Lookup(after, key, later) == if later <= now + ttl then Some(value) else None)
            && (key !in items && 0 < maxSize <= |items| ==> after == items)
            && (k != key ==> Lookup(after, k, later) == Lookup(items, k, later))
  {
  }

  predicate Bounded(items: Items, maxSize: int) { maxSize > 0 ==> |items| <= maxSize }

  lemma StoredBounded(items: Items, key: Key, value: string, now: Time, ttl: Time, maxSize: int)
    requires Bounded(items, maxSize)
    ensures Bounded(Stored(items, key, value, now, ttl, maxSize), maxSize)
  {
  }

  lemma FewerBounded(items: Items, keys: set<Key>, maxSize: int)
    requires Bounded(items, maxSize)
    ensures Bounded(items - keys, maxSize)
  {
  }

  lemma RemoveOneMore(items: Items, keys: seq<Key>, n: nat)
    requires n < |keys|
    ensures items - Elements(keys[..n]) - {keys[n]} == items - Elements(keys[..n + 1])
  {
  }

  class Cache {
    var items: Items
    const ttl: Time
    const maxSize: int

    ghost predicate Valid() reads this { Bounded(items, maxSize) }

    constructor (ttl: Time, maxSize: int)
      ensures Valid() && items == map[] && this.ttl == ttl && this.maxSize == maxSize
    {
      this.items, this.ttl, this.maxSize := map[], ttl, maxSize;
    }

    method Get(key: Key, now: Time) returns (value: string, found: bool)
      ensures Lookup(items, key, now) == if found then Some(value) else None
    {
      if key !in items { return "", false; }
      if now > items[key].expiresAt { return "", false; }
      return items[key].value, true;
    }

    method Set(key: Key, value: string, now: Time)
      requires Valid()
      modifies this
      ensures Valid()
      ensures items == Stored(old(items), key, value, now, ttl, maxSize)
    {
      StoredBounded(items, key, value, now, ttl, maxSize);
      if maxSize > 0 && |items| >= maxSize {
        if key !in items { return; }
      }
      items := items[key := Entry(value, now + ttl)];
    }

    method Delete(key: Key)
      requires Valid()
      modifies this
      ensures Valid() && items == old(items) - {key}
    {
      FewerBounded(items, {key}, maxSize);
      items := items - {key};
    }

    method DeleteMulti(keys: seq<Key>)
      requires Valid()
      modifies this
      ensures Valid() && items == old(items) - Elements(keys)
    {
      for n := 0 to |keys|
        invariant Valid()
        invariant items == old(items) - Elements(keys[..n])
      {
        RemoveOneMore(old(items), keys, n);
        Delete(keys[n]);
      }
      assert keys[..|keys|] == keys;
    }

    method Flush()
      modifies this
      ensures Valid() && items == map[]
    {
      items := map[];
    }

    /** Deletes every expired entry and no other. */
    method Cleanup(now: Time)
      requires Valid()
      modifies this
      ensures Valid() && items == old(items) - Expired(old(items), now)
    {
      var todo := items.Keys;
      while todo != {}
        invariant Valid() && todo <= items.Keys <= old(items).Keys
        invariant forall k | k in items :: items[k] == old(items)[k]
        invariant forall k | k in old(items) && k !in todo :: k in items <==> old(items)[k].expiresAt >= now
        decreases |todo|
      {
        var key: Key :| key in todo;
        if now > items[key].expiresAt { Delete(key); }
        todo := todo - {key};
      }
    }
  }
}
