/** Counters with an optional expiry time, as the cache server keeps them. Times are in
    milliseconds; a counter is gone from the very millisecond it expires in. */
module TimedKeys {
  import opened Basics

  datatype Counter = Counter(value: int, expiresAt: Option<int>)

  type Store = map<string, Counter>

  predicate Alive(c: Counter, now: int) { c.expiresAt.Some? ==> now < c.expiresAt.value }

  function Find(s: Store, key: string, now: int): Option<Counter> {
    if key in s && Alive(s[key], now) then Some(s[key]) else None
  }

  function Reading(s: Store, key: string, now: int): int {
    match Find(s, key, now)
    case None => 0
    case Some(c) => c.value
  }

  /** Counting one more event: the first event of a counter starts its clock, later ones
      leave the clock alone. */
  function Counted(s: Store, key: string, now: int, ttl: nat): Store {
    match Find(s, key, now)
    case None => s[key := Counter(1, Some(now + ttl))]
    case Some(c) => s[key := Counter(c.value + 1, if c.value == 0 then Some(now + ttl) else c.expiresAt)]
  }

  class Cache {
    var store: Store

    constructor ()
      ensures store == map[]
    {
      store := map[];
    }

    method Get(key: string, now: int) returns (c: Option<Counter>)
      ensures c == Find(store, key, now)
    {
      c := if key in store && Alive(store[key], now) then Some(store[key]) else None;
    }

    method Increment(key: string, now: int) returns (value: int)
      modifies this
      ensures value == Reading(old(store), key, now) + 1
      ensures store == old(store)[key := Counter(value, if Find(old(store), key, now).Some? then old(store)[key].expiresAt
                                                        else None)]
    {
      var c := Get(key, now);
      match c {
        case None =>
          value := 1;
          store := store[key := Counter(1, None)];
        case Some(found) =>
          value := found.value + 1;
          store := store[key := found.(value := value)];
      }
    }

    method Expire(key: string, now: int, ttl: nat)
      modifies this
      ensures store == if Find(old(store), key, now).Some?
                       then old(store)[key := old(store)[key].(expiresAt := Some(now + ttl))] else old(store)
    {
      var c := Get(key, now);
      if c.Some? {
        store := store[key := c.value.(expiresAt := Some(now + ttl))];
      }
    }

    method Delete(key: string)
      modifies this
      ensures store == old(store) - {key}
    {
      store := store - {key};
    }

    /** The two calls every limiter makes: increment, and set the expiry if that created
        the counter. */
    method Count(key: string, now: int, ttl: nat) returns (value: int)
      modifies this
      ensures store == Counted(old(store), key, now, ttl)
      ensures value == Reading(old(store), key, now) + 1
    {
      value := Increment(key, now);
      if value == 1 {
        Expire(key, now, ttl);
      }
    }
  }
}
