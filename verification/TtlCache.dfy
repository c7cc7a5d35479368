/** The generic TTL cache (pkg/cache/generic_cache.go): a map of timed items under one
    mutex, lazy expiry on reads and a background sweep.

    The specification is a set of functions on the items map; `Cache` is the object whose
    methods compute them.  The clock reading each operation takes is its `now` parameter.
    The eviction callback is left to the caller: the deleting methods return what the
    callback would have been given. */
module TtlCache {
  import opened Domain

  const DEFAULT_TTL: int := 5 * MINUTE

  datatype Item<+V> = Item(value: V, expiresAt: Time, permanent: bool)

  type Items<K, +V> = map<K, Item<V>>

  predicate Expired<V>(item: Item<V>, now: Time) {
    !item.permanent && now > item.expiresAt
  }

  /** A TTL of -1 never expires and a TTL of 0 stands for the default. */
  function NewItem<V>(value: V, ttl: int, now: Time, defaultTtl: int): Item<V> {
    if ttl == -1 then Item(value, 0, true)
    else if ttl == 0 then Item(value, now + defaultTtl, false)
    else Item(value, now + ttl, false)
  }

  function Lookup<K, V>(items: Items<K, V>, key: K, now: Time): Option<V> {
    if key in items && !Expired(items[key], now) then Some(items[key].value) else None
  }

  function Swept<K, V>(items: Items<K, V>, now: Time): Items<K, V> {
    map key | key in items && !Expired(items[key], now) :: items[key]
  }

  class Cache<K(==), V> {
    const defaultTtl: int
    var items: Items<K, V>

    constructor (defaultTtl: int)
      ensures items == map[] && this.defaultTtl == defaultTtl
    {
      this.defaultTtl := defaultTtl;
      items := map[];
    }

    method Set(key: K, value: V, ttl: int, now: Time)
      modifies this
      ensures items == old(items)[key := NewItem(value, ttl, now, defaultTtl)]
    {
      var expiresAt := 0;
      var permanent := false;
      if ttl == -1 {
        permanent := true;
      } else if ttl == 0 {
        expiresAt := now + defaultTtl;
      } else {
        expiresAt := now + ttl;
      }
      items := items[key := Item(value, expiresAt, permanent)];
    }

    method Get(key: K, now: Time) returns (found: Option<V>)
      ensures found == Lookup(items, key, now)
    {
      if key !in items {
        return None;
      }
      var item := items[key];
      if !item.permanent && now > item.expiresAt {
        return None;
      }
      return Some(item.value);
    }

    /** Removes the item and returns the value handed to the eviction callback, if any. */
    method Delete(key: K) returns (evicted: Option<V>)
      modifies this
      ensures items == old(items) - {key}
      ensures evicted == if key in old(items) then Some(old(items)[key].value) else None
    {
      evicted := None;
      if key in items {
        evicted := Some(items[key].value);
        items := items - {key};
      }
    }

    /** Removes every expired item and returns all the callback's arguments. */
    method DeleteExpired(now: Time) returns (evicted: map<K, V>)
      modifies this
      ensures items == Swept(old(items), now)
      ensures forall key :: key in items <==> key in old(items) && (old(items)[key].permanent || now <= old(items)[key].expiresAt)
      ensures evicted == map key | key in old(items) && Expired(old(items)[key], now) :: old(items)[key].value
    {
      var pending := items.Keys;
      evicted := map[];
      while pending != {}
        invariant pending <= old(items).Keys
        invariant items == map key | key in old(items) && (key in pending || !Expired(old(items)[key], now)) :: old(items)[key]
        invariant evicted == map key | key in old(items) && key !in pending && Expired(old(items)[key], now) :: old(items)[key].value
      {
        var key :| key in pending;
        pending := pending - {key};
        if Expired(items[key], now) {
          evicted := evicted[key := items[key].value];
          items := items - {key};
        }
      }
    }
  }

  // ---------------------------------------------------------------- whole runs

  datatype Op<K, V> = SetOp(key: K, value: V, ttl: int) | DeleteOp(key: K) | SweepOp

  /** An operation together with the clock reading it takes. */
  datatype Event<K, V> = Event(at: Time, op: Op<K, V>)

  function Apply<K, V>(items: Items<K, V>, e: Event<K, V>, defaultTtl: int): Items<K, V> {
    match e.op
    case SetOp(key, value, ttl) => items[key := NewItem(value, ttl, e.at, defaultTtl)]
    case DeleteOp(key) => items - {key}
    case SweepOp => Swept(items, e.at)
  }

  function Run<K, V>(items: Items<K, V>, events: seq<Event<K, V>>, defaultTtl: int): Items<K, V>
    decreases |events|
  {
    if events == [] then items
    else Run(Apply(items, events[0], defaultTtl), events[1..], defaultTtl)
  }

  /** Clock readings never go back, start no earlier than `from` and end no later than `to`. */
  predicate Timed<K, V>(from: Time, events: seq<Event<K, V>>, to: Time)
    decreases |events|
  {
    if events == [] then from <= to
    else from <= events[0].at && Timed(events[0].at, events[1..], to)
  }

  ghost predicate LeavesAlone<K, V>(events: seq<Event<K, V>>, key: K) {
    forall e :: e in events ==> e.op.SweepOp? || e.op.key != key
  }

  /** A sweep keeps exactly the items that never expire or have not expired yet, as they are. */
  lemma SweepKeepsLive<K, V>(items: Items<K, V>, now: Time, key: K)
    ensures key in Swept(items, now) <==> key in items && (items[key].permanent || now <= items[key].expiresAt)
    ensures key in Swept(items, now) ==> Swept(items, now)[key] == items[key]
  {
  }

  /** Sweeping is invisible: no read at or after the sweep can tell it happened. */
  lemma SweepIsInvisible<K, V>(items: Items<K, V>, key: K, sweptAt: Time, now: Time)
    requires sweptAt <= now
    ensures Lookup(Swept(items, sweptAt), key, now) == Lookup(items, key, now)
  {
  }

  /** Operations on other keys and sweeps, however many, do not change what a key reads. */
  lemma {:induction false} OthersDoNotInterfere<K, V>(
    items: Items<K, V>, from: Time, events: seq<Event<K, V>>, defaultTtl: int, key: K, now: Time)
    requires Timed(from, events, now) && LeavesAlone(events, key)
    ensures Lookup(Run(items, events, defaultTtl), key, now) == Lookup(items, key, now)
    decreases |events|
  {
    if events != [] {
      var e := events[0];
      TimedEnds(e.at, events[1..], now);
      if e.op.SweepOp? { SweepIsInvisible(items, key, e.at, now); }
      OthersDoNotInterfere(Apply(items, e, defaultTtl), e.at, events[1..], defaultTtl, key, now);
    }
  }

  lemma {:induction false} TimedEnds<K, V>(from: Time, events: seq<Event<K, V>>, to: Time)
    requires Timed(from, events, to)
    ensures from <= to
    decreases |events|
  {
    if events != [] {
      TimedEnds(events[0].at, events[1..], to);
    }
  }

  /** The contract of the cache over any run: after a Set, and as long as nobody sets or
      deletes that key again, a read returns the value exactly until its deadline. */
  lemma SetIsReadUntilDeadline<K, V>(
    items: Items<K, V>, key: K, value: V, ttl: int, setAt: Time,
    events: seq<Event<K, V>>, defaultTtl: int, now: Time)
    requires Timed(setAt, events, now) && LeavesAlone(events, key)
    ensures
      var after := Run(items[key := NewItem(value, ttl, setAt, defaultTtl)], events, defaultTtl);
      var deadline := setAt + (if ttl == 0 then defaultTtl else ttl);
      Lookup(after, key, now) == if ttl == -1 || now <= deadline then Some(value) else None
  {
    OthersDoNotInterfere(items[key := NewItem(value, ttl, setAt, defaultTtl)], setAt, events, defaultTtl, key, now);
  }

  /** A deleted key stays a miss until it is set again. */
  lemma DeletedStaysAbsent<K, V>(
    items: Items<K, V>, key: K, deletedAt: Time, events: seq<Event<K, V>>, defaultTtl: int, now: Time)
    requires Timed(deletedAt, events, now) && LeavesAlone(events, key)
    ensures Lookup(Run(items - {key}, events, defaultTtl), key, now) == None
  {
    OthersDoNotInterfere(items - {key}, deletedAt, events, defaultTtl, key, now);
  }
}
