/**
 * The contract assumed of the `moka` caches.
 *
 * An entry carries the instant of its last relevant use. Time-to-idle counts from the last
 * insert or read, time-to-live from the insert only, and an entry is gone once the elapsed
 * time reaches its period. Expired entries may be dropped at any moment (`Sweep`); live
 * entries are dropped only by `Evict`, which stands for the capacity limit.
 */
module ExpiringCache {
  import opened Units
  import opened Wrappers

  datatype Slot<+V> = Slot(value: V, stamp: Instant)

  datatype Expiry = TimeToIdle(period: Duration) | TimeToLive(period: Duration)

  predicate IsLive(expiry: Expiry, stamp: Instant, now: Instant) {
    now < stamp + expiry.period
  }

  function Find<K(==), V>(slots: map<K, Slot<V>>, expiry: Expiry, key: K, now: Instant): Option<V> {
    if key in slots && IsLive(expiry, slots[key].stamp, now) then Some(slots[key].value) else None
  }

  /** The entries after a read of `key`: a hit restarts the idle time, and nothing else changes. */
  function Touched<K(==), V>(slots: map<K, Slot<V>>, expiry: Expiry, key: K, now: Instant): map<K, Slot<V>> {
    if expiry.TimeToIdle? && Find(slots, expiry, key, now).Some? then
      slots[key := Slot(slots[key].value, now)]
    else
      slots
  }

  function Put<K(==), V>(slots: map<K, Slot<V>>, key: K, value: V, now: Instant): map<K, Slot<V>> {
    slots[key := Slot(value, now)]
  }

  /** Housekeeping: those of `keys` that have expired are dropped. */
  function Sweep<K(==), V>(slots: map<K, Slot<V>>, expiry: Expiry, keys: set<K>, now: Instant)
    : (r: map<K, Slot<V>>)
    ensures forall k :: k in slots && k in keys && slots[k].stamp + expiry.period <= now ==> k !in r
    ensures forall k :: k in slots && (k !in keys || now < slots[k].stamp + expiry.period) ==>
              k in r && r[k] == slots[k]
  {
    map k | k in slots && (k !in keys || IsLive(expiry, slots[k].stamp, now)) :: slots[k]
  }

  /** Capacity eviction: all of `keys` are dropped, live or not. */
  function Evict<K(==), V>(slots: map<K, Slot<V>>, keys: set<K>): (r: map<K, Slot<V>>)
    ensures r.Keys == slots.Keys - keys && forall k :: k in r ==> r[k] == slots[k]
  {
    slots - keys
  }

  class Cache<K(==), V> {
    const expiry: Expiry
    /** How many entries are kept before `Evict` happens. */
    const capacity: nat
    var slots: map<K, Slot<V>>

    constructor (expiry: Expiry, capacity: nat)
      ensures this.expiry == expiry && this.capacity == capacity && slots == map[]
    {
      this.expiry, this.capacity := expiry, capacity;
      slots := map[];
    }

    method Get(key: K, now: Instant) returns (r: Option<V>)
      modifies this
      ensures r == old(Find(slots, expiry, key, now))
      ensures slots == old(Touched(slots, expiry, key, now))
    {
      r := None;
      if key in slots && IsLive(expiry, slots[key].stamp, now) {
        r := Some(slots[key].value);
        if expiry.TimeToIdle? {
          slots := slots[key := Slot(slots[key].value, now)];
        }
      }
    }

    method Insert(key: K, value: V, now: Instant)
      modifies this
      ensures slots == old(Put(slots, key, value, now))
    {
      slots := slots[key := Slot(value, now)];
    }

    /** `entry(key).or_insert_with(..)`: fresh when this call did the insertion. */
    method GetOrInsert(key: K, value: V, now: Instant) returns (inserted: bool)
      modifies this
      ensures inserted == old(Find(slots, expiry, key, now)).None?
      ensures slots == if inserted then old(Put(slots, key, value, now)) else old(Touched(slots, expiry, key, now))
    {
      var found := Get(key, now);
      inserted := found.None?;
      if inserted {
        Insert(key, value, now);
      }
    }
  }
}
