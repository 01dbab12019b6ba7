/**
 * The self-expiring memory store: a key/value cache that wraps a backing
 * store and keeps a side table holding one timer handle per key.  Every
 * `set` (re)starts a timer whose callback deletes the key `ttl` milliseconds
 * later; `del` and `clear` cancel timers before deleting.
 *
 * The host's timers are replaced by a logical clock: `scheduled` is the
 * host's queue of pending callbacks (handle -> key and deadline),
 * `setTimeout` adds to it, `clearTimeout` removes from it, and `Advance`
 * moves the clock forward and runs every callback that has become due.
 */
module ExpiringStore {
  import opened Wrappers

  type Key = string
  type Handle = nat
  type Millis = nat

  /** Time-to-live used when the store is created without one. */
  const DefaultTtl: Millis := 1000

  /** A scheduled callback: delete `key` from the backing store at `deadline`. */
  datatype Timer = Timer(key: Key, deadline: Millis)

  /** Handles of the pending callbacks that would delete `k`. */
  function LiveHandles(scheduled: map<Handle, Timer>, k: Key): set<Handle>
  {
    set h | h in scheduled && scheduled[h].key == k
  }

  /** Handles of the pending callbacks that are due at time `t`. */
  function DueHandles(scheduled: map<Handle, Timer>, t: Millis): set<Handle>
  {
    set h | h in scheduled && scheduled[h].deadline <= t
  }

  /** Keys that the callbacks `hs` delete. */
  function KeysOf(scheduled: map<Handle, Timer>, hs: set<Handle>): set<Key>
  {
    set h | h in hs && h in scheduled :: scheduled[h].key
  }

  /** The pending callbacks that are not yet due at time `t`. */
  function NotDue(scheduled: map<Handle, Timer>, t: Millis): map<Handle, Timer>
  {
    map h | h in scheduled && scheduled[h].deadline > t :: scheduled[h]
  }

  /** `clearTimeout(timers.get(key))`: cancels the handle recorded for `key`,
      if any; cancelling a handle that already ran or was cancelled does nothing. */
  function Cancel(scheduled: map<Handle, Timer>, timers: map<Key, Handle>, key: Key): map<Handle, Timer>
  {
    if key in timers then scheduled - {timers[key]} else scheduled
  }

  /** When the pending deletion of `k` fires, if there is one. */
  function DeadlineOf(timers: map<Key, Handle>, scheduled: map<Handle, Timer>, k: Key): Option<Millis>
  {
    if k in timers && timers[k] in scheduled then Some(scheduled[timers[k]].deadline) else None
  }

  /** Every pending callback is the one the side table records for its key,
      and every recorded handle that is still pending deletes that key. */
  ghost predicate TimersTracked(timers: map<Key, Handle>, scheduled: map<Handle, Timer>)
  {
    && (forall h :: h in scheduled ==> scheduled[h].key in timers && timers[scheduled[h].key] == h)
    && (forall k :: k in timers && timers[k] in scheduled ==> scheduled[timers[k]].key == k)
  }

  /** The invariant of the store: timers are tracked, handles are fresh below
      `nextHandle`, a key is in the backing store exactly when it has a
      pending deletion, and every pending deletion lies within `ttl` ahead. */
  ghost predicate Consistent<V>(store: map<Key, V>, timers: map<Key, Handle>, scheduled: map<Handle, Timer>,
                                nextHandle: Handle, now: Millis, ttl: Millis)
  {
    && TimersTracked(timers, scheduled)
    && (forall k :: k in timers ==> timers[k] < nextHandle)
    && (forall k :: k in store ==> k in timers && timers[k] in scheduled)
    && (forall k :: k in timers && timers[k] in scheduled ==> k in store)
    && (forall h :: h in scheduled ==> now <= scheduled[h].deadline <= now + ttl)
  }

  /** A key never has more than one pending deletion. */
  lemma AtMostOneLiveTimer(timers: map<Key, Handle>, scheduled: map<Handle, Timer>, k: Key)
    requires TimersTracked(timers, scheduled)
    ensures |LiveHandles(scheduled, k)| <= 1
    ensures LiveHandles(scheduled, k) != {} ==> k in timers && LiveHandles(scheduled, k) == {timers[k]}
  {
    if k in timers && timers[k] in scheduled {
      assert LiveHandles(scheduled, k) == {timers[k]};
    } else {
      assert LiveHandles(scheduled, k) == {};
    }
  }

  /** A key is present exactly when it has one pending deletion, and an
      absent key has none, so nothing is left to fire for it. */
  lemma PresentIffOneLiveTimer<V>(store: map<Key, V>, timers: map<Key, Handle>, scheduled: map<Handle, Timer>,
                                  nextHandle: Handle, now: Millis, ttl: Millis, k: Key)
    requires Consistent(store, timers, scheduled, nextHandle, now, ttl)
    ensures k in store <==> |LiveHandles(scheduled, k)| == 1
    ensures k !in store <==> LiveHandles(scheduled, k) == {}
  {
    AtMostOneLiveTimer(timers, scheduled, k);
    if k in store {
      assert timers[k] in LiveHandles(scheduled, k);
    }
  }

  /** `set` keeps the invariant: the old timer of `key` is cancelled and the
      fresh one is the only pending deletion of `key`; no other key's value
      or deadline changes. */
  lemma SetKeepsConsistent<V>(store: map<Key, V>, timers: map<Key, Handle>, scheduled: map<Handle, Timer>,
                              nextHandle: Handle, now: Millis, ttl: Millis, key: Key, value: V)
    requires Consistent(store, timers, scheduled, nextHandle, now, ttl)
    ensures Consistent(store[key := value], timers[key := nextHandle],
                       Cancel(scheduled, timers, key)[nextHandle := Timer(key, now + ttl)], nextHandle + 1, now, ttl)
    ensures DeadlineOf(timers[key := nextHandle], Cancel(scheduled, timers, key)[nextHandle := Timer(key, now + ttl)], key)
            == Some(now + ttl)
    ensures forall k :: k != key ==>
              DeadlineOf(timers[key := nextHandle], Cancel(scheduled, timers, key)[nextHandle := Timer(key, now + ttl)], k)
              == DeadlineOf(timers, scheduled, k)
  {
    var timers', scheduled' := timers[key := nextHandle], Cancel(scheduled, timers, key)[nextHandle := Timer(key, now + ttl)];
    assert nextHandle !in scheduled;
    forall h | h in scheduled'
      ensures scheduled'[h].key in timers' && timers'[scheduled'[h].key] == h
    {
      if h != nextHandle {
        assert h in scheduled && scheduled'[h] == scheduled[h];
      }
    }
    forall k | k != key
      ensures DeadlineOf(timers', scheduled', k) == DeadlineOf(timers, scheduled, k)
    {
      if k in timers && timers[k] in scheduled {
        assert scheduled[timers[k]].key == k;
        assert timers[k] != nextHandle;
      }
    }
  }

  /** Running the due callback `h` keeps the invariant: it deletes its own
      key and no other key loses its value or its pending deletion. */
  lemma FireKeepsConsistent<V>(store: map<Key, V>, timers: map<Key, Handle>, scheduled: map<Handle, Timer>,
                               nextHandle: Handle, now: Millis, ttl: Millis, h: Handle)
    requires Consistent(store, timers, scheduled, nextHandle, now, ttl)
    requires h in scheduled
    ensures Consistent(store - {scheduled[h].key}, timers, scheduled - {h}, nextHandle, now, ttl)
  {
    var k := scheduled[h].key;
    forall k' | k' in timers && timers[k'] in scheduled - {h}
      ensures k' in store - {k}
    {
      assert scheduled[timers[k']].key == k';
    }
  }

  /** A deadline still pending after the clock reaches `t`. */
  function Survives(d: Option<Millis>, t: Millis): Option<Millis>
  {
    if d.Some? && d.value > t then d else None
  }

  /** Running the due callbacks leaves exactly the deadlines that lie beyond `t`. */
  lemma AdvanceDeadlines(timers: map<Key, Handle>, scheduled: map<Handle, Timer>, t: Millis, k: Key)
    ensures DeadlineOf(timers, NotDue(scheduled, t), k)
            == Survives(DeadlineOf(timers, scheduled, k), t)
  {
  }

  /** One more callback run: the store loses the key of `h` as well. */
  lemma FireRemovesKey<V>(store: map<Key, V>, scheduled: map<Handle, Timer>, fired: set<Handle>, h: Handle)
    requires h in scheduled && h !in fired
    ensures (store - KeysOf(scheduled, fired)) - {scheduled[h].key} == store - KeysOf(scheduled, fired + {h})
  {
    assert KeysOf(scheduled, fired + {h}) == KeysOf(scheduled, fired) + {scheduled[h].key};
  }

  /** Once every due callback has run, the clock may move to `t`. */
  lemma AdvanceClock<V>(store: map<Key, V>, timers: map<Key, Handle>, scheduled: map<Handle, Timer>,
                        nextHandle: Handle, now: Millis, ttl: Millis, t: Millis)
    requires now <= t
    requires Consistent(store, timers, scheduled - DueHandles(scheduled, t), nextHandle, now, ttl)
    ensures scheduled - DueHandles(scheduled, t) == NotDue(scheduled, t)
    ensures Consistent(store, timers, NotDue(scheduled, t), nextHandle, t, ttl)
  {
    assert scheduled - DueHandles(scheduled, t) == NotDue(scheduled, t);
  }

  class SelfExpiringStore<V> {
    /** The backing store. */
    var store: map<Key, V>
    /** The side table: the handle of the last timer started for each key. */
    var timers: map<Key, Handle>
    /** The host's pending callbacks. */
    var scheduled: map<Handle, Timer>
    /** The handle the host gives to the next `setTimeout`. */
    var nextHandle: Handle
    /** The logical clock. */
    var now: Millis
    const ttl: Millis

    ghost predicate Valid()
      reads this
    {
      Consistent(store, timers, scheduled, nextHandle, now, ttl)
    }

    /** `createSelfExpiringMemoryStore({ ttl })`; without a ttl it is 1000 ms. */
    constructor (ttlOption: Option<Millis>)
      ensures Valid()
      ensures ttl == (if ttlOption.Some? then ttlOption.value else DefaultTtl)
      ensures store == map[] && timers == map[] && scheduled == map[] && now == 0
    {
      ttl := if ttlOption.Some? then ttlOption.value else DefaultTtl;
      store, timers, scheduled := map[], map[], map[];
      nextHandle, now := 0, 0;
    }

    /** `has(key)`: reads the backing store only. */
    method Has(key: Key) returns (present: bool)
      requires Valid()
      ensures present <==> key in store
      ensures present <==> DeadlineOf(timers, scheduled, key).Some?
    {
      present := key in store;
    }

    /** `get(key)`: reads the backing store only; the expiry is not extended. */
    method Get(key: Key) returns (value: Option<V>)
      requires Valid()
      ensures value.Some? <==> DeadlineOf(timers, scheduled, key).Some?
      ensures value.Some? ==> key in store && value.value == store[key]
    {
      value := if key in store then Some(store[key]) else None;
    }

    /** `set(key, value)`: cancels the key's old timer, starts a new one that
        deletes the key `ttl` ms from now, and writes the value. */
    method Set(key: Key, value: V)
      requires Valid()
      modifies this
      ensures Valid()
      ensures store == old(store)[key := value]
      ensures timers == old(timers)[key := old(nextHandle)]
      ensures scheduled == Cancel(old(scheduled), old(timers), key)[old(nextHandle) := Timer(key, now + ttl)]
      ensures nextHandle == old(nextHandle) + 1 && now == old(now)
      ensures DeadlineOf(timers, scheduled, key) == Some(now + ttl)
      ensures forall k :: k != key ==> DeadlineOf(timers, scheduled, k) == DeadlineOf(old(timers), old(scheduled), k)
    {
      SetKeepsConsistent(store, timers, scheduled, nextHandle, now, ttl, key, value);
      scheduled := Cancel(scheduled, timers, key);
      var h := nextHandle;
      nextHandle := nextHandle + 1;
      scheduled := scheduled[h := Timer(key, now + ttl)];
      timers := timers[key := h];
      store := store[key := value];
    }

    /** `del(key)`: cancels the key's timer and deletes the key at once. */
    method Del(key: Key)
      requires Valid()
      modifies this
      ensures Valid()
      ensures store == old(store) - {key}
      ensures scheduled == Cancel(old(scheduled), old(timers), key)
      ensures timers == old(timers) && nextHandle == old(nextHandle) && now == old(now)
      ensures DeadlineOf(timers, scheduled, key) == None && LiveHandles(scheduled, key) == {}
      ensures forall k :: k != key ==> DeadlineOf(timers, scheduled, k) == DeadlineOf(old(timers), old(scheduled), k)
    {
      scheduled := Cancel(scheduled, timers, key);
      store := store - {key};
    }

    /** `clear()`: cancels the timer of every key in the side table, then
        empties the backing store. */
    method Clear()
      requires Valid()
      modifies this
      ensures Valid()
      ensures store == map[] && scheduled == map[]
      ensures timers == old(timers) && nextHandle == old(nextHandle) && now == old(now)
    {
      var rest := timers.Keys;
      while rest != {}
        invariant rest <= timers.Keys
        invariant timers == old(timers) && store == old(store)
        invariant nextHandle == old(nextHandle) && now == old(now)
        invariant TimersTracked(timers, scheduled)
        invariant forall h :: h in scheduled ==> scheduled[h].key in rest
        decreases rest
      {
        var k :| k in rest;
        scheduled := scheduled - {timers[k]};
        rest := rest - {k};
      }
      store := map[];
    }

    /** Moves the clock to `t` and runs every callback due by then: each
        deletes its own key.  Keys whose deadline lies beyond `t` keep their
        value and their deadline. */
    method Advance(t: Millis)
      requires Valid() && now <= t
      modifies this
      ensures Valid()
      ensures now == t
      ensures store == old(store) - KeysOf(old(scheduled), DueHandles(old(scheduled), t))
      ensures scheduled == NotDue(old(scheduled), t)
      ensures timers == old(timers) && nextHandle == old(nextHandle)
      ensures forall k :: DeadlineOf(timers, scheduled, k) == Survives(DeadlineOf(old(timers), old(scheduled), k), t)
    {
      var due := DueHandles(scheduled, t);
      ghost var s0, st0, due0 := scheduled, store, due;
      ghost var fired: set<Handle> := {};
      while due != {}
        invariant Consistent(store, timers, scheduled, nextHandle, now, ttl)
        invariant timers == old(timers) && nextHandle == old(nextHandle) && now == old(now)
        invariant fired !! due && fired + due == due0
        invariant scheduled == s0 - fired
        invariant store == st0 - KeysOf(s0, fired)
        decreases due
      {
        var h :| h in due;
        var k := scheduled[h].key;
        FireKeepsConsistent(store, timers, scheduled, nextHandle, now, ttl, h);
        FireRemovesKey(st0, s0, fired, h);
        store := store - {k};
        scheduled := scheduled - {h};
        due := due - {h};
        fired := fired + {h};
      }
      AdvanceClock(store, timers, s0, nextHandle, now, ttl, t);
      now := t;
      forall k ensures DeadlineOf(timers, scheduled, k) == Survives(DeadlineOf(timers, s0, k), t)
      {
        AdvanceDeadlines(timers, s0, t, k);
      }
    }
  }
}
