/**
 * Clients of the self-expiring store that use only its method contracts:
 * each one runs a short sequence of calls on a fresh store and states
 * what the caller observes.
 */
module ExpiringStoreScenarios {
  import opened Wrappers
  import opened ExpiringStore

  /** An entry set at time 0 is still there just before `ttl` ms have
      passed and gone once they have. */
  method ExpiresAfterTtl(k: Key, v: int, ttl: Millis) returns (before: bool, after: bool)
    requires ttl > 0
    ensures before && !after
  {
    var s := new SelfExpiringStore<int>(Some(ttl));
    s.Set(k, v);
    s.Advance(ttl - 1);
    before := s.Has(k);
    s.Advance(ttl);
    after := s.Has(k);
  }

  /** A store created without a ttl keeps an entry for 1000 ms. */
  method DefaultTtlIsOneSecond(k: Key, v: int) returns (at999: Option<int>, at1000: Option<int>)
    ensures at999 == Some(v) && at1000 == None
  {
    var s := new SelfExpiringStore<int>(None);
    s.Set(k, v);
    s.Advance(999);
    at999 := s.Get(k);
    s.Advance(1000);
    at1000 := s.Get(k);
  }

  /** Setting a key again before it expires restarts its timer: the second
      value is still there when the first timer would have fired, and it
      expires `ttl` ms after the second `set`. */
  method SetAgainPushesExpiryBack(k: Key, v1: int, v2: int, ttl: Millis)
    returns (atFirstDeadline: Option<int>, atSecondDeadline: Option<int>)
    requires ttl > 1
    ensures atFirstDeadline == Some(v2) && atSecondDeadline == None
  {
    var s := new SelfExpiringStore<int>(Some(ttl));
    s.Set(k, v1);
    s.Advance(1);
    s.Set(k, v2);
    s.Advance(ttl);
    atFirstDeadline := s.Get(k);
    s.Advance(ttl + 1);
    atSecondDeadline := s.Get(k);
  }

  /** `del` removes the key at once and cancels its timer: a value set
      again later is not deleted when the cancelled timer would have fired. */
  method DelCancelsPendingDeletion(k: Key, v1: int, v2: int, ttl: Millis)
    returns (afterDel: bool, atOldDeadline: Option<int>)
    requires ttl > 1
    ensures !afterDel && atOldDeadline == Some(v2)
  {
    var s := new SelfExpiringStore<int>(Some(ttl));
    s.Set(k, v1);
    s.Del(k);
    afterDel := s.Has(k);
    s.Advance(ttl - 1);
    s.Set(k, v2);
    s.Advance(ttl);
    atOldDeadline := s.Get(k);
  }

  /** `clear` empties the store and cancels every timer: entries written
      after it are not deleted by the timers started before it. */
  method ClearCancelsAllTimers(a: Key, b: Key, v: int, ttl: Millis)
    returns (afterClear: bool, aAtOldDeadline: Option<int>, bAtOldDeadline: Option<int>)
    requires ttl > 1 && a != b
    ensures !afterClear && aAtOldDeadline == Some(v) && bAtOldDeadline == Some(v)
  {
    var s := new SelfExpiringStore<int>(Some(ttl));
    s.Set(a, v);
    s.Set(b, v);
    s.Clear();
    afterClear := s.Has(a);
    s.Advance(1);
    s.Set(a, v);
    s.Set(b, v);
    s.Advance(ttl);
    aAtOldDeadline := s.Get(a);
    bAtOldDeadline := s.Get(b);
  }

  /** A timer firing removes only its own key. */
  method ExpiryTouchesOnlyItsKey(a: Key, b: Key, va: int, vb: int, ttl: Millis)
    returns (aAfter: Option<int>, bAfter: Option<int>)
    requires ttl > 1 && a != b
    ensures aAfter == None && bAfter == Some(vb)
  {
    var s := new SelfExpiringStore<int>(Some(ttl));
    s.Set(a, va);
    s.Advance(1);
    s.Set(b, vb);
    s.Advance(ttl);
    aAfter := s.Get(a);
    bAfter := s.Get(b);
  }
}
