/**
 The authorization cache as an object: its bounded map, and the operations on it that run without
 interference.  The protocol between concurrent callers is in `AuthProtocol`.
 */
module AuthCache {
  import opened Text
  import opened Lru

  /** The capacity used when a caller asks for zero. */
  const DEFAULT_CAPACITY: nat := 1024

  function EffectiveCapacity(capacity: nat): (cap: nat)
    ensures cap == if capacity > 0 then capacity else 1024
  {
    if capacity == 0 then DEFAULT_CAPACITY else capacity
  }

  /** The largest `Instant` on Linux, in nanoseconds: seconds are a signed 64-bit count. */
  const MAX_INSTANT: int := 0x8000_0000_0000_0000 * 1_000_000_000 - 1

  /** `now + ttl`: panics (None) when the sum is not representable. */
  function Expiry(now: int, ttl: nat): Option<int> {
    if now + ttl <= MAX_INSTANT then Some(now + ttl) else None
  }

  /** The seconds a bucket's configured ttl stands for: 0 means the default of 300. */
  function EffectiveTtl(configured: nat): nat {
    (if configured == 0 then 300 else configured) * 1_000_000_000
  }

  /** The largest configurable ttl, which the source names as the way to opt out of expiry, is not representable. */
  lemma LargestTtlPanics(now: nat)
    ensures Expiry(now, EffectiveTtl(0xFFFF_FFFF_FFFF_FFFF)) == None
  {
  }

  /** How long a verdict counts: for the configured seconds, or for 300 where none are configured. */
  lemma VerdictLifetime(c: Cache, cap: nat, key: string, configured: nat, verdict: bool, first: int, second: int,
                        third: int, later: int)
    requires cap > 0 && !Fresh(Peek(c, key), first) && !Fresh(Peek(c, key), second)
    requires Expiry(third, EffectiveTtl(configured)).Some?
    ensures
      var seconds := if configured == 0 then 300 else configured;
      var (reply, after) := Undisturbed(c, cap, key, EffectiveTtl(configured), Some(verdict), first, second, third);
      && reply == Decided(verdict) && Peek(after, key).Some? && Peek(after, key).value.authorized == verdict
      && (Fresh(Peek(after, key), later) <==> later < third + seconds * 1_000_000_000)
  {
  }

  predicate Fresh(found: Option<Entry>, now: int) {
    found.Some? && now < found.value.expiresAt
  }

  datatype Reply = Decided(authorized: bool) | ValidatorFailed | Panicked

  /** The reply of an undisturbed call, and the map it leaves. */
  function Undisturbed(c: Cache, cap: nat, key: string, ttl: nat, verdict: Option<bool>, first: int, second: int,
                       third: int): (Reply, Cache)
    requires cap > 0
  {
    var found := Peek(c, key);
    if Fresh(found, first) || Fresh(found, second) then (Decided(found.value.authorized), c)
    else if verdict.None? then (ValidatorFailed, c)
    else if Expiry(third, ttl).None? then (Panicked, c)
    else (Decided(verdict.value), Put(c, cap, key, Entry(verdict.value, third + ttl)))
  }

  class AuthCache {
    const capacity: nat
    var order: seq<string>
    var entries: map<string, Entry>

    function View(): Cache
      reads this
    {
      Cache(order, entries)
    }

    ghost predicate Valid()
      reads this
    {
      capacity > 0 && WellFormed(View(), capacity)
    }

    constructor (capacity: nat)
      ensures Valid() && View() == EMPTY && this.capacity == EffectiveCapacity(capacity)
    {
      this.capacity := EffectiveCapacity(capacity);
      order := [];
      entries := map[];
    }

    /** `LruCache::put`. */
    method PutEntry(key: string, entry: Entry)
      requires Valid()
      modifies this
      ensures Valid() && View() == Put(old(View()), capacity, key, entry)
    {
      PutWellFormed(View(), capacity, key, entry);
      var kept := Behind(order, capacity, key);
      order := [key] + kept;
      entries := map k | k in entries && k in kept :: entries[k];
      entries := entries[key := entry];
    }

    /** `insert`: the clock is read before the map is locked. */
    method Insert(key: string, authorized: bool, ttl: nat, now: int) returns (ok: bool)
      requires Valid()
      modifies this
      ensures Valid() && ok == Expiry(now, ttl).Some?
      ensures View() == if ok then Put(old(View()), capacity, key, Entry(authorized, now + ttl)) else old(View())
    {
      match Expiry(now, ttl) {
        case None => ok := false;
        case Some(expiresAt) =>
          PutEntry(key, Entry(authorized, expiresAt));
          ok := true;
      }
    }

    /** `invalidate`. */
    method Invalidate(key: string)
      requires Valid()
      modifies this
      ensures Valid() && View() == Pop(old(View()), key)
    {
      PopWellFormed(View(), capacity, key);
      order := Without(order, key);
      entries := entries - {key};
    }

    /**
     `get_or_validate` without interference: the clock shows `first`, `second` and `third` at the three
     places where it is read, and `verdict` is what the validator answers if it is called.
     */
    method GetOrValidate(key: string, ttl: nat, verdict: Option<bool>, first: int, second: int, third: int)
      returns (reply: Reply, called: bool)
      requires Valid()
      modifies this
      ensures Valid()
      ensures (reply, View()) == Undisturbed(old(View()), capacity, key, ttl, verdict, first, second, third)
      ensures called == (!Fresh(Peek(old(View()), key), first) && !Fresh(Peek(old(View()), key), second))
      ensures !called ==> reply == Decided(old(entries)[key].authorized) && View() == old(View())
      ensures called && verdict.None? ==> reply == ValidatorFailed && View() == old(View())
      ensures called && verdict.Some? && Expiry(third, ttl).None? ==> reply == Panicked && View() == old(View())
      ensures called && verdict.Some? && Expiry(third, ttl).Some? ==>
        reply == Decided(verdict.value) && View() == Put(old(View()), capacity, key, Entry(verdict.value, third + ttl))
    {
      called := false;
      var found := Peek(View(), key);
      if Fresh(found, first) {
        return Decided(found.value.authorized), false;
      }
      found := Peek(View(), key);
      if Fresh(found, second) {
        return Decided(found.value.authorized), false;
      }
      called := true;
      if verdict.None? {
        return ValidatorFailed, called;
      }
      match Expiry(third, ttl) {
        case None => reply := Panicked;
        case Some(expiresAt) =>
          PutEntry(key, Entry(verdict.value, expiresAt));
          reply := Decided(verdict.value);
      }
    }
  }
}
