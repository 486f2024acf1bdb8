/**
 A least-recently-used map of bounded capacity, as the `lru` crate provides it: `put` makes a key the most
 recent one and evicts the least recent one from a full map; `peek` changes nothing; `pop` removes.
 */
module Lru {
  import opened Text

  datatype Entry = Entry(authorized: bool, expiresAt: int)

  /** The keys from the most to the least recently put, and their entries. */
  datatype Cache = Cache(order: seq<string>, entries: map<string, Entry>)

  const EMPTY := Cache([], map[])

  function Peek(c: Cache, k: string): Option<Entry> {
    if k in c.entries then Some(c.entries[k]) else None
  }

  function Without(order: seq<string>, k: string): (r: seq<string>)
    ensures |r| <= |order|
    ensures forall x :: x in r <==> x in order && x != k
  {
    if order == [] then []
    else if order[0] == k then Without(order[1..], k)
    else [order[0]] + Without(order[1..], k)
  }

  /** The keys that stay behind a key about to be put first. */
  function Behind(order: seq<string>, cap: nat, k: string): seq<string>
    requires cap > 0
  {
    if k in order then Without(order, k)
    else if |order| < cap then order
    else order[..cap - 1]
  }

  function Put(c: Cache, cap: nat, k: string, e: Entry): Cache
    requires cap > 0
  {
    var kept := Behind(c.order, cap, k);
    Cache([k] + kept, (map x | x in c.entries && x in kept :: c.entries[x])[k := e])
  }

  function Pop(c: Cache, k: string): Cache {
    Cache(Without(c.order, k), c.entries - {k})
  }

  predicate NoDuplicates(order: seq<string>) {
    forall i, j :: 0 <= i < j < |order| ==> order[i] != order[j]
  }

  ghost predicate WellFormed(c: Cache, cap: nat) {
    && NoDuplicates(c.order)
    && |c.order| <= cap
    && (forall k :: k in c.entries <==> k in c.order)
  }

  lemma {:induction false} WithoutFacts(order: seq<string>, k: string)
    requires NoDuplicates(order)
    ensures NoDuplicates(Without(order, k))
    ensures k in order ==> |Without(order, k)| == |order| - 1
    ensures k !in order ==> Without(order, k) == order
  {
    if order != [] {
      assert forall i :: 0 <= i < |order[1..]| ==> order[1..][i] == order[i + 1];
      WithoutFacts(order[1..], k);
      if order[0] == k {
        assert k !in order[1..];
      } else {
        assert order == [order[0]] + order[1..];
        assert order[0] !in Without(order[1..], k);
      }
    }
  }

  lemma PutWellFormed(c: Cache, cap: nat, k: string, e: Entry)
    requires cap > 0 && WellFormed(c, cap)
    ensures WellFormed(Put(c, cap, k, e), cap)
    ensures Peek(Put(c, cap, k, e), k) == Some(e)
  {
    WithoutFacts(c.order, k);
  }

  lemma PopWellFormed(c: Cache, cap: nat, k: string)
    requires WellFormed(c, cap)
    ensures WellFormed(Pop(c, k), cap) && Peek(Pop(c, k), k) == None
  {
    WithoutFacts(c.order, k);
  }

  // ---------------------------------------------------------------- Histories

  /** What happens to the map over time.  A run of the validator is recorded between the changes. */
  datatype Event =
    // the author is the validating thread, None for `insert`
    | Stored(key: string, entry: Entry, at: int, ttl: int, author: Option<nat>)
    | Dropped(key: string)
    | ValidatorRun(key: string, thread: nat, at: int)

  type History = seq<Event>

  function Effect(c: Cache, cap: nat, e: Event): Cache
    requires cap > 0
  {
    match e
    case Stored(key, entry, _, _, _) => Put(c, cap, key, entry)
    case Dropped(key) => Pop(c, key)
    case ValidatorRun(_, _, _) => c
  }

  /** The map after a history. */
  function Replay(cap: nat, h: History): Cache
    requires cap > 0
  {
    if h == [] then EMPTY else Effect(Replay(cap, h[..|h| - 1]), cap, h[|h| - 1])
  }

  lemma ReplayAppend(cap: nat, h: History, e: Event)
    requires cap > 0
    ensures Replay(cap, h + [e]) == Effect(Replay(cap, h), cap, e)
  {
    assert (h + [e])[..|h|] == h;
  }

  lemma {:induction false} ReplayWellFormed(cap: nat, h: History)
    requires cap > 0
    ensures WellFormed(Replay(cap, h), cap)
    decreases |h|
  {
    if h != [] {
      var c, e := Replay(cap, h[..|h| - 1]), h[|h| - 1];
      ReplayWellFormed(cap, h[..|h| - 1]);
      match e {
        case Stored(key, entry, _, _, _) => PutWellFormed(c, cap, key, entry);
        case Dropped(key) => PopWellFormed(c, cap, key);
        case ValidatorRun(_, _, _) =>
      }
    }
  }

  predicate Touches(e: Event, k: string) {
    !e.ValidatorRun? && e.key == k
  }

  /** The last event that stores or drops the key, or -1. */
  function LastTouch(h: History, k: string): (i: int)
    ensures -1 <= i < |h|
    ensures i >= 0 ==> Touches(h[i], k)
    ensures forall j :: i < j < |h| ==> !Touches(h[j], k)
  {
    if h == [] then -1
    else if Touches(h[|h| - 1], k) then |h| - 1
    else LastTouch(h[..|h| - 1], k)
  }

  /** The keys other than `k` stored from index `from` on. */
  function StoredOthers(h: History, from: nat, k: string): set<string> {
    if |h| <= from then {}
    else
      var before := StoredOthers(h[..|h| - 1], from, k);
      if h[|h| - 1].Stored? && h[|h| - 1].key != k then before + {h[|h| - 1].key} else before
  }

  lemma {:induction false} StoredOthersMeans(h: History, from: nat, k: string, x: string)
    ensures x in StoredOthers(h, from, k) <==> x != k && exists i :: from <= i < |h| && h[i].Stored? && h[i].key == x
  {
    if |h| > from {
      var front := h[..|h| - 1];
      StoredOthersMeans(front, from, k, x);
      if exists i :: from <= i < |front| && front[i].Stored? && front[i].key == x {
        var i :| from <= i < |front| && front[i].Stored? && front[i].key == x;
        assert h[i] == front[i];
      }
      if exists i :: from <= i < |h| && h[i].Stored? && h[i].key == x {
        var i :| from <= i < |h| && h[i].Stored? && h[i].key == x;
        assert i < |front| ==> front[i] == h[i];
      }
    }
  }

  lemma StoredOthersAppend(h: History, e: Event, from: nat, k: string)
    requires from <= |h|
    ensures StoredOthers(h + [e], from, k)
         == StoredOthers(h, from, k) + (if e.Stored? && e.key != k then {e.key} else {})
  {
    assert (h + [e])[..|h|] == h;
  }

  lemma LastTouchAppend(h: History, e: Event, k: string)
    ensures LastTouch(h + [e], k) == if Touches(e, k) then |h| else LastTouch(h, k)
  {
    assert (h + [e])[..|h|] == h;
  }

  /** The distinct other keys stored after the last event of `k`. */
  function OthersSince(h: History, k: string): set<string> {
    StoredOthers(h, LastTouch(h, k) + 1, k)
  }

  /** The keys in front of `k` in recency order. */
  function Ahead(order: seq<string>, k: string): set<string> {
    if order == [] || order[0] == k then {} else {order[0]} + Ahead(order[1..], k)
  }

  predicate NoDrops(h: History) {
    forall i :: 0 <= i < |h| ==> !h[i].Dropped?
  }

  /** Everything that is known about one key after a history. */
  ghost predicate Explained(cap: nat, h: History, c: Cache, k: string) {
    var i := LastTouch(h, k);
    if i < 0 || h[i].Dropped? then k !in c.entries
    else if k in c.entries then
      && c.entries[k] == h[i].entry
      && Ahead(c.order, k) <= OthersSince(h, k)
      && (NoDrops(h) ==> Ahead(c.order, k) == OthersSince(h, k))
    else |OthersSince(h, k)| >= cap
  }

  lemma {:induction false} AheadWithout(order: seq<string>, x: string, k: string)
    requires x != k
    ensures Ahead(Without(order, x), k) <= Ahead(order, k)
    ensures Ahead(Without(order, x), k) + {x} == Ahead(order, k) + {x}
  {
    if order != [] && order[0] != k {
      AheadWithout(order[1..], x, k);
    }
  }

  lemma {:induction false} AheadInPrefix(order: seq<string>, n: nat, k: string)
    requires n <= |order| && k in order[..n]
    ensures Ahead(order[..n], k) == Ahead(order, k)
  {
    if order[0] != k {
      assert order[..n] == [order[0]] + order[1..][..n - 1];
      AheadInPrefix(order[1..], n - 1, k);
    }
  }

  lemma TailHasNoDuplicates(order: seq<string>)
    requires NoDuplicates(order) && order != []
    ensures NoDuplicates(order[1..]) && order[0] !in order[1..] && order == [order[0]] + order[1..]
  {
    assert forall i :: 0 <= i < |order[1..]| ==> order[1..][i] == order[i + 1];
  }

  lemma {:induction false} AheadWithin(order: seq<string>, k: string, x: string)
    requires x in Ahead(order, k)
    ensures x in order
  {
    if x != order[0] { AheadWithin(order[1..], k, x); }
  }

  lemma {:induction false} AheadIsShort(order: seq<string>, k: string)
    requires k in order
    ensures |Ahead(order, k)| < |order|
  {
    if order[0] != k {
      assert order == [order[0]] + order[1..];
      AheadIsShort(order[1..], k);
      AddOne(Ahead(order[1..], k), order[0]);
    }
  }

  lemma AddOne(s: set<string>, x: string)
    ensures |{x} + s| == if x in s then |s| else |s| + 1
  {
    if x in s { assert {x} + s == s; }
  }

  /** All other keys are in front of the last one. */
  lemma {:induction false} AheadOfLast(order: seq<string>)
    requires NoDuplicates(order) && order != []
    ensures |Ahead(order, order[|order| - 1])| == |order| - 1
  {
    if |order| > 1 {
      var k := order[|order| - 1];
      TailHasNoDuplicates(order);
      assert order[1..][|order| - 2] == k != order[0];
      AheadOfLast(order[1..]);
      if order[0] in Ahead(order[1..], k) { AheadWithin(order[1..], k, order[0]); }
      AddOne(Ahead(order[1..], k), order[0]);
    }
  }

  lemma OthersAppend(h: History, e: Event, k: string)
    requires !Touches(e, k)
    ensures OthersSince(h + [e], k) == OthersSince(h, k) + (if e.Stored? then {e.key} else {})
    ensures NoDrops(h + [e]) <==> NoDrops(h) && !e.Dropped?
  {
    LastTouchAppend(h, e, k);
    StoredOthersAppend(h, e, LastTouch(h, k) + 1, k);
    NoDropsAppend(h, e);
  }

  lemma NoDropsAppend(h: History, e: Event)
    ensures NoDrops(h + [e]) <==> NoDrops(h) && !e.Dropped?
  {
    var h' := h + [e];
    assert h'[|h|] == e;
    assert forall i :: 0 <= i < |h| ==> h'[i] == h[i];
  }

  lemma EvictedIsLast(order: seq<string>, cap: nat, x: string, k: string)
    requires cap > 0 && |order| <= cap && x != k && k in order && k !in Behind(order, cap, x)
    ensures x !in order && |order| == cap && order[cap - 1] == k
  {
    assert Behind(order, cap, x) == order[..cap - 1];
    forall j | 0 <= j < cap - 1 ensures order[j] != k {
      assert order[..cap - 1][j] == order[j];
    }
  }

  /** The key that an insertion pushes out has the whole rest of a full map in front of it. */
  lemma EvictedIsCovered(cap: nat, order: seq<string>, x: string, k: string, others: set<string>)
    requires cap > 0 && NoDuplicates(order) && |order| <= cap && x != k
    requires k in order && k !in Behind(order, cap, x)
    requires Ahead(order, k) <= others
    ensures |others + {x}| >= cap
  {
    EvictedIsLast(order, cap, x, k);
    AheadOfLast(order);
    if x in Ahead(order, k) { AheadWithin(order, k, x); }
    SubsetSize(Ahead(order, k) + {x}, others + {x});
  }

  lemma AheadBehind(order: seq<string>, cap: nat, x: string, k: string)
    requires cap > 0 && |order| <= cap && x != k && k in Behind(order, cap, x)
    ensures k in order && Ahead(Behind(order, cap, x), k) + {x} == Ahead(order, k) + {x}
  {
    if x in order {
      AheadWithout(order, x, k);
    } else if |order| == cap {
      AheadInPrefix(order, cap - 1, k);
    }
  }

  /** A key that survives a store keeps its entry and gets the stored key in front of it. */
  lemma SurvivorOfPut(c: Cache, cap: nat, x: string, e: Entry, k: string)
    requires cap > 0 && WellFormed(c, cap) && x != k && k in Put(c, cap, x, e).entries
    ensures k in c.entries && Put(c, cap, x, e).entries[k] == c.entries[k]
    ensures Ahead(Put(c, cap, x, e).order, k) == Ahead(c.order, k) + {x}
  {
    AheadBehind(c.order, cap, x, k);
    assert Put(c, cap, x, e).order[1..] == Behind(c.order, cap, x);
  }

  lemma ExplainedStored(cap: nat, h: History, c: Cache, e: Event, k: string)
    requires cap > 0 && WellFormed(c, cap) && Explained(cap, h, c, k) && e.Stored? && e.key != k
    ensures Explained(cap, h + [e], Put(c, cap, e.key, e.entry), k)
  {
    var c' := Put(c, cap, e.key, e.entry);
    LastTouchAppend(h, e, k);
    OthersAppend(h, e, k);
    var i := LastTouch(h, k);
    assert i >= 0 ==> (h + [e])[i] == h[i];
    if k in c'.entries {
      SurvivorOfPut(c, cap, e.key, e.entry, k);
    } else if k in c.entries {
      EvictedIsCovered(cap, c.order, e.key, k, OthersSince(h, k));
    } else if i >= 0 && h[i].Stored? {
      SubsetSize(OthersSince(h, k), OthersSince(h + [e], k));
    }
  }

  lemma ExplainedDropped(cap: nat, h: History, c: Cache, e: Event, k: string)
    requires WellFormed(c, cap) && Explained(cap, h, c, k) && e.Dropped? && e.key != k
    ensures Explained(cap, h + [e], Pop(c, e.key), k)
  {
    LastTouchAppend(h, e, k);
    OthersAppend(h, e, k);
    AheadWithout(c.order, e.key, k);
    var i := LastTouch(h, k);
    assert i >= 0 ==> (h + [e])[i] == h[i];
  }

  lemma ExplainedRun(cap: nat, h: History, c: Cache, e: Event, k: string)
    requires Explained(cap, h, c, k) && e.ValidatorRun?
    ensures Explained(cap, h + [e], c, k)
  {
    LastTouchAppend(h, e, k);
    OthersAppend(h, e, k);
    var i := LastTouch(h, k);
    assert i >= 0 ==> (h + [e])[i] == h[i];
  }

  lemma ExplainedTouched(cap: nat, h: History, c: Cache, e: Event, k: string)
    requires cap > 0 && WellFormed(c, cap) && Touches(e, k)
    ensures Explained(cap, h + [e], Effect(c, cap, e), k)
  {
    LastTouchAppend(h, e, k);
    assert (h + [e])[|h|] == e;
    assert OthersSince(h + [e], k) == {};
  }

  lemma ExplainedStep(cap: nat, h: History, c: Cache, e: Event, k: string)
    requires cap > 0 && WellFormed(c, cap) && Explained(cap, h, c, k)
    ensures Explained(cap, h + [e], Effect(c, cap, e), k)
  {
    if Touches(e, k) {
      ExplainedTouched(cap, h, c, e, k);
    } else if e.Stored? {
      ExplainedStored(cap, h, c, e, k);
    } else if e.Dropped? {
      ExplainedDropped(cap, h, c, e, k);
    } else {
      ExplainedRun(cap, h, c, e, k);
    }
  }

  lemma ExplainedNext(cap: nat, h: History, e: Event, k: string)
    requires cap > 0 && Explained(cap, h, Replay(cap, h), k)
    ensures Explained(cap, h + [e], Replay(cap, h + [e]), k)
  {
    ReplayWellFormed(cap, h);
    ExplainedStep(cap, h, Replay(cap, h), e, k);
    ReplayAppend(cap, h, e);
  }

  lemma NothingHappened(cap: nat, k: string)
    requires cap > 0
    ensures Explained(cap, [], Replay(cap, []), k)
  {
  }

  lemma FrontAndLast(h: History)
    requires h != []
    ensures h[..|h| - 1] + [h[|h| - 1]] == h
  {
  }

  lemma {:induction false} ReplayExplained(cap: nat, h: History, k: string)
    requires cap > 0
    ensures Explained(cap, h, Replay(cap, h), k)
    decreases |h|
  {
    if h == [] {
      NothingHappened(cap, k);
    } else {
      FrontAndLast(h);
      ReplayExplained(cap, h[..|h| - 1], k);
      ExplainedNext(cap, h[..|h| - 1], h[|h| - 1], k);
    }
  }

  // ---------------------------------------------------------------- What the map holds

  /** A stored key that is gone was dropped, or at least `cap` distinct other keys were stored after it. */
  lemma GoneMeansCrowdedOut(cap: nat, h: History, k: string)
    requires cap > 0 && LastTouch(h, k) >= 0 && h[LastTouch(h, k)].Stored?
    ensures k in Replay(cap, h).entries ==> Replay(cap, h).entries[k] == h[LastTouch(h, k)].entry
    ensures k !in Replay(cap, h).entries ==> |OthersSince(h, k)| >= cap
  {
    ReplayExplained(cap, h, k);
  }

  /**
   Without drops the map holds exactly the `cap` most recently stored distinct keys, each with its latest
   entry: a key is present if and only if fewer than `cap` other keys were stored after it.
   */
  lemma ContentsAreMostRecent(cap: nat, h: History, k: string)
    requires cap > 0 && NoDrops(h)
    ensures k in Replay(cap, h).entries <==> LastTouch(h, k) >= 0 && |OthersSince(h, k)| < cap
    ensures k in Replay(cap, h).entries ==> Replay(cap, h).entries[k] == h[LastTouch(h, k)].entry
  {
    ReplayExplained(cap, h, k);
    ReplayWellFormed(cap, h);
    if k in Replay(cap, h).entries {
      AheadIsShort(Replay(cap, h).order, k);
    }
  }

  lemma {:induction false} OrderSize(order: seq<string>, keys: set<string>)
    requires NoDuplicates(order) && forall k :: k in keys <==> k in order
    ensures |keys| == |order|
  {
    if order != [] {
      assert forall i :: 0 <= i < |order[1..]| ==> order[1..][i] == order[i + 1];
      assert order == [order[0]] + order[1..];
      OrderSize(order[1..], keys - {order[0]});
    } else {
      assert keys == {};
    }
  }

  /** The map never outgrows its capacity. */
  lemma SizeIsBounded(cap: nat, h: History)
    requires cap > 0
    ensures |Replay(cap, h).entries| <= cap
  {
    ReplayWellFormed(cap, h);
    OrderSize(Replay(cap, h).order, Replay(cap, h).entries.Keys);
  }
}
