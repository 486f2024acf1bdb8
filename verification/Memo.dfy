/**
 A memo table in general: a map addressed by a string key of the request, filled with a value computed
 from the request, from which a miss also evicts.
 */
module Memo {

  /** `key` addresses the table, `value` is what is memoised, `keep(x, k)` says whether a miss on x leaves entry k. */
  datatype Table<!X, !V> = Table(key: X -> string, value: X -> V, keep: (X, string) -> bool)

  /** What a request is answered, and the entries it leaves. */
  function Answer<X, V>(t: Table<X, V>, entries: map<string, V>, x: X): V {
    if t.key(x) in entries then entries[t.key(x)] else t.value(x)
  }

  function AfterCall<X, V>(t: Table<X, V>, entries: map<string, V>, x: X): map<string, V> {
    if t.key(x) in entries then entries
    else (map k | k in entries && t.keep(x, k) :: entries[k])[t.key(x) := t.value(x)]
  }

  function AfterCalls<X, V>(t: Table<X, V>, entries: map<string, V>, calls: seq<X>): map<string, V>
    decreases |calls|
  {
    if calls == [] then entries else AfterCalls(t, AfterCall(t, entries, calls[0]), calls[1..])
  }

  ghost predicate Within<X(!new)>(calls: seq<X>, family: iset<X>) {
    forall i :: 0 <= i < |calls| ==> calls[i] in family
  }

  /** Distinct members of the family have distinct keys. */
  ghost predicate Injective<X(!new)>(key: X -> string, family: iset<X>) {
    forall x, y :: x in family && y in family && key(x) == key(y) ==> x == y
  }

  /** Every entry under the key of a family member holds that member's own value. */
  ghost predicate Sound<X(!new), V(!new)>(t: Table<X, V>, family: iset<X>, entries: map<string, V>) {
    forall x :: x in family && t.key(x) in entries ==> entries[t.key(x)] == t.value(x)
  }

  /** Right after every earlier run within the family, for every caller of the family. */
  ghost predicate Transparent<X(!new), V(!new)>(t: Table<X, V>, family: iset<X>) {
    forall calls: seq<X>, x: X :: Within(calls, family) && x in family ==>
      Answer(t, AfterCalls(t, map[], calls), x) == t.value(x)
  }

  lemma {:induction false} CallsStaySound<X(!new), V(!new)>(
    t: Table<X, V>, family: iset<X>, entries: map<string, V>, calls: seq<X>)
    requires Injective(t.key, family) && Within(calls, family) && Sound(t, family, entries)
    ensures Sound(t, family, AfterCalls(t, entries, calls))
    decreases |calls|
  {
    if calls != [] {
      assert calls[0] in family;
      assert Sound(t, family, AfterCall(t, entries, calls[0]));
      assert forall i :: 0 <= i < |calls[1..]| ==> calls[1..][i] == calls[i + 1];
      CallsStaySound(t, family, AfterCall(t, entries, calls[0]), calls[1..]);
    }
  }

  lemma InjectiveIsTransparent<X(!new), V(!new)>(t: Table<X, V>, family: iset<X>)
    requires Injective(t.key, family)
    ensures Transparent(t, family)
  {
    forall calls: seq<X>, x: X | Within(calls, family) && x in family
      ensures Answer(t, AfterCalls(t, map[], calls), x) == t.value(x)
    {
      CallsStaySound(t, family, map[], calls);
    }
  }

  /** A second request under the key of a first one with another value is answered wrongly. */
  lemma CollisionIsVisible<X(!new), V(!new)>(t: Table<X, V>, family: iset<X>, a: X, b: X)
    requires a in family && b in family && t.key(a) == t.key(b) && t.value(a) != t.value(b)
    ensures !Transparent(t, family)
  {
    var after := AfterCall(t, map[], a);
    assert AfterCalls(t, after, []) == after;
    assert AfterCalls(t, map[], [a]) == after;
    assert Within([a], family);
    assert Answer(t, AfterCalls(t, map[], [a]), b) == t.value(a);
  }

  // ---------------------------------------------------------------- Concurrent use

  /** The atomic operations on a concurrent map: a computed value is stored, or entries are evicted. */
  datatype MapOp<X> = Store(x: X) | Evict(keys: set<string>)

  function Apply<X, V>(t: Table<X, V>, entries: map<string, V>, op: MapOp<X>): map<string, V> {
    match op
    case Store(x) => entries[t.key(x) := t.value(x)]
    case Evict(keys) => entries - keys
  }

  function Interleaved<X, V>(t: Table<X, V>, entries: map<string, V>, ops: seq<MapOp<X>>): map<string, V>
    decreases |ops|
  {
    if ops == [] then entries else Interleaved(t, Apply(t, entries, ops[0]), ops[1..])
  }

  ghost predicate StoresWithin<X(!new)>(ops: seq<MapOp<X>>, family: iset<X>) {
    forall i :: 0 <= i < |ops| && ops[i].Store? ==> ops[i].x in family
  }

  /**
   Whatever the order in which threads evict (a scan may be half done) and store, a reader is answered
   with the value of its own request.
   */
  lemma {:induction false} InterleavedStaysSound<X(!new), V(!new)>(
    t: Table<X, V>, family: iset<X>, entries: map<string, V>, ops: seq<MapOp<X>>)
    requires Injective(t.key, family) && StoresWithin(ops, family) && Sound(t, family, entries)
    ensures forall x :: x in family ==> Answer(t, Interleaved(t, entries, ops), x) == t.value(x)
    decreases |ops|
  {
    if ops != [] {
      var next := Apply(t, entries, ops[0]);
      assert ops[0].Store? ==> ops[0].x in family;
      assert Sound(t, family, next);
      assert forall i :: 0 <= i < |ops[1..]| ==> ops[1..][i] == ops[i + 1];
      InterleavedStaysSound(t, family, next, ops[1..]);
    }
  }
}
