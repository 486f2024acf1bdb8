/**
 A panic while the authorization map is locked for writing poisons the lock: when that happens, and what
 is left of the cache afterwards.
 */
module Poisoning {
  import opened Text
  import opened Lru
  import opened AuthProtocol
  import AuthCache

  // ---------------------------------------------------------------- After a panic

  /** A caller that has started since the panic has got nowhere. */
  predicate GotNowhere(pc: Pc) {
    Startable(pc) || pc.InsertReady? || pc == Finished(Failure)
  }

  lemma StepInPoisoned(s: State, step: Step, t: nat)
    requires s.cap > 0 && s.poisoned && Enabled(s, step) && (t in s.threads ==> GotNowhere(s.threads[t].pc))
    ensures
      var s' := Next(s, step);
      s'.poisoned && s'.cap > 0 && s'.cache == s.cache && (t in s'.threads ==> GotNowhere(s'.threads[t].pc))
  {
  }

  /**
   A panic under the write lock, which a ttl too large for the clock causes, is final: the map never changes
   again, and every call that starts afterwards fails.
   */
  lemma {:induction false} PoisonedCacheAnswersNobody(s: State, steps: seq<Step>, s': State, t: nat)
    requires s.poisoned && Runs(s, steps, s') && (t in s.threads ==> GotNowhere(s.threads[t].pc))
    ensures s'.poisoned && s'.cache == s.cache
    ensures t in s'.threads && s'.threads[t].pc.Finished? ==> s'.threads[t].pc.outcome == Failure
    decreases |steps|
  {
    if steps != [] {
      StepInPoisoned(s, steps[0], t);
      PoisonedCacheAnswersNobody(Next(s, steps[0]), steps[1..], s', t);
    }
  }

  // ---------------------------------------------------------------- When it comes to that

  /** The clock stays at or below T, and callers ask for at most L. */
  predicate Bounded(step: Step, T: int, L: nat) {
    match step
    case Tick(later) => later <= T
    case Spawn(_, thread) => thread.ttl <= L
    case _ => true
  }

  predicate AllBounded(steps: seq<Step>, T: int, L: nat) {
    forall i :: 0 <= i < |steps| ==> Bounded(steps[i], T, L)
  }

  ghost predicate Sane(s: State, T: int, L: nat) {
    !s.poisoned && s.now <= T && forall t :: t in s.threads ==> s.threads[t].ttl <= L
  }

  lemma StepStaysSane(s: State, step: Step, T: int, L: nat)
    requires s.cap > 0 && Enabled(s, step) && Sane(s, T, L) && Bounded(step, T, L) && T + L <= AuthCache.MAX_INSTANT
    ensures Sane(Next(s, step), T, L)
  {
  }

  lemma {:induction false} RunStaysSane(s: State, steps: seq<Step>, s': State, T: int, L: nat)
    requires Runs(s, steps, s') && Sane(s, T, L) && AllBounded(steps, T, L) && T + L <= AuthCache.MAX_INSTANT
    ensures Sane(s', T, L)
    decreases |steps|
  {
    if steps != [] {
      assert Bounded(steps[0], T, L);
      StepStaysSane(s, steps[0], T, L);
      assert forall i :: 0 <= i < |steps[1..]| ==> steps[1..][i] == steps[i + 1];
      RunStaysSane(Next(s, steps[0]), steps[1..], s', T, L);
    }
  }

  /** One caller alone, with the given ttl. */
  function Solo(cap: nat, now: int, ttl: nat, pc: Pc, owner: map<string, Option<nat>>, h: History): State {
    State(cap, map[0 := Thread("k", ttl, pc)], owner, EMPTY, false, now, h)
  }

  /** It starts, misses, takes the lock, misses again, validates, and stores. */
  function SoloSteps(ttl: nat): seq<Step> {
    [Spawn(0, Thread("k", ttl, Begin)), Act(0), Act(0), Act(0), Act(0), Act(0), Act(0), Answer(0, Some(true)), Act(0)]
  }

  lemma RunsCons(s: State, step: Step, rest: seq<Step>, s': State)
    requires s.cap > 0 && Enabled(s, step) && Runs(Next(s, step), rest, s')
    ensures Runs(s, [step] + rest, s')
  {
    assert ([step] + rest)[1..] == rest;
  }

  lemma SoloStores(cap: nat, now: int, ttl: nat, h: History) returns (s': State)
    requires cap > 0 && now + ttl > AuthCache.MAX_INSTANT
    ensures Runs(Solo(cap, now, ttl, Validating, Mine(), h), [Answer(0, Some(true)), Act(0)], s')
    ensures s'.poisoned && s'.threads.Keys == {0}
  {
    var s := Solo(cap, now, ttl, Validating, Mine(), h);
    var next := Next(s, Answer(0, Some(true)));
    assert next.threads[0].pc == Verdict(true);
    s' := Next(next, Act(0));
    assert Runs(s', [], s');
    RunsCons(next, Act(0), [], s');
    RunsCons(s, Answer(0, Some(true)), [Act(0)], s');
    assert [Act(0)] + [] == [Act(0)] && [Answer(0, Some(true))] + [Act(0)] == [Answer(0, Some(true)), Act(0)];
  }

  lemma SoloStep(cap: nat, now: int, ttl: nat, pc: Pc, owner: map<string, Option<nat>>, h: History,
                 pc': Pc, owner': map<string, Option<nat>>, h': History, rest: seq<Step>, s': State)
    requires cap > 0 && Enabled(Solo(cap, now, ttl, pc, owner, h), Act(0))
    requires Action(Solo(cap, now, ttl, pc, owner, h), 0) == Solo(cap, now, ttl, pc', owner', h')
    requires Runs(Solo(cap, now, ttl, pc', owner', h'), rest, s')
    ensures Runs(Solo(cap, now, ttl, pc, owner, h), [Act(0)] + rest, s')
  {
    RunsCons(Solo(cap, now, ttl, pc, owner, h), Act(0), rest, s');
  }

  function Free(): map<string, Option<nat>> {
    map["k" := None]
  }

  function Mine(): map<string, Option<nat>> {
    map["k" := Some(0)]
  }

  /** From the lock to the running validator. */
  lemma SoloValidates(cap: nat, now: int, ttl: nat, rest: seq<Step>, s': State)
    requires cap > 0 && Runs(Solo(cap, now, ttl, Validating, Mine(), [ValidatorRun("k", 0, now)]), rest, s')
    ensures Runs(Solo(cap, now, ttl, Holding, Mine(), []), [Act(0)] + ([Act(0)] + rest), s')
  {
    SoloStep(cap, now, ttl, PeekedAgain(None, 0), Mine(), [], Validating, Mine(), [ValidatorRun("k", 0, now)], rest,
             s');
    SoloStep(cap, now, ttl, Holding, Mine(), [], PeekedAgain(None, 0), Mine(), [], [Act(0)] + rest, s');
  }

  /** From a miss to the lock. */
  lemma SoloLocks(cap: nat, now: int, ttl: nat, rest: seq<Step>, s': State)
    requires cap > 0 && Runs(Solo(cap, now, ttl, Holding, Mine(), []), rest, s')
    ensures Runs(Solo(cap, now, ttl, Missed, map[], []), [Act(0)] + ([Act(0)] + rest), s')
  {
    assert Free()["k" := Some(0)] == Mine();
    SoloStep(cap, now, ttl, Waiting, Free(), [], Holding, Mine(), [], rest, s');
    SoloStep(cap, now, ttl, Missed, map[], [], Waiting, Free(), [], [Act(0)] + rest, s');
  }

  /** From the start to a miss. */
  lemma SoloMisses(cap: nat, now: int, ttl: nat, rest: seq<Step>, s': State)
    requires cap > 0 && Runs(Solo(cap, now, ttl, Missed, map[], []), rest, s')
    ensures Runs(Solo(cap, now, ttl, Begin, map[], []), [Act(0)] + ([Act(0)] + rest), s')
  {
    SoloStep(cap, now, ttl, Peeked(None), map[], [], Missed, map[], [], rest, s');
    SoloStep(cap, now, ttl, Begin, map[], [], Peeked(None), map[], [], [Act(0)] + rest, s');
  }

  lemma SoloShape(ttl: nat)
    ensures
      var rest := [Answer(0, Some(true)), Act(0)];
      [Spawn(0, Thread("k", ttl, Begin))]
        + ([Act(0)] + ([Act(0)] + ([Act(0)] + ([Act(0)] + ([Act(0)] + ([Act(0)] + rest))))))
      == SoloSteps(ttl)
  {
  }

  /** From an empty cache, a single caller whose expiry is not representable leaves it poisoned. */
  lemma SoloPoisons(capacity: nat, now: int, ttl: nat) returns (s': State)
    requires now + ttl > AuthCache.MAX_INSTANT
    ensures Runs(Initial(capacity, now), SoloSteps(ttl), s') && s'.poisoned && s'.threads.Keys == {0}
  {
    var cap := AuthCache.EffectiveCapacity(capacity);
    s' := SoloStores(cap, now, ttl, [ValidatorRun("k", 0, now)]);
    var rest := [Answer(0, Some(true)), Act(0)];
    SoloValidates(cap, now, ttl, rest, s');
    SoloLocks(cap, now, ttl, [Act(0)] + ([Act(0)] + rest), s');
    SoloMisses(cap, now, ttl, [Act(0)] + ([Act(0)] + ([Act(0)] + ([Act(0)] + rest))), s');
    var all := [Act(0)] + ([Act(0)] + ([Act(0)] + ([Act(0)] + ([Act(0)] + ([Act(0)] + rest)))));
    RunsCons(Initial(capacity, now), Spawn(0, Thread("k", ttl, Begin)), all, s');
    SoloShape(ttl);
  }

  /** No run of callers with these bounds poisons the cache. */
  ghost predicate NeverPoisoned(T: int, L: nat) {
    forall capacity: nat, now: int, steps: seq<Step>, s: State ::
      now <= T && AllBounded(steps, T, L) && Runs(Initial(capacity, now), steps, s) ==> !s.poisoned
  }

  /** The cache is never poisoned if and only if the largest expiry that can come up is representable. */
  lemma NeverPoisonedExactly(T: int, L: nat)
    ensures NeverPoisoned(T, L) <==> T + L <= AuthCache.MAX_INSTANT
  {
    if T + L <= AuthCache.MAX_INSTANT {
      forall capacity: nat, now: int, steps: seq<Step>, s: State
        | now <= T && AllBounded(steps, T, L) && Runs(Initial(capacity, now), steps, s)
        ensures !s.poisoned
      {
        RunStaysSane(Initial(capacity, now), steps, s, T, L);
      }
    } else {
      var s := SoloPoisons(0, T, L);
      assert AllBounded(SoloSteps(L), T, L);
    }
  }

  /**
   One request whose expiry is not representable is enough: its run ends with a poisoned cache, and nobody
   who calls later gets an answer.
   */
  lemma UnrepresentableExpiryPoisons(capacity: nat, now: int, ttl: nat, later: seq<Step>, s: State, t: nat)
    requires now + ttl > AuthCache.MAX_INSTANT && t != 0
    requires Runs(Initial(capacity, now), SoloSteps(ttl) + later, s)
    ensures s.poisoned
    ensures t in s.threads && s.threads[t].pc.Finished? ==> s.threads[t].pc.outcome == Failure
  {
    var first := SoloPoisons(capacity, now, ttl);
    RunsSplit(Initial(capacity, now), SoloSteps(ttl), first, later, s);
    PoisonedCacheAnswersNobody(first, later, s, t);
  }

  /** With the largest configurable ttl a single request from an empty cache ends with the cache poisoned. */
  lemma LargestTtlPoisons(capacity: nat, now: nat) returns (s: State)
    ensures Runs(Initial(capacity, now), SoloSteps(AuthCache.EffectiveTtl(0xFFFF_FFFF_FFFF_FFFF)), s) && s.poisoned
  {
    AuthCache.LargestTtlPanics(now);
    s := SoloPoisons(capacity, now, AuthCache.EffectiveTtl(0xFFFF_FFFF_FFFF_FFFF));
  }

  /** Runs are deterministic in their steps. */
  lemma {:induction false} RunsSplit(s: State, a: seq<Step>, middle: State, b: seq<Step>, s': State)
    requires Runs(s, a, middle) && Runs(s, a + b, s')
    ensures Runs(middle, b, s')
    decreases |a|
  {
    if a == [] {
      assert a + b == b;
    } else {
      assert (a + b)[0] == a[0] && (a + b)[1..] == a[1..] + b;
      RunsSplit(Next(s, a[0]), a[1..], middle, b, s');
    }
  }
}
