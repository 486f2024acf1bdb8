/**
 The object and the protocol are models of one function: an undisturbed call of `get_or_validate` is a run of
 the protocol with a single active caller, for every state the cache can be in when it starts.
 */
module AuthSolo {
  import opened Text
  import opened Lru
  import opened AuthProtocol
  import AuthCache

  /** One more step at the end of a run. */
  lemma {:induction false} RunsOn(s: State, steps: seq<Step>, s': State, step: Step)
    requires Runs(s, steps, s') && s'.cap > 0 && Enabled(s', step)
    ensures Runs(s, steps + [step], Next(s', step))
    decreases |steps|
  {
    if steps == [] {
      assert [step][1..] == [] && steps + [step] == [step];
      assert Runs(Next(s', step), [], Next(s', step));
    } else {
      assert (steps + [step])[0] == steps[0] && (steps + [step])[1..] == steps[1..] + [step];
      RunsOn(Next(s, steps[0]), steps[1..], s', step);
    }
  }

  /** Where the active caller has got to, with the map still as it was. */
  ghost predicate At(s: State, s': State, t: nat, key: string, ttl: nat, pc: Pc, now: int) {
    && s'.cap == s.cap > 0 && s'.cache == s.cache && !s'.poisoned && s'.now == now
    && t in s'.threads && s'.threads[t] == Thread(key, ttl, pc)
  }

  predicate LockIsFree(s: State, key: string) {
    key in s.owner ==> s.owner[key] == None
  }

  /** Up to the answer of the first check. */
  lemma FirstCheck(s: State, t: nat, key: string, ttl: nat, first: int) returns (steps: seq<Step>, s': State)
    requires s.cap > 0 && !s.poisoned && t !in s.threads && s.now <= first && LockIsFree(s, key)
    ensures Runs(s, steps, s') && LockIsFree(s', key)
    ensures
      var found := Peek(s.cache, key);
      At(s, s', t, key, ttl,
         if AuthCache.Fresh(found, first) then Finished(Hit(found.value.authorized, first)) else Missed, first)
  {
    steps := [Spawn(t, Thread(key, ttl, Begin))];
    s' := Next(s, Spawn(t, Thread(key, ttl, Begin)));
    assert Runs(s, [], s);
    RunsOn(s, [], s, Spawn(t, Thread(key, ttl, Begin)));
    assert [] + steps == steps;
    steps, s' := One(s, steps, s', Act(t));
    steps, s' := One(s, steps, s', Tick(first));
    steps, s' := One(s, steps, s', Act(t));
  }

  lemma One(s: State, steps: seq<Step>, s': State, step: Step) returns (longer: seq<Step>, s'': State)
    requires Runs(s, steps, s') && s'.cap > 0 && Enabled(s', step)
    ensures longer == steps + [step] && s'' == Next(s', step) && Runs(s, longer, s'')
  {
    RunsOn(s, steps, s', step);
    longer, s'' := steps + [step], Next(s', step);
  }

  /** From the miss to the answer of the second check, or to the running validator with the lock in hand. */
  lemma SecondCheck(s: State, steps: seq<Step>, m: State, t: nat, key: string, ttl: nat, first: int, second: int)
    returns (longer: seq<Step>, s': State)
    requires Runs(s, steps, m) && At(s, m, t, key, ttl, Missed, first) && LockIsFree(m, key) && first <= second
    ensures Runs(s, longer, s')
    ensures
      var found := Peek(s.cache, key);
      At(s, s', t, key, ttl,
         if AuthCache.Fresh(found, second) then Finished(Hit(found.value.authorized, second)) else Validating, second)
  {
    longer, s' := One(s, steps, m, Act(t));
    longer, s' := One(s, longer, s', Act(t));
    longer, s' := One(s, longer, s', Act(t));
    longer, s' := One(s, longer, s', Tick(second));
    longer, s' := One(s, longer, s', Act(t));
    if s'.threads[t].pc.Settled? {
      longer, s' := One(s, longer, s', Act(t));
    }
  }

  /** From the running validator to the end of the call. */
  lemma Conclusion(s: State, steps: seq<Step>, m: State, t: nat, key: string, ttl: nat, verdict: Option<bool>,
                   second: int, third: int)
    returns (longer: seq<Step>, s': State)
    requires Runs(s, steps, m) && At(s, m, t, key, ttl, Validating, second) && second <= third
    ensures Runs(s, longer, s') && t in s'.threads
    ensures verdict.None? ==> At(s, s', t, key, ttl, Finished(Failure), second)
    ensures verdict.Some? && AuthCache.Expiry(third, ttl).None? ==>
      s'.poisoned && s'.cache == s.cache && s'.threads[t].pc == Finished(Failure)
    ensures verdict.Some? && AuthCache.Expiry(third, ttl).Some? ==>
      && s'.threads[t].pc == Finished(Own(verdict.value)) && !s'.poisoned
      && s'.cache == Put(s.cache, s.cap, key, Entry(verdict.value, third + ttl))
  {
    longer, s' := One(s, steps, m, Answer(t, verdict));
    if verdict.Some? {
      longer, s' := One(s, longer, s', Tick(third));
      longer, s' := One(s, longer, s', Act(t));
    }
    longer, s' := One(s, longer, s', Act(t));
  }

  /** What a caller of the object sees of an outcome of the protocol. */
  predicate Shows(outcome: Outcome, reply: AuthCache.Reply, poisoned: bool) {
    match reply
    case Decided(d) => (outcome == Own(d) || (outcome.Hit? && outcome.decision == d)) && !poisoned
    case ValidatorFailed => outcome == Failure && !poisoned
    case Panicked => outcome == Failure && poisoned
  }

  /**
   For every state with the key's lock free: the undisturbed call, with the clock at its three readings, is a
   run of the protocol that ends with the same reply and the same map.
   */
  lemma UndisturbedIsRun(s: State, t: nat, key: string, ttl: nat, verdict: Option<bool>, first: int, second: int,
                         third: int)
    returns (steps: seq<Step>, s': State)
    requires s.cap > 0 && !s.poisoned && t !in s.threads && LockIsFree(s, key) && s.now <= first <= second <= third
    ensures Runs(s, steps, s') && t in s'.threads && s'.threads[t].pc.Finished?
    ensures
      var (reply, cache) := AuthCache.Undisturbed(s.cache, s.cap, key, ttl, verdict, first, second, third);
      s'.cache == cache && Shows(s'.threads[t].pc.outcome, reply, s'.poisoned)
  {
    steps, s' := FirstCheck(s, t, key, ttl, first);
    if !s'.threads[t].pc.Finished? {
      steps, s' := SecondCheck(s, steps, s', t, key, ttl, first, second);
      if !s'.threads[t].pc.Finished? {
        steps, s' := Conclusion(s, steps, s', t, key, ttl, verdict, second, third);
      }
    }
  }
}
