/**
 The authorization cache under concurrency: any number of callers of `get_or_validate`, `insert` and
 `invalidate`, interleaved at every access to the map, the clock, the lock and the validator.

 A history records every change of the map and every run of the validator.  Single flight, soundness of
 the answers and the bound on the map are invariants over it.
 */
module AuthProtocol {
  import opened Text
  import opened Lru
  import AuthCache

  // ---------------------------------------------------------------- States

  /** How a call ends. */
  datatype Outcome =
    | Own(decision: bool)                    // this caller's own validator decided
    | Hit(decision: bool, readAt: int)       // a cached decision, found fresh at that time
    | Done                                   // insert or invalidate finished
    | Failure                                // the validator failed, the future was dropped, or a panic

  /** Where a caller is. */
  datatype Pc =
    | Begin                                          // before the first peek
    | Peeked(found: Option<Entry>)                   // before the clock is read
    | Missed                                         // before the lock of the key is looked up
    | Waiting                                        // has the lock's handle
    | Holding                                        // has the lock, before the second peek
    | PeekedAgain(found: Option<Entry>, mark: nat)   // `mark`: length of the history at that peek
    | Validating                                     // the validator is running
    | Verdict(decision: bool)                        // the validator has answered
    | Settled(outcome: Outcome)                      // the answer is known, the lock still held
    | Finished(outcome: Outcome)
    | InsertBegin(authorized: bool)
    | InsertReady(entry: Entry)                      // the clock has been read, the map not yet locked
    | InvalidateBegin

  datatype Thread = Thread(key: string, ttl: nat, pc: Pc)

  datatype State = State(
    cap: nat,
    threads: map<nat, Thread>,
    owner: map<string, Option<nat>>,   // the per-key locks created so far, and who holds them
    cache: Cache,
    poisoned: bool,                    // a panic while the map was locked for writing
    now: int,
    history: History)

  predicate HoldsLock(pc: Pc) {
    pc.Holding? || pc.PeekedAgain? || pc.Validating? || pc.Verdict? || pc.Settled?
  }

  function Initial(capacity: nat, now: int): State {
    State(AuthCache.EffectiveCapacity(capacity), map[], map[], EMPTY, false, now, [])
  }

  // ---------------------------------------------------------------- Steps

  datatype Step =
    | Tick(later: int)
    | Spawn(t: nat, thread: Thread)
    | Act(t: nat)                        // the caller's next action
    | Answer(t: nat, verdict: Option<bool>)   // its validator returns; None is an error
    | Cancel(t: nat)                     // its future is dropped at an await point

  predicate Startable(pc: Pc) {
    pc.Begin? || pc.InsertBegin? || pc.InvalidateBegin?
  }

  predicate Enabled(s: State, step: Step) {
    match step
    case Tick(later) => later >= s.now
    case Spawn(t, thread) => t !in s.threads && Startable(thread.pc)
    case Act(t) =>
      t in s.threads && (
        var th := s.threads[t];
        match th.pc
        case Validating => false
        case Finished(_) => false
        case Waiting => th.key in s.owner && s.owner[th.key] == None
        case _ => true)
    case Answer(t, _) => t in s.threads && s.threads[t].pc.Validating?
    case Cancel(t) => t in s.threads && (s.threads[t].pc.Waiting? || s.threads[t].pc.Validating?)
  }

  function Goto(s: State, t: nat, pc: Pc): State
    requires t in s.threads
  {
    s.(threads := s.threads[t := s.threads[t].(pc := pc)])
  }

  function Record(s: State, e: Event): State
    requires s.cap > 0
  {
    s.(cache := Effect(s.cache, s.cap, e), history := s.history + [e])
  }

  /** The event by which thread t stores its verdict now. */
  function VerdictEvent(s: State, t: nat): Event
    requires t in s.threads && s.threads[t].pc.Verdict?
  {
    var th := s.threads[t];
    Stored(th.key, Entry(th.pc.decision, s.now + th.ttl), s.now, th.ttl, Some(t))
  }

  function InsertEvent(s: State, t: nat): Event
    requires t in s.threads && s.threads[t].pc.InsertReady?
  {
    Stored(s.threads[t].key, s.threads[t].pc.entry, s.now, s.threads[t].ttl, None)
  }

  /** The next action of a caller, one access to shared data at a time. */
  function Action(s: State, t: nat): State
    requires s.cap > 0 && Enabled(s, Act(t))
  {
    var th := s.threads[t];
    match th.pc
    case Begin => if s.poisoned then Goto(s, t, Finished(Failure)) else Goto(s, t, Peeked(Peek(s.cache, th.key)))
    case Peeked(found) =>
      if AuthCache.Fresh(found, s.now) then Goto(s, t, Finished(Hit(found.value.authorized, s.now)))
      else Goto(s, t, Missed)
    case Missed =>
      Goto(if th.key in s.owner then s else s.(owner := s.owner[th.key := None]), t, Waiting)
    case Waiting => Goto(s.(owner := s.owner[th.key := Some(t)]), t, Holding)
    case Holding =>
      if s.poisoned then Goto(s, t, Settled(Failure))
      else Goto(s, t, PeekedAgain(Peek(s.cache, th.key), |s.history|))
    case PeekedAgain(found, _) =>
      if AuthCache.Fresh(found, s.now) then Goto(s, t, Settled(Hit(found.value.authorized, s.now)))
      else Goto(Record(s, ValidatorRun(th.key, t, s.now)), t, Validating)
    case Verdict(decision) =>
      if s.poisoned then Goto(s, t, Settled(Failure))
      else if AuthCache.Expiry(s.now, th.ttl).None? then Goto(s.(poisoned := true), t, Settled(Failure))
      else Goto(Record(s, VerdictEvent(s, t)), t, Settled(Own(decision)))
    case Settled(outcome) => Goto(s.(owner := s.owner[th.key := None]), t, Finished(outcome))
    case InsertBegin(authorized) =>
      if AuthCache.Expiry(s.now, th.ttl).None? then Goto(s, t, Finished(Failure))
      else Goto(s, t, InsertReady(Entry(authorized, s.now + th.ttl)))
    case InsertReady(entry) =>
      if s.poisoned then Goto(s, t, Finished(Failure)) else Goto(Record(s, InsertEvent(s, t)), t, Finished(Done))
    case InvalidateBegin =>
      if s.poisoned then Goto(s, t, Finished(Failure)) else Goto(Record(s, Dropped(th.key)), t, Finished(Done))
    case _ => s
  }

  function Next(s: State, step: Step): State
    requires s.cap > 0 && Enabled(s, step)
  {
    match step
    case Tick(later) => s.(now := later)
    case Spawn(t, thread) => s.(threads := s.threads[t := thread])
    case Act(t) => Action(s, t)
    case Answer(t, verdict) =>
      if verdict.Some? then Goto(s, t, Verdict(verdict.value)) else Goto(s, t, Settled(Failure))
    case Cancel(t) => if s.threads[t].pc.Waiting? then Goto(s, t, Finished(Failure)) else Goto(s, t, Settled(Failure))
  }

  /** `steps` leads from s to s', every step being possible where it is taken. */
  ghost predicate Runs(s: State, steps: seq<Step>, s': State)
    decreases |steps|
  {
    if steps == [] then s' == s
    else s.cap > 0 && Enabled(s, steps[0]) && Runs(Next(s, steps[0]), steps[1..], s')
  }

  // ---------------------------------------------------------------- The invariant

  /** A lock is held by exactly the caller that is between its acquisition and its release. */
  ghost predicate LockInv(s: State) {
    && (forall t :: t in s.threads && HoldsLock(s.threads[t].pc) ==>
          s.threads[t].key in s.owner && s.owner[s.threads[t].key] == Some(t))
    && (forall k :: k in s.owner && s.owner[k].Some? ==>
          var t := s.owner[k].value;
          t in s.threads && s.threads[t].key == k && HoldsLock(s.threads[t].pc))
  }

  /** The map is what the recorded history makes of it, and no recorded event lies in the future. */
  ghost predicate CacheInv(s: State) {
    && s.cap > 0
    && s.cache == Replay(s.cap, s.history)
    && (forall i :: 0 <= i < |s.history| ==> EventInv(s.history[i], s.now))
  }

  /** A stored entry expires no later than its ttl after the time it was stored. */
  predicate EventInv(e: Event, now: int) {
    match e
    case Stored(_, entry, at, ttl, author) =>
      at <= now && entry.expiresAt <= at + ttl && (author.Some? ==> entry.expiresAt == at + ttl)
    case Dropped(_) => true
    case ValidatorRun(_, _, at) => at <= now
  }

  /** Some earlier event stored this entry for the key. */
  ghost predicate WasStored(h: History, k: string, e: Entry) {
    exists i :: 0 <= i < |h| && h[i].Stored? && h[i].key == k && h[i].entry == e
  }

  /** The decision was stored for the key no later than the read, and had not expired by then. */
  ghost predicate StoredBefore(h: History, k: string, d: bool, readAt: int) {
    exists i :: 0 <= i < |h| && h[i].Stored? && h[i].key == k && h[i].entry.authorized == d
      && h[i].at <= readAt < h[i].entry.expiresAt
  }

  /** A decision given to a caller comes from its own validator, or from a fresh entry stored before for its key. */
  ghost predicate Justified(h: History, t: nat, k: string, outcome: Outcome) {
    match outcome
    case Own(d) =>
      exists i :: 0 <= i < |h| && h[i].Stored? && h[i].key == k && h[i].author == Some(t) && h[i].entry.authorized == d
    case Hit(d, readAt) => StoredBefore(h, k, d, readAt)
    case Done => true
    case Failure => true
  }

  /** No validator has stored for the key at or after the mark. */
  predicate QuietSince(h: History, k: string, mark: nat) {
    forall i :: mark <= i < |h| && h[i].Stored? && h[i].key == k ==> h[i].author.None?
  }

  ghost predicate ThreadInv(s: State, t: nat)
    requires s.cap > 0 && t in s.threads
  {
    var th := s.threads[t];
    match th.pc
    case Peeked(found) => found.Some? ==> WasStored(s.history, th.key, found.value)
    case PeekedAgain(found, mark) =>
      && mark <= |s.history|
      && found == Peek(Replay(s.cap, s.history[..mark]), th.key)
      && QuietSince(s.history, th.key, mark)
      && (found.Some? ==> WasStored(s.history, th.key, found.value))
    case Settled(outcome) => Justified(s.history, t, th.key, outcome)
    case Finished(outcome) => Justified(s.history, t, th.key, outcome)
    case InsertReady(entry) => entry.expiresAt <= s.now + th.ttl
    case _ => true
  }

  /** Between a validator's store at i and a later validator run at j the cached decision had ended. */
  ghost predicate Separated(h: History, cap: nat, i: nat, j: nat)
    requires i < j < |h|
  {
    exists l ::
      && i <= l < j && Touches(h[l], h[j].key)
      && Ended(h, cap, l, j)
  }

  /** The event at l left nothing fresh for the run at j: dropped, expired, or crowded out by `cap` other keys. */
  predicate Ended(h: History, cap: nat, l: nat, j: nat)
    requires l < j < |h|
  {
    || h[l].Dropped?
    || (h[l].Stored? && h[j].ValidatorRun? && h[l].entry.expiresAt <= h[j].at)
    || (h[l].Stored? && |StoredOthers(h[..j], l + 1, h[l].key)| >= cap)
  }

  ghost predicate FlightInv(h: History, cap: nat) {
    forall i, j :: 0 <= i < j < |h| && ValidatorStored(h[i]) && h[j].ValidatorRun? && h[j].key == h[i].key
      ==> Separated(h, cap, i, j)
  }

  predicate ValidatorStored(e: Event) {
    e.Stored? && e.author.Some?
  }

  ghost predicate Inv(s: State) {
    && LockInv(s)
    && CacheInv(s)
    && (forall t :: t in s.threads ==> ThreadInv(s, t))
    && FlightInv(s.history, s.cap)
  }

  // ---------------------------------------------------------------- History only grows

  lemma WasStoredGrows(h: History, e: Event, k: string, entry: Entry)
    requires WasStored(h, k, entry)
    ensures WasStored(h + [e], k, entry)
  {
    var i :| 0 <= i < |h| && h[i].Stored? && h[i].key == k && h[i].entry == entry;
    assert (h + [e])[i] == h[i];
  }

  lemma JustifiedGrows(h: History, e: Event, t: nat, k: string, outcome: Outcome)
    requires Justified(h, t, k, outcome)
    ensures Justified(h + [e], t, k, outcome)
  {
    match outcome {
      case Own(d) =>
        var i :| 0 <= i < |h| && h[i].Stored? && h[i].key == k && h[i].author == Some(t) && h[i].entry.authorized == d;
        assert (h + [e])[i] == h[i];
      case Hit(d, readAt) =>
        var i :| 0 <= i < |h| && h[i].Stored? && h[i].key == k && h[i].entry.authorized == d
          && h[i].at <= readAt < h[i].entry.expiresAt;
        assert (h + [e])[i] == h[i];
      case _ =>
    }
  }

  /** At the moment of the read every recorded store lies in the past. */
  lemma ReadComesAfterStore(s: State, k: string, e: Entry)
    requires CacheInv(s) && WasStored(s.history, k, e) && s.now < e.expiresAt
    ensures StoredBefore(s.history, k, e.authorized, s.now)
  {
    var i :| 0 <= i < |s.history| && s.history[i].Stored? && s.history[i].key == k && s.history[i].entry == e;
    assert EventInv(s.history[i], s.now);
  }

  /** What is found in the map was stored for that key. */
  lemma FoundWasStored(cap: nat, h: History, k: string)
    requires cap > 0 && Peek(Replay(cap, h), k).Some?
    ensures WasStored(h, k, Peek(Replay(cap, h), k).value)
  {
    ReplayExplained(cap, h, k);
  }

  /** An event that no validator of the key records leaves every other caller's knowledge intact. */
  lemma ThreadInvGrows(s: State, e: Event, t: nat)
    requires s.cap > 0 && t in s.threads && ThreadInv(s, t)
    requires s.threads[t].pc.PeekedAgain? ==> !(ValidatorStored(e) && e.key == s.threads[t].key)
    ensures ThreadInv(Record(s, e), t)
  {
    var th := s.threads[t];
    var h, h' := s.history, s.history + [e];
    match th.pc {
      case Peeked(found) =>
        if found.Some? { WasStoredGrows(h, e, th.key, found.value); }
      case PeekedAgain(found, mark) =>
        assert h'[..mark] == h[..mark];
        if found.Some? { WasStoredGrows(h, e, th.key, found.value); }
      case Settled(outcome) => JustifiedGrows(h, e, t, th.key, outcome);
      case Finished(outcome) => JustifiedGrows(h, e, t, th.key, outcome);
      case _ =>
    }
  }

  lemma CacheInvGrows(s: State, e: Event)
    requires CacheInv(s) && EventInv(e, s.now)
    ensures CacheInv(Record(s, e))
  {
    ReplayAppend(s.cap, s.history, e);
  }

  lemma SeparatedGrows(h: History, e: Event, cap: nat, i: nat, j: nat)
    requires i < j < |h| && Separated(h, cap, i, j)
    ensures Separated(h + [e], cap, i, j)
  {
    var l :| i <= l < j && Touches(h[l], h[j].key) && Ended(h, cap, l, j);
    assert (h + [e])[..j] == h[..j];
    assert Ended(h + [e], cap, l, j);
  }

  lemma FlightInvGrows(h: History, e: Event, cap: nat)
    requires FlightInv(h, cap)
    requires e.ValidatorRun? ==>
      forall i :: 0 <= i < |h| && ValidatorStored(h[i]) && h[i].key == e.key ==> Separated(h + [e], cap, i, |h|)
    ensures FlightInv(h + [e], cap)
  {
    var h' := h + [e];
    forall i, j | 0 <= i < j < |h'| && ValidatorStored(h'[i]) && h'[j].ValidatorRun? && h'[j].key == h'[i].key
      ensures Separated(h', cap, i, j)
    {
      if j < |h| {
        SeparatedGrows(h, e, cap, i, j);
      }
    }
  }

  lemma {:induction false} StoredOthersPrefix(h: History, n: nat, from: nat, k: string)
    requires n <= |h|
    ensures StoredOthers(h[..n], from, k) <= StoredOthers(h, from, k)
  {
    if n < |h| {
      StoredOthersPrefix(h[..|h| - 1], n, from, k);
      assert h[..|h| - 1][..n] == h[..n];
    } else {
      assert h[..n] == h;
    }
  }

  lemma PrefixOfAppend(h: History, e: Event)
    ensures (h + [e])[..|h|] == h
  {
  }

  /** Keys stored up to a point are still among those stored up to a later one. */
  lemma OthersStay(seen: History, later: History, from: nat, k: string)
    requires |seen| <= |later| && later[..|seen|] == seen
    ensures |StoredOthers(seen, from, k)| <= |StoredOthers(later, from, k)|
  {
    StoredOthersPrefix(later, |seen|, from, k);
    SubsetSize(StoredOthers(seen, from, k), StoredOthers(later, from, k));
  }

  lemma CrowdedThen(cap: nat, seen: History, k: string, l: nat)
    requires cap > 0 && l == LastTouch(seen, k) && seen[l].Stored? && k !in Replay(cap, seen).entries
    ensures |StoredOthers(seen, l + 1, k)| >= cap
  {
    GoneMeansCrowdedOut(cap, seen, k);
  }

  lemma CrowdedOut(cap: nat, seen: History, later: History, k: string, l: nat)
    requires cap > 0 && |seen| <= |later| && later[..|seen|] == seen
    requires l == LastTouch(seen, k) && seen[l].Stored? && k !in Replay(cap, seen).entries
    ensures |StoredOthers(later, l + 1, k)| >= cap
  {
    CrowdedThen(cap, seen, k, l);
    OthersStay(seen, later, l + 1, k);
  }

  lemma ExpiredWhenFound(cap: nat, seen: History, k: string, l: nat, now: int)
    requires cap > 0 && l == LastTouch(seen, k) && seen[l].Stored? && k in Replay(cap, seen).entries
    requires !AuthCache.Fresh(Peek(Replay(cap, seen), k), now)
    ensures seen[l].entry.expiresAt <= now
  {
    GoneMeansCrowdedOut(cap, seen, k);
  }

  /** A key that was not found fresh: its last event has ended, for a validator run that follows. */
  lemma StalePeekEnds(cap: nat, seen: History, h: History, e: Event, k: string, l: nat)
    requires cap > 0 && |seen| <= |h| && h[..|seen|] == seen && l == LastTouch(seen, k) && e.ValidatorRun?
    requires !AuthCache.Fresh(Peek(Replay(cap, seen), k), e.at)
    ensures Ended(h + [e], cap, l, |h|)
  {
    var h' := h + [e];
    PrefixOfAppend(h, e);
    assert seen[l] == h'[l] && h'[|h|] == e;
    if seen[l].Stored? {
      if k in Replay(cap, seen).entries {
        ExpiredWhenFound(cap, seen, k, l, e.at);
      } else {
        CrowdedOut(cap, seen, h'[..|h|], k, l);
      }
    }
  }

  /** The second check has failed: whatever a validator stored before the peek had ended by now. */
  lemma NewRunIsSeparated(s: State, t: nat, i: nat)
    requires CacheInv(s) && t in s.threads && s.threads[t].pc.PeekedAgain? && ThreadInv(s, t)
    requires !AuthCache.Fresh(s.threads[t].pc.found, s.now)
    requires i < |s.history| && ValidatorStored(s.history[i]) && s.history[i].key == s.threads[t].key
    ensures Separated(s.history + [ValidatorRun(s.threads[t].key, t, s.now)], s.cap, i, |s.history|)
  {
    var k, mark := s.threads[t].key, s.threads[t].pc.mark;
    var h, seen := s.history, s.history[..mark];
    var h' := h + [ValidatorRun(k, t, s.now)];
    assert i < mark && seen[i] == h[i];
    var l := LastTouch(seen, k);
    assert i <= l && seen[l] == h[l] == h'[l];
    StalePeekEnds(s.cap, seen, h, ValidatorRun(k, t, s.now), k, l);
    assert Ended(h', s.cap, l, |h|);
  }

  // ---------------------------------------------------------------- Each step keeps the invariant

  /** The threads of s' are those of s except t, and s' knows at least as much. */
  ghost predicate OnlyMoves(s: State, s': State, t: nat) {
    && t in s.threads
    && s'.threads.Keys == s.threads.Keys
    && s'.threads[t].key == s.threads[t].key && s'.threads[t].ttl == s.threads[t].ttl
    && (forall u :: u in s.threads && u != t ==> s'.threads[u] == s.threads[u])
  }

  /** Moving a caller without touching the locks. */
  lemma LockKept(s: State, t: nat, s': State)
    requires LockInv(s) && OnlyMoves(s, s', t) && s'.owner == s.owner
    requires HoldsLock(s'.threads[t].pc) == HoldsLock(s.threads[t].pc)
    ensures LockInv(s')
  {
  }

  lemma LockTaken(s: State, t: nat, s': State)
    requires LockInv(s) && OnlyMoves(s, s', t) && !HoldsLock(s.threads[t].pc) && HoldsLock(s'.threads[t].pc)
    requires s.threads[t].key in s.owner && s.owner[s.threads[t].key] == None
    requires s'.owner == s.owner[s.threads[t].key := Some(t)]
    ensures LockInv(s')
  {
  }

  lemma LockReleased(s: State, t: nat, s': State)
    requires LockInv(s) && OnlyMoves(s, s', t) && HoldsLock(s.threads[t].pc) && !HoldsLock(s'.threads[t].pc)
    requires s'.owner == s.owner[s.threads[t].key := None]
    ensures LockInv(s')
  {
  }

  lemma LockCreated(s: State, t: nat, s': State)
    requires LockInv(s) && OnlyMoves(s, s', t) && !HoldsLock(s.threads[t].pc) && !HoldsLock(s'.threads[t].pc)
    requires s'.owner == s.owner || (s.threads[t].key !in s.owner && s'.owner == s.owner[s.threads[t].key := None])
    ensures LockInv(s')
  {
  }

  lemma ActionMovesOne(s: State, t: nat)
    requires s.cap > 0 && Enabled(s, Act(t))
    ensures OnlyMoves(s, Action(s, t), t)
  {
  }

  lemma ActionOwner(s: State, t: nat)
    requires s.cap > 0 && Enabled(s, Act(t))
    ensures
      var th, s' := s.threads[t], Action(s, t);
      && HoldsLock(s'.threads[t].pc) == (th.pc.Waiting? || (HoldsLock(th.pc) && !th.pc.Settled?))
      && s'.owner ==
         if th.pc.Waiting? then s.owner[th.key := Some(t)]
         else if th.pc.Settled? || (th.pc.Missed? && th.key !in s.owner) then s.owner[th.key := None]
         else s.owner
  {
  }

  lemma ActionKeepsLocks(s: State, t: nat)
    requires s.cap > 0 && LockInv(s) && Enabled(s, Act(t))
    ensures LockInv(Action(s, t)) && OnlyMoves(s, Action(s, t), t)
  {
    ActionMovesOne(s, t);
    ActionOwner(s, t);
    var pc, s' := s.threads[t].pc, Action(s, t);
    if pc.Missed? {
      LockCreated(s, t, s');
    } else if pc.Waiting? {
      LockTaken(s, t, s');
    } else if pc.Settled? {
      LockReleased(s, t, s');
    } else {
      LockKept(s, t, s');
    }
  }

  /** A caller other than t keeps what it knows when nothing is recorded. */
  lemma QuietKeeps(s: State, s': State, t: nat)
    requires Inv(s) && OnlyMoves(s, s', t)
    requires s'.cap == s.cap && s'.history == s.history && s'.cache == s.cache && s'.now == s.now
    requires ThreadInv(s', t)
    ensures CacheInv(s') && (forall u :: u in s'.threads ==> ThreadInv(s', u)) && FlightInv(s'.history, s'.cap)
  {
    forall u | u in s'.threads ensures ThreadInv(s', u) {
      if u != t { assert ThreadInv(s, u); }
    }
  }

  /** A caller that holds the lock of its key is the only one between its second peek and its store. */
  lemma OthersStayQuiet(s: State, t: nat, u: nat)
    requires LockInv(s) && t in s.threads && u in s.threads && t != u && HoldsLock(s.threads[t].pc)
    ensures s.threads[u].pc.PeekedAgain? ==> s.threads[u].key != s.threads[t].key
  {
  }

  /** Recording an event and moving its caller. */
  lemma RecordKeeps(s: State, e: Event, t: nat, pc: Pc)
    requires Inv(s) && t in s.threads && EventInv(e, s.now)
    requires ThreadInv(Goto(Record(s, e), t, pc), t)
    requires ValidatorStored(e) ==> e.key == s.threads[t].key && HoldsLock(s.threads[t].pc)
    requires e.ValidatorRun? ==>
      forall i :: 0 <= i < |s.history| && ValidatorStored(s.history[i]) && s.history[i].key == e.key ==>
        Separated(s.history + [e], s.cap, i, |s.history|)
    ensures
      var s' := Goto(Record(s, e), t, pc);
      CacheInv(s') && (forall u :: u in s'.threads ==> ThreadInv(s', u)) && FlightInv(s'.history, s'.cap)
  {
    var s' := Goto(Record(s, e), t, pc);
    CacheInvGrows(s, e);
    FlightInvGrows(s.history, e, s.cap);
    forall u | u in s'.threads ensures ThreadInv(s', u) {
      if u != t {
        if ValidatorStored(e) { OthersStayQuiet(s, t, u); }
        ThreadInvGrows(s, e, u);
      }
    }
  }

  lemma PeekedAgainKeeps(s: State, t: nat)
    requires Inv(s) && Enabled(s, Act(t)) && s.threads[t].pc.PeekedAgain?
    ensures Inv(Action(s, t))
  {
    ActionKeepsLocks(s, t);
    var th := s.threads[t];
    assert ThreadInv(s, t);
    if AuthCache.Fresh(th.pc.found, s.now) {
      ReadComesAfterStore(s, th.key, th.pc.found.value);
      QuietKeeps(s, Action(s, t), t);
    } else {
      var e := ValidatorRun(th.key, t, s.now);
      forall i | 0 <= i < |s.history| && ValidatorStored(s.history[i]) && s.history[i].key == e.key
        ensures Separated(s.history + [e], s.cap, i, |s.history|)
      {
        NewRunIsSeparated(s, t, i);
      }
      RecordKeeps(s, e, t, Validating);
    }
  }

  lemma VerdictKeeps(s: State, t: nat)
    requires Inv(s) && Enabled(s, Act(t)) && s.threads[t].pc.Verdict?
    ensures Inv(Action(s, t))
  {
    ActionKeepsLocks(s, t);
    var th := s.threads[t];
    if s.poisoned || AuthCache.Expiry(s.now, th.ttl).None? {
      QuietKeeps(s, Action(s, t), t);
    } else {
      var e := VerdictEvent(s, t);
      var h' := s.history + [e];
      assert h'[|s.history|] == e;
      assert Justified(h', t, th.key, Own(th.pc.decision));
      RecordKeeps(s, e, t, Settled(Own(th.pc.decision)));
    }
  }

  lemma InsertReadyKeeps(s: State, t: nat)
    requires Inv(s) && Enabled(s, Act(t)) && s.threads[t].pc.InsertReady?
    ensures Inv(Action(s, t))
  {
    ActionKeepsLocks(s, t);
    assert ThreadInv(s, t);
    if s.poisoned {
      QuietKeeps(s, Action(s, t), t);
    } else {
      RecordKeeps(s, InsertEvent(s, t), t, Finished(Done));
    }
  }

  lemma InvalidateKeeps(s: State, t: nat)
    requires Inv(s) && Enabled(s, Act(t)) && s.threads[t].pc.InvalidateBegin?
    ensures Inv(Action(s, t))
  {
    ActionKeepsLocks(s, t);
    if s.poisoned {
      QuietKeeps(s, Action(s, t), t);
    } else {
      RecordKeeps(s, Dropped(s.threads[t].key), t, Finished(Done));
    }
  }

  lemma PeekKeeps(s: State, t: nat)
    requires Inv(s) && Enabled(s, Act(t)) && (s.threads[t].pc.Begin? || s.threads[t].pc.Holding?)
    ensures Inv(Action(s, t))
  {
    ActionKeepsLocks(s, t);
    var k := s.threads[t].key;
    if k in s.cache.entries { FoundWasStored(s.cap, s.history, k); }
    assert s.history[..|s.history|] == s.history;
    QuietKeeps(s, Action(s, t), t);
  }

  lemma OtherActionKeeps(s: State, t: nat)
    requires Inv(s) && Enabled(s, Act(t))
    requires
      var pc := s.threads[t].pc;
      pc.Missed? || pc.Waiting? || pc.Settled? || pc.InsertBegin?
    ensures Inv(Action(s, t))
  {
    ActionKeepsLocks(s, t);
    assert ThreadInv(s, t);
    QuietKeeps(s, Action(s, t), t);
  }

  lemma PeekedKeeps(s: State, t: nat)
    requires Inv(s) && Enabled(s, Act(t)) && s.threads[t].pc.Peeked?
    ensures Inv(Action(s, t))
  {
    ActionKeepsLocks(s, t);
    var th := s.threads[t];
    assert ThreadInv(s, t);
    if AuthCache.Fresh(th.pc.found, s.now) { ReadComesAfterStore(s, th.key, th.pc.found.value); }
    QuietKeeps(s, Action(s, t), t);
  }

  lemma ActionKeeps(s: State, t: nat)
    requires Inv(s) && Enabled(s, Act(t))
    ensures Inv(Action(s, t))
  {
    match s.threads[t].pc {
      case Begin => PeekKeeps(s, t);
      case Holding => PeekKeeps(s, t);
      case Peeked(_) => PeekedKeeps(s, t);
      case PeekedAgain(_, _) => PeekedAgainKeeps(s, t);
      case Verdict(_) => VerdictKeeps(s, t);
      case InsertReady(_) => InsertReadyKeeps(s, t);
      case InvalidateBegin => InvalidateKeeps(s, t);
      case _ => OtherActionKeeps(s, t);
    }
  }

  lemma TickKeeps(s: State, later: int)
    requires Inv(s) && later >= s.now
    ensures Inv(s.(now := later))
  {
    var s' := s.(now := later);
    forall u | u in s'.threads ensures ThreadInv(s', u) {
      assert ThreadInv(s, u);
    }
  }

  lemma SpawnKeeps(s: State, t: nat, thread: Thread)
    requires Inv(s) && Enabled(s, Spawn(t, thread))
    ensures Inv(Next(s, Spawn(t, thread)))
  {
    var s' := Next(s, Spawn(t, thread));
    forall u | u in s'.threads ensures ThreadInv(s', u) {
      if u != t { assert ThreadInv(s, u); }
    }
  }

  lemma AnswerKeeps(s: State, t: nat, verdict: Option<bool>)
    requires Inv(s) && Enabled(s, Answer(t, verdict))
    ensures Inv(Next(s, Answer(t, verdict)))
  {
    var s' := Next(s, Answer(t, verdict));
    LockKept(s, t, s');
    QuietKeeps(s, s', t);
  }

  lemma CancelKeeps(s: State, t: nat)
    requires Inv(s) && Enabled(s, Cancel(t))
    ensures Inv(Next(s, Cancel(t)))
  {
    var s' := Next(s, Cancel(t));
    LockKept(s, t, s');
    QuietKeeps(s, s', t);
  }

  /** Every step of every caller keeps the invariant. */
  lemma NextKeeps(s: State, step: Step)
    requires Inv(s) && Enabled(s, step)
    ensures Inv(Next(s, step)) && Next(s, step).cap == s.cap
  {
    match step {
      case Tick(later) => TickKeeps(s, later);
      case Spawn(t, thread) => SpawnKeeps(s, t, thread);
      case Act(t) => ActionKeeps(s, t);
      case Answer(t, verdict) => AnswerKeeps(s, t, verdict);
      case Cancel(t) => CancelKeeps(s, t);
    }
  }

  lemma {:induction false} RunKeeps(s: State, steps: seq<Step>, s': State)
    requires Inv(s) && Runs(s, steps, s')
    ensures Inv(s') && s'.cap == s.cap
    decreases |steps|
  {
    if steps != [] {
      NextKeeps(s, steps[0]);
      RunKeeps(Next(s, steps[0]), steps[1..], s');
    }
  }

  /** s' can be reached from an empty cache. */
  ghost predicate Reachable(capacity: nat, s': State) {
    exists now: int, steps: seq<Step> :: Runs(Initial(capacity, now), steps, s')
  }

  lemma ReachableInv(capacity: nat, s: State)
    requires Reachable(capacity, s)
    ensures Inv(s) && s.cap == AuthCache.EffectiveCapacity(capacity)
  {
    var now: int, steps: seq<Step> :| Runs(Initial(capacity, now), steps, s);
    RunKeeps(Initial(capacity, now), steps, s);
  }

  // ---------------------------------------------------------------- Results

  /** Single flight: no two callers of one key are between acquiring the lock and releasing it. */
  lemma SingleFlight(capacity: nat, s: State, t: nat, u: nat)
    requires Reachable(capacity, s) && t in s.threads && u in s.threads && s.threads[t].key == s.threads[u].key
    requires HoldsLock(s.threads[t].pc) && HoldsLock(s.threads[u].pc)
    ensures t == u
  {
    ReachableInv(capacity, s);
  }

  /**
   No stampede: when a validator of a key runs after a validator's verdict for it was stored at i, then some
   event of the key in between, the store at i or a later one, had come to an end by then: the key was
   dropped, or the entry had expired, or as many distinct other keys as the map holds were stored since.
   */
  lemma NoStampede(capacity: nat, s: State, i: nat, j: nat)
    requires Reachable(capacity, s) && i < j < |s.history|
    requires ValidatorStored(s.history[i]) && s.history[j].ValidatorRun? && s.history[j].key == s.history[i].key
    ensures
      exists l :: i <= l < j && Touches(s.history[l], s.history[i].key) && (
        || s.history[l].Dropped?
        || (s.history[l].Stored? && s.history[l].entry.expiresAt <= s.history[j].at)
        || (s.history[l].Stored?
            && |StoredOthers(s.history[..j], l + 1, s.history[i].key)| >= AuthCache.EffectiveCapacity(capacity)))
  {
    ReachableInv(capacity, s);
    assert Separated(s.history, s.cap, i, j);
    var l :| i <= l < j && Touches(s.history[l], s.history[j].key) && Ended(s.history, s.cap, l, j);
  }

  /** When the key was neither stored nor dropped in between, the verdict itself had expired or been crowded out. */
  lemma NoStampedeUntouched(capacity: nat, s: State, i: nat, j: nat)
    requires Reachable(capacity, s) && i < j < |s.history|
    requires ValidatorStored(s.history[i]) && s.history[j].ValidatorRun? && s.history[j].key == s.history[i].key
    requires forall l :: i < l < j ==> !Touches(s.history[l], s.history[i].key)
    ensures
      || s.history[i].entry.expiresAt <= s.history[j].at
      || |StoredOthers(s.history[..j], i + 1, s.history[i].key)| >= AuthCache.EffectiveCapacity(capacity)
  {
    NoStampede(capacity, s, i, j);
  }

  /**
   Soundness: a decision returned to a caller is its own validator's verdict, or one stored for the same key
   no later than it was read, and read before its expiry and before the time of that store plus its ttl.
   */
  lemma AnswersAreJustified(capacity: nat, s: State, t: nat)
    requires Reachable(capacity, s) && t in s.threads && s.threads[t].pc.Finished?
    ensures
      match s.threads[t].pc.outcome
      case Own(d) =>
        exists i :: 0 <= i < |s.history| && s.history[i].Stored? && s.history[i].key == s.threads[t].key
                    && s.history[i].author == Some(t) && s.history[i].entry.authorized == d
      case Hit(d, readAt) =>
        exists i :: 0 <= i < |s.history| && s.history[i].Stored? && s.history[i].key == s.threads[t].key
                    && s.history[i].entry.authorized == d && s.history[i].at <= readAt < s.history[i].entry.expiresAt
                    && readAt < s.history[i].at + s.history[i].ttl
      case Done => true
      case Failure => true
  {
    ReachableInv(capacity, s);
    assert ThreadInv(s, t);
    if s.threads[t].pc.outcome.Hit? {
      var h, k := s.history, s.threads[t].key;
      var d, readAt := s.threads[t].pc.outcome.decision, s.threads[t].pc.outcome.readAt;
      assert StoredBefore(h, k, d, readAt);
      var i :| 0 <= i < |h| && h[i].Stored? && h[i].key == k && h[i].entry.authorized == d
        && h[i].at <= readAt < h[i].entry.expiresAt;
      assert EventInv(h[i], s.now);
    }
  }

  /** The map never holds more entries than its capacity, in any reachable state. */
  lemma MapIsBounded(capacity: nat, s: State)
    requires Reachable(capacity, s)
    ensures |s.cache.entries| <= AuthCache.EffectiveCapacity(capacity)
  {
    ReachableInv(capacity, s);
    SizeIsBounded(s.cap, s.history);
  }

  /** In a reachable state whose history has no invalidation, the map holds exactly the most recently stored keys. */
  lemma MapHoldsMostRecent(capacity: nat, s: State, k: string)
    requires Reachable(capacity, s) && NoDrops(s.history)
    ensures k in s.cache.entries
        <==> LastTouch(s.history, k) >= 0 && |OthersSince(s.history, k)| < AuthCache.EffectiveCapacity(capacity)
    ensures k in s.cache.entries ==> s.cache.entries[k] == s.history[LastTouch(s.history, k)].entry
  {
    ReachableInv(capacity, s);
    ContentsAreMostRecent(s.cap, s.history, k);
  }

  // ---------------------------------------------------------------- Transparency

  /** The validators answer by a function of the key, and pre-populated decisions agree with it. */
  predicate FollowsPolicy(policy: string -> bool, s: State, step: Step)
    requires Enabled(s, step)
  {
    match step
    case Answer(t, verdict) => verdict.Some? ==> verdict.value == policy(s.threads[t].key)
    case Spawn(t, thread) => thread.pc.InsertBegin? ==> thread.pc.authorized == policy(thread.key)
    case _ => true
  }

  ghost predicate PolicyRuns(policy: string -> bool, s: State, steps: seq<Step>, s': State)
    decreases |steps|
  {
    if steps == [] then s' == s
    else
      && s.cap > 0 && Enabled(s, steps[0]) && FollowsPolicy(policy, s, steps[0])
      && PolicyRuns(policy, Next(s, steps[0]), steps[1..], s')
  }

  ghost predicate HistoryFollows(policy: string -> bool, h: History) {
    forall i :: 0 <= i < |h| && h[i].Stored? ==> h[i].entry.authorized == policy(h[i].key)
  }

  /** What a caller is about to store. */
  predicate ThreadFollows(policy: string -> bool, th: Thread) {
    match th.pc
    case Verdict(d) => d == policy(th.key)
    case InsertBegin(d) => d == policy(th.key)
    case InsertReady(entry) => entry.authorized == policy(th.key)
    case _ => true
  }

  ghost predicate PolicyInv(policy: string -> bool, s: State) {
    && HistoryFollows(policy, s.history)
    && (forall t :: t in s.threads ==> ThreadFollows(policy, s.threads[t]))
  }

  lemma HistoryFollowsGrows(policy: string -> bool, h: History, e: Event)
    requires HistoryFollows(policy, h) && (e.Stored? ==> e.entry.authorized == policy(e.key))
    ensures HistoryFollows(policy, h + [e])
  {
  }

  lemma ActionKeepsPolicy(policy: string -> bool, s: State, t: nat)
    requires s.cap > 0 && PolicyInv(policy, s) && Enabled(s, Act(t))
    ensures PolicyInv(policy, Action(s, t))
  {
    ActionMovesOne(s, t);
    var th := s.threads[t];
    assert ThreadFollows(policy, th);
    match th.pc {
      case PeekedAgain(_, _) => HistoryFollowsGrows(policy, s.history, ValidatorRun(th.key, t, s.now));
      case Verdict(_) => HistoryFollowsGrows(policy, s.history, VerdictEvent(s, t));
      case InsertReady(_) => HistoryFollowsGrows(policy, s.history, InsertEvent(s, t));
      case InvalidateBegin => HistoryFollowsGrows(policy, s.history, Dropped(th.key));
      case _ =>
    }
  }

  lemma NextKeepsPolicy(policy: string -> bool, s: State, step: Step)
    requires s.cap > 0 && PolicyInv(policy, s) && Enabled(s, step) && FollowsPolicy(policy, s, step)
    ensures PolicyInv(policy, Next(s, step))
  {
    if step.Act? { ActionKeepsPolicy(policy, s, step.t); }
  }

  lemma {:induction false} PolicyRunKeeps(policy: string -> bool, s: State, steps: seq<Step>, s': State)
    requires Inv(s) && PolicyInv(policy, s) && PolicyRuns(policy, s, steps, s')
    ensures Inv(s') && PolicyInv(policy, s')
    decreases |steps|
  {
    if steps != [] {
      NextKeeps(s, steps[0]);
      NextKeepsPolicy(policy, s, steps[0]);
      PolicyRunKeeps(policy, Next(s, steps[0]), steps[1..], s');
    }
  }

  /**
   The cache is transparent: if validators answer by a function of the key, every decision ever returned,
   from a validator or from the map, is that function's.
   */
  lemma CacheIsTransparent(policy: string -> bool, capacity: nat, now: int, steps: seq<Step>, s: State, t: nat)
    requires PolicyRuns(policy, Initial(capacity, now), steps, s) && t in s.threads && s.threads[t].pc.Finished?
    ensures
      match s.threads[t].pc.outcome
      case Own(d) => d == policy(s.threads[t].key)
      case Hit(d, _) => d == policy(s.threads[t].key)
      case Done => true
      case Failure => true
  {
    PolicyRunKeeps(policy, Initial(capacity, now), steps, s);
    assert ThreadInv(s, t);
  }
}
