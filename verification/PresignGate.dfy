/**
 The gate on presigned URLs: every use of a URL is counted and, in a separate step, the count is read and
 compared with the limit.  Requests on one URL may interleave between the two steps.
 */
module PresignGate {
  import opened Text
  import Hex

  const DEFAULT_LIMIT := 3

  function Limit(configured: Option<nat>): nat {
    if configured.Some? then configured.value else DEFAULT_LIMIT
  }

  /** `UrlTracker`. */
  class UrlTracker {
    var counts: map<string, nat>

    constructor ()
      ensures counts == map[]
    {
      counts := map[];
    }

    /** `track`: one more use of a URL, all others as before; the machine word wraps. */
    method Track(url: string)
      modifies this
      ensures counts == old(counts)[url := (Uses(old(counts), url) + 1) % Hex.WORD]
    {
      if url !in counts {
        counts := counts[url := 0];
      }
      counts := counts[url := (counts[url] + 1) % Hex.WORD];
    }

    /** `get`. */
    method Get(url: string) returns (n: Option<nat>)
      ensures n == if url in counts then Some(counts[url]) else None
    {
      n := if url in counts then Some(counts[url]) else None;
    }

    /** The front of `request_filter`, with nothing between its two steps. */
    method Admit(r: Request, configured: Option<nat>) returns (pass: bool)
      modifies this
      ensures counts
           == if r.presigned then old(counts)[r.url := (Uses(old(counts), r.url) + 1) % Hex.WORD] else old(counts)
      ensures pass <==> !r.presigned || (Uses(old(counts), r.url) + 1) % Hex.WORD <= Limit(configured)
    {
      if r.presigned {
        Track(r.url);
      }
      var n := Get(r.url);
      var tracked := if n.Some? then n.value else 0;
      var max := 3;
      if configured.Some? {
        max := configured.value;
      }
      pass := !(r.presigned && tracked > max);
    }
  }

  function Uses(counts: map<string, nat>, url: string): nat {
    if url in counts then counts[url] else 0
  }

  // ---------------------------------------------------------------- Interleavings

  datatype Request = Request(url: string, presigned: bool)

  /** The two steps of a request, named by its number. */
  datatype Event = Tracks(r: nat) | Checks(r: nat)

  /** Each step at most once, only presigned requests track, and a request tracks before it checks. */
  ghost predicate IsSchedule(reqs: seq<Request>, events: seq<Event>) {
    && (forall i :: 0 <= i < |events| ==> events[i].r < |reqs|)
    && (forall i, j :: 0 <= i < j < |events| ==> events[i] != events[j])
    && (forall i :: 0 <= i < |events| && events[i].Tracks? ==> reqs[events[i].r].presigned)
    && (forall i ::
          0 <= i < |events| && events[i].Checks? && reqs[events[i].r].presigned ==> Tracks(events[i].r) in events[..i])
  }

  /** The counters after some events. */
  function Counters(reqs: seq<Request>, events: seq<Event>): map<string, nat>
    requires forall i :: 0 <= i < |events| ==> events[i].r < |reqs|
  {
    if events == [] then map[]
    else
      var e := events[|events| - 1];
      var before := Counters(reqs, events[..|events| - 1]);
      if e.Tracks? then before[reqs[e.r].url := (Uses(before, reqs[e.r].url) + 1) % Hex.WORD] else before
  }

  /** What a check of a URL reads after some events. */
  function Counter(reqs: seq<Request>, events: seq<Event>, url: string): nat
    requires forall i :: 0 <= i < |events| ==> events[i].r < |reqs|
  {
    Uses(Counters(reqs, events), url)
  }

  /** How many uses of a URL there were. */
  function Count(reqs: seq<Request>, events: seq<Event>, url: string): nat
    requires forall i :: 0 <= i < |events| ==> events[i].r < |reqs|
  {
    if events == [] then 0
    else
      var e := events[|events| - 1];
      Count(reqs, events[..|events| - 1], url) + (if e.Tracks? && reqs[e.r].url == url then 1 else 0)
  }

  /** A URL's counter is the number of its uses, up to the machine word, whatever happens to other URLs. */
  lemma {:induction false} CounterCounts(reqs: seq<Request>, events: seq<Event>, url: string)
    requires forall i :: 0 <= i < |events| ==> events[i].r < |reqs|
    ensures Counter(reqs, events, url) == Count(reqs, events, url) % Hex.WORD
  {
    if events != [] {
      CounterCounts(reqs, events[..|events| - 1], url);
      NextInWord(Count(reqs, events[..|events| - 1], url));
    }
  }

  lemma NextInWord(n: nat)
    ensures (n % Hex.WORD + 1) % Hex.WORD == (n + 1) % Hex.WORD
  {
  }

  lemma {:induction false} CountOfFront(reqs: seq<Request>, events: seq<Event>, j: nat, url: string)
    requires (forall i :: 0 <= i < |events| ==> events[i].r < |reqs|) && j <= |events|
    ensures Count(reqs, events[..j], url) <= Count(reqs, events, url)
  {
    if j < |events| {
      CountOfFront(reqs, events[..|events| - 1], j, url);
      assert events[..|events| - 1][..j] == events[..j];
    } else {
      assert events[..j] == events;
    }
  }

  /** The presigned requests on a URL that were let through. */
  ghost function Passing(reqs: seq<Request>, events: seq<Event>, url: string, max: nat): set<nat>
    requires forall i :: 0 <= i < |events| ==> events[i].r < |reqs|
  {
    if events == [] then {}
    else
      var e := events[|events| - 1];
      var front := events[..|events| - 1];
      var before := Passing(reqs, front, url, max);
      if e.Checks? && reqs[e.r] == Request(url, true) && !(Counter(reqs, front, url) > max)
      then before + {e.r}
      else before
  }

  /** The first `max` presigned requests on a URL to be counted. */
  ghost function Early(reqs: seq<Request>, events: seq<Event>, url: string, max: nat): set<nat>
    requires forall i :: 0 <= i < |events| ==> events[i].r < |reqs|
  {
    if events == [] then {}
    else
      var e := events[|events| - 1];
      var front := events[..|events| - 1];
      var before := Early(reqs, front, url, max);
      if e.Tracks? && reqs[e.r].url == url && Count(reqs, front, url) < max then before + {e.r} else before
  }

  function Min(a: nat, b: nat): nat {
    if a < b then a else b
  }

  lemma ScheduleFront(reqs: seq<Request>, events: seq<Event>)
    requires IsSchedule(reqs, events) && events != []
    ensures IsSchedule(reqs, events[..|events| - 1])
    ensures events[|events| - 1] !in events[..|events| - 1]
  {
    var front := events[..|events| - 1];
    forall i | 0 <= i < |front| && front[i].Checks? && reqs[front[i].r].presigned
      ensures Tracks(front[i].r) in front[..i]
    {
      assert front[..i] == events[..i];
    }
  }

  lemma {:induction false} EarlyAreTracked(reqs: seq<Request>, events: seq<Event>, url: string, max: nat, r: nat)
    requires IsSchedule(reqs, events) && r in Early(reqs, events, url, max)
    ensures Tracks(r) in events && r < |reqs| && reqs[r].url == url
  {
    ScheduleFront(reqs, events);
    var front := events[..|events| - 1];
    if r in Early(reqs, front, url, max) { EarlyAreTracked(reqs, front, url, max, r); }
  }

  /** As many requests are early as were counted, up to the limit. */
  lemma {:induction false} EarlySize(reqs: seq<Request>, events: seq<Event>, url: string, max: nat)
    requires IsSchedule(reqs, events)
    ensures |Early(reqs, events, url, max)| == Min(Count(reqs, events, url), max)
  {
    if events != [] {
      var front, e := events[..|events| - 1], events[|events| - 1];
      ScheduleFront(reqs, events);
      EarlySize(reqs, front, url, max);
      if e.Tracks? && e.r in Early(reqs, front, url, max) {
        EarlyAreTracked(reqs, front, url, max, e.r);
      }
    }
  }

  /** While the counter has not passed the limit, everything counted is early. */
  lemma {:induction false} AllEarly(reqs: seq<Request>, events: seq<Event>, url: string, max: nat, r: nat)
    requires IsSchedule(reqs, events) && Count(reqs, events, url) <= max
    requires Tracks(r) in events && reqs[r].url == url
    ensures r in Early(reqs, events, url, max)
  {
    var front, e := events[..|events| - 1], events[|events| - 1];
    ScheduleFront(reqs, events);
    assert events == front + [e];
    if e != Tracks(r) { AllEarly(reqs, front, url, max, r); }
  }

  lemma PasserIsEarly(reqs: seq<Request>, events: seq<Event>, url: string, max: nat)
    requires IsSchedule(reqs, events) && events != []
    requires
      var front, e := events[..|events| - 1], events[|events| - 1];
      e.Checks? && reqs[e.r] == Request(url, true) && Count(reqs, front, url) <= max
    ensures events[|events| - 1].r in Early(reqs, events[..|events| - 1], url, max)
  {
    var front, e := events[..|events| - 1], events[|events| - 1];
    ScheduleFront(reqs, events);
    assert Tracks(e.r) in front;
    AllEarly(reqs, front, url, max, e.r);
  }

  /** Whoever passes was among the first `max` to be counted. */
  lemma {:induction false} PassingAreEarly(reqs: seq<Request>, events: seq<Event>, url: string, max: nat)
    requires IsSchedule(reqs, events) && Count(reqs, events, url) < Hex.WORD
    ensures Passing(reqs, events, url, max) <= Early(reqs, events, url, max)
  {
    if events != [] {
      var front, e := events[..|events| - 1], events[|events| - 1];
      ScheduleFront(reqs, events);
      PassingAreEarly(reqs, front, url, max);
      CounterCounts(reqs, front, url);
      if e.Checks? && reqs[e.r] == Request(url, true) && Count(reqs, front, url) <= max {
        PasserIsEarly(reqs, events, url, max);
      }
    }
  }

  /** Under every interleaving of fewer uses than the word counts, at most min(n, max) requests on a URL pass. */
  lemma AtMostLimitPass(reqs: seq<Request>, events: seq<Event>, url: string, max: nat)
    requires IsSchedule(reqs, events) && Count(reqs, events, url) < Hex.WORD
    ensures |Passing(reqs, events, url, max)| <= Min(Count(reqs, events, url), max)
  {
    EarlySize(reqs, events, url, max);
    PassingAreEarly(reqs, events, url, max);
    SubsetSize(Passing(reqs, events, url, max), Early(reqs, events, url, max));
  }

  /** The check of `r` reads the counter before it passes the limit. */
  ghost predicate ChecksInTime(reqs: seq<Request>, events: seq<Event>, url: string, max: nat, r: nat)
    requires forall i :: 0 <= i < |events| ==> events[i].r < |reqs|
  {
    exists j :: 0 <= j < |events| && events[j] == Checks(r) && Counter(reqs, events[..j], url) <= max
  }

  /** One more event, for the three functions that read a schedule from its end. */
  lemma OneMore(reqs: seq<Request>, events: seq<Event>, e: Event, url: string, max: nat)
    requires (forall i :: 0 <= i < |events| ==> events[i].r < |reqs|) && e.r < |reqs|
    ensures Passing(reqs, events + [e], url, max)
         == Passing(reqs, events, url, max)
          + (if e.Checks? && reqs[e.r] == Request(url, true) && Counter(reqs, events, url) <= max then {e.r} else {})
    ensures Early(reqs, events + [e], url, max)
         == Early(reqs, events, url, max)
          + (if e.Tracks? && reqs[e.r].url == url && Count(reqs, events, url) < max then {e.r} else {})
    ensures Count(reqs, events + [e], url)
         == Count(reqs, events, url) + (if e.Tracks? && reqs[e.r].url == url then 1 else 0)
  {
    assert (events + [e])[..|events + [e]| - 1] == events;
  }

  lemma InTimeOneMore(reqs: seq<Request>, events: seq<Event>, e: Event, url: string, max: nat, r: nat)
    requires (forall i :: 0 <= i < |events| ==> events[i].r < |reqs|) && e.r < |reqs|
    ensures ChecksInTime(reqs, events + [e], url, max, r)
       <==> ChecksInTime(reqs, events, url, max, r) || (e == Checks(r) && Counter(reqs, events, url) <= max)
  {
    var longer := events + [e];
    assert forall j :: 0 <= j <= |events| ==> longer[..j] == events[..j];
    assert events[..|events|] == events;
    if ChecksInTime(reqs, events, url, max, r) {
      var j :| 0 <= j < |events| && events[j] == Checks(r) && Counter(reqs, events[..j], url) <= max;
      assert longer[j] == Checks(r);
    } else if e == Checks(r) && Counter(reqs, events, url) <= max {
      assert longer[|events|] == Checks(r);
    }
  }

  /** A request on a URL passes exactly when its check reads a counter within the limit. */
  lemma {:induction false} PassesExactly(reqs: seq<Request>, events: seq<Event>, url: string, max: nat, r: nat)
    requires IsSchedule(reqs, events)
    ensures r in Passing(reqs, events, url, max)
       <==> r < |reqs| && reqs[r] == Request(url, true) && ChecksInTime(reqs, events, url, max, r)
  {
    if events != [] {
      var front, e := events[..|events| - 1], events[|events| - 1];
      ScheduleFront(reqs, events);
      PassesExactly(reqs, front, url, max, r);
      InTimeOneMore(reqs, front, e, url, max, r);
      OneMore(reqs, front, e, url, max);
      assert events == front + [e];
    }
  }

  /** A schedule in which every counted use of a URL also gets to its check. */
  ghost predicate IsFull(reqs: seq<Request>, events: seq<Event>, url: string) {
    && IsSchedule(reqs, events)
    && forall i ::
         0 <= i < |events| && events[i].Tracks? && reqs[events[i].r].url == url ==> Checks(events[i].r) in events
  }

  lemma TrackedChecks(reqs: seq<Request>, events: seq<Event>, url: string, r: nat)
    requires IsFull(reqs, events, url) && Tracks(r) in events && reqs[r].url == url
    ensures Checks(r) in events && reqs[r] == Request(url, true)
  {
    var i :| 0 <= i < |events| && events[i] == Tracks(r);
  }

  lemma SmallCountInTime(reqs: seq<Request>, events: seq<Event>, url: string, max: nat, r: nat)
    requires (forall i :: 0 <= i < |events| ==> events[i].r < |reqs|)
    requires Count(reqs, events, url) <= max < Hex.WORD && Checks(r) in events
    ensures ChecksInTime(reqs, events, url, max, r)
  {
    var j :| 0 <= j < |events| && events[j] == Checks(r);
    var seen := events[..j];
    CountOfFront(reqs, events, j, url);
    CounterCounts(reqs, seen, url);
    assert Counter(reqs, seen, url) <= max;
  }

  lemma EarlyPasses(reqs: seq<Request>, events: seq<Event>, url: string, max: nat, r: nat)
    requires IsFull(reqs, events, url) && Count(reqs, events, url) <= max < Hex.WORD
    requires r in Early(reqs, events, url, max)
    ensures r in Passing(reqs, events, url, max)
  {
    EarlyAreTracked(reqs, events, url, max, r);
    TrackedChecks(reqs, events, url, r);
    SmallCountInTime(reqs, events, url, max, r);
    PassesExactly(reqs, events, url, max, r);
  }

  /** When the limit is not reached, everyone who is counted passes. */
  lemma AllPassWithinLimit(reqs: seq<Request>, events: seq<Event>, url: string, max: nat)
    requires IsFull(reqs, events, url) && Count(reqs, events, url) <= max < Hex.WORD
    ensures |Passing(reqs, events, url, max)| >= |Early(reqs, events, url, max)|
  {
    var early, passing := Early(reqs, events, url, max), Passing(reqs, events, url, max);
    forall r | r in early ensures r in passing {
      EarlyPasses(reqs, events, url, max, r);
    }
    SubsetSize(early, passing);
  }

  // ---------------------------------------------------------------- One request after the other

  function Steps(reqs: seq<Request>, k: nat): seq<Event>
    requires k < |reqs|
  {
    if reqs[k].presigned then [Tracks(k), Checks(k)] else [Checks(k)]
  }

  function InTurn(reqs: seq<Request>, n: nat): (events: seq<Event>)
    requires n <= |reqs|
    ensures forall i :: 0 <= i < |events| ==> events[i].r < n
  {
    if n == 0 then [] else InTurn(reqs, n - 1) + Steps(reqs, n - 1)
  }

  lemma ScheduleNext(reqs: seq<Request>, events: seq<Event>, e: Event)
    requires IsSchedule(reqs, events) && e !in events && e.r < |reqs|
    requires e.Tracks? ==> reqs[e.r].presigned
    requires e.Checks? && reqs[e.r].presigned ==> Tracks(e.r) in events
    ensures IsSchedule(reqs, events + [e])
  {
    var longer := events + [e];
    forall i | 0 <= i < |longer| && longer[i].Checks? && reqs[longer[i].r].presigned
      ensures Tracks(longer[i].r) in longer[..i]
    {
      assert longer[..i] == events[..i];
    }
  }

  lemma TwoSteps(reqs: seq<Request>, events: seq<Event>, k: nat)
    requires k < |reqs| && reqs[k].presigned
    ensures events + [Tracks(k)] + [Checks(k)] == events + Steps(reqs, k)
  {
  }

  lemma {:induction false} InTurnIsSchedule(reqs: seq<Request>, n: nat)
    requires n <= |reqs|
    ensures IsSchedule(reqs, InTurn(reqs, n))
  {
    if n > 0 {
      var k := n - 1;
      var front := InTurn(reqs, k);
      InTurnIsSchedule(reqs, k);
      if reqs[k].presigned {
        ScheduleNext(reqs, front, Tracks(k));
        ScheduleNext(reqs, front + [Tracks(k)], Checks(k));
        TwoSteps(reqs, front, k);
      } else {
        ScheduleNext(reqs, front, Checks(k));
      }
    }
  }

  /** How many presigned requests there are on a URL. */
  function Presigned(reqs: seq<Request>, n: nat, url: string): nat
    requires n <= |reqs|
  {
    if n == 0 then 0 else Presigned(reqs, n - 1, url) + (if reqs[n - 1] == Request(url, true) then 1 else 0)
  }

  /** How many of n requests pass when each reads the counter right after its own use. */
  function Admitted(n: nat, max: nat): nat {
    if n == 0 then 0 else Admitted(n - 1, max) + (if n % Hex.WORD <= max then 1 else 0)
  }

  lemma {:induction false} AdmittedInWord(n: nat, max: nat)
    requires n < Hex.WORD
    ensures Admitted(n, max) == Min(n, max)
    decreases n
  {
    if n > 0 { AdmittedInWord(n - 1, max); }
  }

  /** The counter starts again at zero, and lets more through than the limit. */
  lemma {:induction false} AdmittedBeyondWord(n: nat, max: nat)
    requires max < Hex.WORD <= n
    ensures Admitted(n, max) > max
    decreases n
  {
    if n == Hex.WORD {
      AdmittedInWord(n - 1, max);
    } else {
      AdmittedBeyondWord(n - 1, max);
    }
  }

  /** After a run of requests below number k: how many were counted, and how many have passed. */
  ghost predicate Tallied(reqs: seq<Request>, events: seq<Event>, url: string, max: nat, k: nat, n: nat) {
    && k <= |reqs| && (forall i :: 0 <= i < |events| ==> events[i].r < |reqs|)
    && Count(reqs, events, url) == n
    && (forall r :: r in Passing(reqs, events, url, max) ==> r < k)
    && |Passing(reqs, events, url, max)| == Admitted(n, max)
  }

  /** A request that runs its steps in a row. */
  lemma StepsInARow(reqs: seq<Request>, events: seq<Event>, k: nat, url: string, max: nat)
    requires (forall i :: 0 <= i < |events| ==> events[i].r < |reqs|) && k < |reqs|
    ensures
      var after := events + Steps(reqs, k);
      var n := Count(reqs, events, url);
      var own := reqs[k] == Request(url, true);
      && Count(reqs, after, url) == n + (if own then 1 else 0)
      && Passing(reqs, after, url, max)
         == Passing(reqs, events, url, max) + (if own && (n + 1) % Hex.WORD <= max then {k} else {})
  {
    if reqs[k].presigned {
      var tracked := events + [Tracks(k)];
      OneMore(reqs, events, Tracks(k), url, max);
      CounterCounts(reqs, tracked, url);
      OneMore(reqs, tracked, Checks(k), url, max);
      TwoSteps(reqs, events, k);
    } else {
      OneMore(reqs, events, Checks(k), url, max);
    }
  }

  lemma TalliedNext(reqs: seq<Request>, events: seq<Event>, k: nat, url: string, max: nat, n: nat)
    requires Tallied(reqs, events, url, max, k, n) && k < |reqs|
    ensures Tallied(reqs, events + Steps(reqs, k), url, max, k + 1,
                    n + (if reqs[k] == Request(url, true) then 1 else 0))
  {
    StepsInARow(reqs, events, k, url, max);
  }

  lemma InTurnNext(reqs: seq<Request>, n: nat, url: string)
    requires 0 < n <= |reqs|
    ensures InTurn(reqs, n) == InTurn(reqs, n - 1) + Steps(reqs, n - 1)
    ensures Presigned(reqs, n, url)
         == Presigned(reqs, n - 1, url) + (if reqs[n - 1] == Request(url, true) then 1 else 0)
  {
  }

  lemma TalliedThere(reqs: seq<Request>, events: seq<Event>, after: seq<Event>, k: nat, url: string, max: nat, n: nat,
                     n': nat)
    requires Tallied(reqs, events, url, max, k, n) && k < |reqs| && after == events + Steps(reqs, k)
    requires n' == n + (if reqs[k] == Request(url, true) then 1 else 0)
    ensures Tallied(reqs, after, url, max, k + 1, n')
  {
    TalliedNext(reqs, events, k, url, max, n);
  }

  lemma InTurnPassesNext(reqs: seq<Request>, n: nat, url: string, max: nat)
    requires 0 < n <= |reqs| && Tallied(reqs, InTurn(reqs, n - 1), url, max, n - 1, Presigned(reqs, n - 1, url))
    ensures Tallied(reqs, InTurn(reqs, n), url, max, n, Presigned(reqs, n, url))
  {
    InTurnNext(reqs, n, url);
    TalliedThere(reqs, InTurn(reqs, n - 1), InTurn(reqs, n), n - 1, url, max, Presigned(reqs, n - 1, url),
                 Presigned(reqs, n, url));
  }

  lemma NothingYet(reqs: seq<Request>, url: string, max: nat)
    ensures Tallied(reqs, [], url, max, 0, 0)
  {
  }

  lemma {:induction false} InTurnPasses(reqs: seq<Request>, n: nat, url: string, max: nat)
    requires n <= |reqs|
    ensures Tallied(reqs, InTurn(reqs, n), url, max, n, Presigned(reqs, n, url))
  {
    if n == 0 {
      NothingYet(reqs, url, max);
    } else {
      InTurnPasses(reqs, n - 1, url, max);
      InTurnPassesNext(reqs, n, url, max);
    }
  }

  /**
   Requests that come one after the other: of the n presigned ones on a URL exactly min(n, max) pass, and
   more than max once n no longer fits the word.
   */
  lemma SequentialRequests(reqs: seq<Request>, url: string, max: nat)
    ensures
      var n, passing := Presigned(reqs, |reqs|, url), |Passing(reqs, InTurn(reqs, |reqs|), url, max)|;
      && IsSchedule(reqs, InTurn(reqs, |reqs|)) && Count(reqs, InTurn(reqs, |reqs|), url) == n
      && (n < Hex.WORD ==> passing == Min(n, max))
      && (max < Hex.WORD <= n ==> passing > max)
  {
    var n := Presigned(reqs, |reqs|, url);
    InTurnIsSchedule(reqs, |reqs|);
    InTurnPasses(reqs, |reqs|, url, max);
    if n < Hex.WORD {
      AdmittedInWord(n, max);
    } else if max < Hex.WORD {
      AdmittedBeyondWord(n, max);
    }
  }

  // ---------------------------------------------------------------- All at once

  function AllTrack(n: nat): (events: seq<Event>)
    ensures |events| == n && forall i :: 0 <= i < n ==> events[i] == Tracks(i)
  {
    seq(n, (i: nat) => Tracks(i))
  }

  /** After `n` tracks the first `m` checks. */
  function TrackThenCheck(n: nat, m: nat): (events: seq<Event>)
    ensures |events| == n + m
    ensures forall i :: 0 <= i < n + m ==> events[i] == if i < n then Tracks(i) else Checks(i - n)
  {
    AllTrack(n) + seq(m, (i: nat) => Checks(i))
  }

  function Copies(url: string, n: nat): (reqs: seq<Request>)
    ensures |reqs| == n && forall i :: 0 <= i < n ==> reqs[i] == Request(url, true)
  {
    seq(n, (i: nat) => Request(url, true))
  }

  lemma TrackThenCheckIsSchedule(url: string, n: nat, m: nat)
    requires m <= n
    ensures IsSchedule(Copies(url, n), TrackThenCheck(n, m))
  {
    var events := TrackThenCheck(n, m);
    forall i | 0 <= i < |events| && events[i].Checks? ensures Tracks(events[i].r) in events[..i] {
      assert events[..i][i - n] == Tracks(events[i].r);
    }
  }

  lemma AllTrackNext(n: nat)
    ensures AllTrack(n + 1) == AllTrack(n) + [Tracks(n)]
  {
  }

  lemma {:induction false} TracksOnly(url: string, total: nat, n: nat, max: nat)
    requires n <= total
    ensures Count(Copies(url, total), AllTrack(n), url) == n && Passing(Copies(url, total), AllTrack(n), url, max) == {}
  {
    if n > 0 {
      TracksOnly(url, total, n - 1, max);
      AllTrackNext(n - 1);
      OneMore(Copies(url, total), AllTrack(n - 1), Tracks(n - 1), url, max);
    }
  }

  lemma CheckNext(n: nat, m: nat)
    ensures TrackThenCheck(n, m + 1) == TrackThenCheck(n, m) + [Checks(m)]
  {
  }

  lemma {:induction false} ThenChecks(url: string, n: nat, m: nat, max: nat)
    requires m <= n && max < n % Hex.WORD
    ensures Count(Copies(url, n), TrackThenCheck(n, m), url) == n
      && Passing(Copies(url, n), TrackThenCheck(n, m), url, max) == {}
  {
    if m == 0 {
      TracksOnly(url, n, n, max);
      assert TrackThenCheck(n, 0) == AllTrack(n);
    } else {
      ThenChecks(url, n, m - 1, max);
      CounterCounts(Copies(url, n), TrackThenCheck(n, m - 1), url);
      CheckNext(n, m - 1);
      OneMore(Copies(url, n), TrackThenCheck(n, m - 1), Checks(m - 1), url, max);
    }
  }

  lemma AllCheckInTheEnd(url: string, n: nat)
    ensures IsFull(Copies(url, n), TrackThenCheck(n, n), url)
  {
    var events := TrackThenCheck(n, n);
    TrackThenCheckIsSchedule(url, n, n);
    forall i | 0 <= i < |events| && events[i].Tracks? ensures Checks(events[i].r) in events {
      assert events[n + i] == Checks(events[i].r);
    }
  }

  /** More simultaneous uses than the limit can lock each other out: there is a schedule in which none passes. */
  lemma SimultaneousUsesMayAllFail(url: string, n: nat, max: nat)
    requires max < n % Hex.WORD
    ensures IsFull(Copies(url, n), TrackThenCheck(n, n), url)
    ensures Count(Copies(url, n), TrackThenCheck(n, n), url) == n
    ensures Passing(Copies(url, n), TrackThenCheck(n, n), url, max) == {}
  {
    AllCheckInTheEnd(url, n);
    ThenChecks(url, n, n, max);
  }

  // ---------------------------------------------------------------- Exactly when the limit is kept and met

  /** No schedule with n uses of a URL lets more than `max` through. */
  ghost predicate NeverTooMany(n: nat, max: nat) {
    forall reqs: seq<Request>, events: seq<Event>, url: string ::
      IsSchedule(reqs, events) && Count(reqs, events, url) == n ==> |Passing(reqs, events, url, max)| <= max
  }

  /** Every schedule with n uses of a URL that all get to their checks lets exactly min(n, max) through. */
  ghost predicate AlwaysExact(n: nat, max: nat) {
    forall reqs: seq<Request>, events: seq<Event>, url: string ::
      IsFull(reqs, events, url) && Count(reqs, events, url) == n ==> |Passing(reqs, events, url, max)| == Min(n, max)
  }

  lemma {:induction false} InTurnCounts(url: string, total: nat, n: nat)
    requires n <= total
    ensures Presigned(Copies(url, total), n, url) == n
  {
    if n > 0 { InTurnCounts(url, total, n - 1); }
  }

  lemma {:induction false} InTurnHasChecks(reqs: seq<Request>, n: nat, r: nat)
    requires r < n <= |reqs|
    ensures Checks(r) in InTurn(reqs, n)
  {
    if r == n - 1 {
      assert Checks(r) in Steps(reqs, n - 1);
    } else {
      InTurnHasChecks(reqs, n - 1, r);
    }
  }

  /** Sequential uses of one URL beyond the machine word. */
  lemma BeyondWordTooMany(url: string, n: nat, max: nat)
    requires max < Hex.WORD <= n
    ensures
      var reqs := Copies(url, n);
      IsFull(reqs, InTurn(reqs, n), url) && Count(reqs, InTurn(reqs, n), url) == n
        && |Passing(reqs, InTurn(reqs, n), url, max)| > max
  {
    var reqs := Copies(url, n);
    InTurnCounts(url, n, n);
    SequentialRequests(reqs, url, max);
    var events := InTurn(reqs, n);
    forall i | 0 <= i < |events| && events[i].Tracks? ensures Checks(events[i].r) in events {
      InTurnHasChecks(reqs, n, events[i].r);
    }
  }

  /** The limit is kept under every interleaving if and only if the uses fit the machine word. */
  lemma LimitKeptExactly(n: nat, max: nat)
    requires max < Hex.WORD
    ensures NeverTooMany(n, max) <==> n < Hex.WORD
  {
    if n < Hex.WORD {
      forall reqs: seq<Request>, events: seq<Event>, url: string
        | IsSchedule(reqs, events) && Count(reqs, events, url) == n
        ensures |Passing(reqs, events, url, max)| <= max
      {
        AtMostLimitPass(reqs, events, url, max);
      }
    } else {
      BeyondWordTooMany("u", n, max);
      assert IsSchedule(Copies("u", n), InTurn(Copies("u", n), n));
    }
  }

  /**
   Exactly min(n, max) requests pass under every interleaving if and only if the uses fit the machine word
   and either stay within the limit or the limit is zero.
   */
  lemma LimitMetExactly(n: nat, max: nat)
    requires max < Hex.WORD
    ensures AlwaysExact(n, max) <==> n < Hex.WORD && (n <= max || max == 0)
  {
    if n >= Hex.WORD {
      BeyondWordTooMany("u", n, max);
    } else if n <= max || max == 0 {
      forall reqs: seq<Request>, events: seq<Event>, url: string
        | IsFull(reqs, events, url) && Count(reqs, events, url) == n
        ensures |Passing(reqs, events, url, max)| == Min(n, max)
      {
        AtMostLimitPass(reqs, events, url, max);
        EarlySize(reqs, events, url, max);
        if n <= max { AllPassWithinLimit(reqs, events, url, max); }
      }
    } else {
      SimultaneousUsesMayAllFail("u", n, max);
      assert |Passing(Copies("u", n), TrackThenCheck(n, n), "u", max)| == 0;
    }
  }
}
