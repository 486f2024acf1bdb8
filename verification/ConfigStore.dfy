/**
 The bucket configurations that all requests share.

 A request copies its bucket's entry, completes the credentials of the copy (which may call out, and so
 take any time), writes the whole copy back, and later reads the entry again to address the upstream.
 */
module ConfigStore {
  import opened Text

  /** `CosMapItem` as a value. */
  datatype Config = Config(host: string, port: nat, region: Option<string>, apiKey: Option<string>,
                           accessKey: Option<string>, secretKey: Option<string>, ttl: Option<nat>,
                           tls: Option<bool>, style: Option<string>)
  {
    /** `has_hmac`. */
    predicate HasHmac() {
      accessKey.Some? && secretKey.Some?
    }

    /** `has_api_key`. */
    predicate HasApiKey() {
      apiKey.Some?
    }

    predicate HasCredential() {
      HasHmac() || HasApiKey()
    }

    /** The entry without its credentials. */
    function Bare(): Config {
      this.(apiKey := None, accessKey := None, secretKey := None)
    }
  }

  /** `BucketCredential`. */
  datatype Credential = Hmac(accessKey: string, secretKey: string) | ApiKey(key: string)

  /** What calling the fetcher gives: there is none, it fails, or a parsed credential. */
  datatype Fetched = NoFetcher | FetchFailed | Fetched(credential: Credential)

  /** The completed configuration, or None for an error. */
  function Ensured(config: Config, fetched: Fetched): (r: Option<Config>)
    ensures r.Some? ==> r.value.HasCredential() && r.value.Bare() == config.Bare()
    ensures r.Some? && config.HasCredential() ==> r.value == config
    ensures r.None? <==> !config.HasCredential() && !fetched.Fetched?
  {
    if config.HasCredential() then Some(config)
    else match fetched
      case NoFetcher => None
      case FetchFailed => None
      case Fetched(Hmac(a, s)) => Some(config.(accessKey := Some(a), secretKey := Some(s)))
      case Fetched(ApiKey(k)) => Some(config.(apiKey := Some(k)))
  }

  /** `CosMapItem`. */
  class CosMapItem {
    const host: string
    const port: nat
    const region: Option<string>
    var apiKey: Option<string>
    var accessKey: Option<string>
    var secretKey: Option<string>
    const ttl: Option<nat>
    const tls: Option<bool>
    const style: Option<string>

    /** `clone`. */
    constructor (c: Config)
      ensures View() == c
    {
      host, port, region, ttl, tls, style := c.host, c.port, c.region, c.ttl, c.tls, c.style;
      apiKey, accessKey, secretKey := c.apiKey, c.accessKey, c.secretKey;
    }

    function View(): Config
      reads this
    {
      Config(host, port, region, apiKey, accessKey, secretKey, ttl, tls, style)
    }

    /** `ensure_credentials`; an error leaves the item as it was. */
    method EnsureCredentials(fetched: Fetched) returns (ok: bool)
      modifies this`apiKey, this`accessKey, this`secretKey
      ensures ok == Ensured(old(View()), fetched).Some?
      ensures View() == if ok then Ensured(old(View()), fetched).value else old(View())
    {
      if (accessKey.Some? && secretKey.Some?) || apiKey.Some? {
        return true;
      }
      match fetched {
        case NoFetcher => ok := false;
        case FetchFailed => ok := false;
        case Fetched(credential) =>
          match credential {
            case Hmac(a, s) => accessKey, secretKey := Some(a), Some(s);
            case ApiKey(k) => apiKey := Some(k);
          }
          ok := true;
      }
    }
  }

  // ---------------------------------------------------------------- Concurrent requests

  /** How far a request has come. */
  datatype Stage =
    | Fresh
    | Copied(bucket: string, copy: Config)                         // cached for choosing the peer
    | Completed(bucket: string, copy: Config, config: Config)      // credentials found, not yet written
    | Stored(bucket: string, copy: Config)                         // the credential stage is over
    | Routed(bucket: string, copy: Config, current: Option<Config>) // the entry read again for the upstream
    | Refused

  datatype State = State(store: map<string, Config>, stages: map<nat, Stage>) {
    function StageOf(id: nat): Stage {
      if id in stages then stages[id] else Fresh
    }

    function Find(bucket: string): Option<Config> {
      if bucket in store then Some(store[bucket]) else None
    }

    function At(id: nat, stage: Stage): State {
      this.(stages := stages[id := stage])
    }
  }

  /** The atomic steps of the requests. */
  datatype Event =
    | Copy(id: nat, bucket: string)
    | Complete(id: nat, fetched: Fetched)
    | Write(id: nat)
    | Route(id: nat)

  /** One step; a step that is not the request's next one does nothing. */
  function Step(s: State, e: Event): State {
    match (e, s.StageOf(e.id))
    case (Copy(id, bucket), Fresh) =>
      if bucket in s.store then s.At(id, Copied(bucket, s.store[bucket])) else s.At(id, Refused)
    case (Complete(id, fetched), Copied(bucket, copy)) =>
      var r := Ensured(copy, fetched);
      if r.Some? then s.At(id, Completed(bucket, copy, r.value)) else s.At(id, Refused)
    case (Write(id), Completed(bucket, copy, config)) =>
      s.(store := s.store[bucket := config]).At(id, Stored(bucket, copy))
    case (Route(id), Stored(bucket, copy)) =>
      s.At(id, Routed(bucket, copy, s.Find(bucket)))
    case _ => s
  }

  function Run(s: State, events: seq<Event>): State
    decreases |events|
  {
    if events == [] then s else Run(Step(s, events[0]), events[1..])
  }

  // ---------------------------------------------------------------- Invariants

  /** Same buckets, and each entry as configured at the start but for its credentials. */
  ghost predicate SameEntries(initial: map<string, Config>, store: map<string, Config>) {
    && store.Keys == initial.Keys
    && forall b :: b in initial ==> store[b].Bare() == initial[b].Bare()
  }

  /** What holds of a request in a stage. */
  ghost predicate StageOk(initial: map<string, Config>, store: map<string, Config>, stage: Stage) {
    match stage
    case Fresh => true
    case Refused => true
    case Copied(b, copy) => b in initial && copy.Bare() == initial[b].Bare()
    case Completed(b, copy, config) =>
      b in initial && copy.Bare() == initial[b].Bare() && config.Bare() == initial[b].Bare() && config.HasCredential()
    case Stored(b, copy) =>
      b in initial && copy.Bare() == initial[b].Bare() && b in store && store[b].HasCredential()
    case Routed(b, copy, current) =>
      && b in initial && copy.Bare() == initial[b].Bare()
      && current.Some? && current.value.HasCredential() && current.value.Bare() == initial[b].Bare()
  }

  ghost predicate Inv(initial: map<string, Config>, s: State) {
    && SameEntries(initial, s.store)
    && forall id :: id in s.stages ==> StageOk(initial, s.store, s.stages[id])
  }

  /** Entries that have a credential keep one. */
  ghost predicate KeepsCredentials(before: map<string, Config>, after: map<string, Config>) {
    forall b :: b in before && before[b].HasCredential() ==> b in after && after[b].HasCredential()
  }

  lemma StepKeepsStore(initial: map<string, Config>, s: State, e: Event)
    requires Inv(initial, s)
    ensures SameEntries(initial, Step(s, e).store) && KeepsCredentials(s.store, Step(s, e).store)
  {
    assert StageOk(initial, s.store, s.StageOf(e.id));
  }

  /** A request that takes no part in a step is as well off as before. */
  lemma StageStaysOk(initial: map<string, Config>, before: map<string, Config>, after: map<string, Config>,
                     stage: Stage)
    requires StageOk(initial, before, stage) && KeepsCredentials(before, after)
    ensures StageOk(initial, after, stage)
  {
  }

  lemma OwnStageOk(initial: map<string, Config>, s: State, e: Event)
    requires Inv(initial, s)
    ensures StageOk(initial, Step(s, e).store, Step(s, e).StageOf(e.id))
  {
    assert StageOk(initial, s.store, s.StageOf(e.id));
  }

  lemma OthersUntouched(s: State, e: Event, id: nat)
    requires id != e.id
    ensures Step(s, e).StageOf(id) == s.StageOf(id)
  {
  }

  lemma StepKeeps(initial: map<string, Config>, s: State, e: Event)
    requires Inv(initial, s)
    ensures Inv(initial, Step(s, e)) && KeepsCredentials(s.store, Step(s, e).store)
  {
    var t := Step(s, e);
    StepKeepsStore(initial, s, e);
    forall id | id in t.stages ensures StageOk(initial, t.store, t.stages[id]) {
      assert t.stages[id] == t.StageOf(id);
      if id == e.id {
        OwnStageOk(initial, s, e);
      } else {
        OthersUntouched(s, e, id);
        StageStaysOk(initial, s.store, t.store, s.StageOf(id));
      }
    }
  }

  lemma {:induction false} RunKeeps(initial: map<string, Config>, s: State, events: seq<Event>)
    requires Inv(initial, s)
    ensures Inv(initial, Run(s, events)) && KeepsCredentials(s.store, Run(s, events).store)
    decreases |events|
  {
    if events != [] {
      StepKeeps(initial, s, events[0]);
      RunKeeps(initial, Step(s, events[0]), events[1..]);
    }
  }

  lemma {:induction false} RunAppend(s: State, a: seq<Event>, b: seq<Event>)
    ensures Run(s, a + b) == Run(Run(s, a), b)
    decreases |a|
  {
    if a == [] {
      assert a + b == b;
    } else {
      assert (a + b)[0] == a[0] && (a + b)[1..] == a[1..] + b;
      RunAppend(Step(s, a[0]), a[1..], b);
    }
  }

  function Start(initial: map<string, Config>): State {
    State(initial, map[])
  }

  /**
   In every run, whatever the interleaving of copies, fetches and write-backs: no bucket appears or goes,
   nothing but credentials ever changes, and an entry that has some credential keeps having one.
   */
  lemma EntriesAreStable(initial: map<string, Config>, events: seq<Event>, more: seq<Event>)
    ensures SameEntries(initial, Run(Start(initial), events).store)
    ensures KeepsCredentials(Run(Start(initial), events).store, Run(Start(initial), events + more).store)
  {
    RunKeeps(initial, Start(initial), events);
    RunKeeps(initial, Run(Start(initial), events), more);
    RunAppend(Start(initial), events, more);
  }

  // ---------------------------------------------------------------- Authenticating the upstream request

  /** How the upstream request is authenticated; NoKey is the branch the source calls impossible. */
  datatype Method = Sign | Bearer(key: string) | NoKey

  function MethodFor(current: Option<Config>): Method {
    if current.Some? && current.value.HasHmac() then Sign
    else if current.Some? && current.value.apiKey.Some? then Bearer(current.value.apiKey.value)
    else NoKey
  }

  /**
   A request that went through the credential stage finds its bucket with a credential, whatever others did
   since: it is signed whenever a whole pair is stored, even beside an API key, and carries the key otherwise.
   */
  lemma StagedRequestsAuthenticate(initial: map<string, Config>, events: seq<Event>, id: nat)
    requires Run(Start(initial), events).StageOf(id).Routed?
    ensures
      var current := Run(Start(initial), events).StageOf(id).current;
      && current.Some? && MethodFor(current) != NoKey
      && (MethodFor(current) == Sign <==> current.value.accessKey.Some? && current.value.secretKey.Some?)
      && (MethodFor(current) != Sign ==> MethodFor(current) == Bearer(current.value.apiKey.value))
  {
    RunKeeps(initial, Start(initial), events);
    assert StageOk(initial, Run(Start(initial), events).store, Run(Start(initial), events).StageOf(id));
  }

  /** The shared map, with the credential stage of `request_filter` when nothing comes in between. */
  class Store {
    var entries: map<string, Config>

    constructor (initial: map<string, Config>)
      ensures entries == initial
    {
      entries := initial;
    }

    method CredentialStage(bucket: string, fetched: Fetched) returns (stored: bool)
      modifies this
      ensures
        var s := Step(Step(Step(Start(old(entries)), Copy(0, bucket)), Complete(0, fetched)), Write(0));
        entries == s.store && stored == s.StageOf(0).Stored?
    {
      if bucket !in entries {
        return false;
      }
      var item := new CosMapItem(entries[bucket]);
      stored := item.EnsureCredentials(fetched);
      if stored {
        entries := entries[bucket := item.View()];
      }
    }
  }

  // ---------------------------------------------------------------- When the kind of credential stays

  /** Requests 0 and 1 copy the bucket; 0 fetches a pair and stores it, then 1 fetches a key and stores that. */
  function FirstHalf(b: string): seq<Event> {
    [Copy(0, b), Copy(1, b), Complete(0, Fetched(Hmac("a", "s"))), Write(0)]
  }

  function SecondHalf(): seq<Event> {
    [Complete(1, Fetched(ApiKey("k"))), Write(1), Route(0)]
  }

  /**
   The kind of credential can change: two requests fetch for one bucket, one gets an HMAC pair and the
   other an API key, and the later write-back drops the pair the first had stored.
   */
  lemma KindOfCredentialCanChange(initial: map<string, Config>, b: string)
    requires b in initial && !initial[b].HasCredential()
    ensures
      var s := Run(Start(initial), FirstHalf(b) + SecondHalf());
      && MethodFor(Run(Start(initial), FirstHalf(b)).Find(b)) == Sign
      && s.StageOf(0).Routed? && MethodFor(s.StageOf(0).current) == Bearer("k")
      && MethodFor(s.Find(b)) == Bearer("k")
  {
    var first, second := FirstHalf(b), SecondHalf();
    FourSteps(Start(initial), first[0], first[1], first[2], first[3]);
    FirstStores(initial, b);
    ThreeSteps(Run(Start(initial), first), second[0], second[1], second[2]);
    RunAppend(Start(initial), first, second);
    SecondOverwrites(Run(Start(initial), first), b, initial[b]);
  }

  lemma FirstStores(initial: map<string, Config>, b: string)
    requires b in initial && !initial[b].HasCredential()
    ensures
      var s :=
        Step(Step(Step(Step(Start(initial), Copy(0, b)), Copy(1, b)), Complete(0, Fetched(Hmac("a", "s")))), Write(0));
      && s.StageOf(0) == Stored(b, initial[b]) && s.StageOf(1) == Copied(b, initial[b])
      && s.Find(b) == Some(initial[b].(accessKey := Some("a"), secretKey := Some("s")))
  {
    var s1 := Step(Start(initial), Copy(0, b));
    assert s1.StageOf(0) == Copied(b, initial[b]) && s1.StageOf(1) == Fresh;
    var s2 := Step(s1, Copy(1, b));
    assert s2.StageOf(0) == Copied(b, initial[b]) && s2.StageOf(1) == Copied(b, initial[b]);
  }

  lemma SecondOverwrites(s: State, b: string, bare: Config)
    requires !bare.HasCredential() && s.StageOf(0) == Stored(b, bare) && s.StageOf(1) == Copied(b, bare)
    ensures
      var t := Step(Step(Step(s, Complete(1, Fetched(ApiKey("k")))), Write(1)), Route(0));
      && t.StageOf(0).Routed? && MethodFor(t.StageOf(0).current) == Bearer("k")
      && MethodFor(t.Find(b)) == Bearer("k")
  {
    var s1 := Step(s, Complete(1, Fetched(ApiKey("k"))));
    assert s1.StageOf(1) == Completed(b, bare, bare.(apiKey := Some("k"))) && s1.StageOf(0) == Stored(b, bare);
    var s2 := Step(s1, Write(1));
    assert s2.StageOf(0) == Stored(b, bare) && s2.Find(b) == Some(bare.(apiKey := Some("k")));
  }

  /** The entry of a bucket, and every copy of it in flight, is this one. */
  ghost predicate Pinned(s: State, b: string, c: Config) {
    && s.Find(b) == Some(c)
    && forall id :: id in s.stages ==> PinnedStage(s.stages[id], b, c)
  }

  predicate PinnedStage(stage: Stage, b: string, c: Config) {
    && (stage.Copied? && stage.bucket == b ==> stage.copy == c)
    && (stage.Completed? && stage.bucket == b ==> stage.config == c)
  }

  lemma StepKeepsPinned(s: State, e: Event, b: string, c: Config)
    requires Pinned(s, b, c) && c.HasCredential()
    ensures Pinned(Step(s, e), b, c)
  {
    assert PinnedStage(s.StageOf(e.id), b, c);
    forall id | id in Step(s, e).stages ensures PinnedStage(Step(s, e).stages[id], b, c) {
      if id != e.id { OthersUntouched(s, e, id); }
    }
  }

  /** An entry that starts with a credential is never changed at all. */
  lemma {:induction false} RunKeepsPinned(s: State, events: seq<Event>, b: string, c: Config)
    requires Pinned(s, b, c) && c.HasCredential()
    ensures Run(s, events).Find(b) == Some(c)
    decreases |events|
  {
    if events != [] {
      StepKeepsPinned(s, events[0], b, c);
      RunKeepsPinned(Step(s, events[0]), events[1..], b, c);
    }
  }

  /** In no run is an HMAC pair of the bucket ever lost again. */
  ghost predicate PairsStay(initial: map<string, Config>, b: string) {
    forall events: seq<Event>, more: seq<Event> ::
      MethodFor(Run(Start(initial), events).Find(b)) == Sign ==>
      MethodFor(Run(Start(initial), events + more).Find(b)) == Sign
  }

  /** A stored HMAC pair stays, in every run, if and only if the bucket was configured with some credential. */
  lemma PairsStayExactly(initial: map<string, Config>, b: string)
    requires b in initial
    ensures PairsStay(initial, b) <==> initial[b].HasCredential()
  {
    if initial[b].HasCredential() {
      forall events: seq<Event>, more: seq<Event> | MethodFor(Run(Start(initial), events).Find(b)) == Sign
        ensures MethodFor(Run(Start(initial), events + more).Find(b)) == Sign
      {
        RunKeepsPinned(Start(initial), events, b, initial[b]);
        RunKeepsPinned(Start(initial), events + more, b, initial[b]);
      }
    } else {
      KindOfCredentialCanChange(initial, b);
    }
  }

  lemma ThreeSteps(s: State, a: Event, b: Event, c: Event)
    ensures Run(s, [a, b, c]) == Step(Step(Step(s, a), b), c)
  {
    assert [a, b, c][1..] == [b, c] && [b, c][1..] == [c] && [c][1..] == [];
    assert Run(Step(Step(s, a), b), [c]) == Step(Step(Step(s, a), b), c);
  }

  lemma FourSteps(s: State, a: Event, b: Event, c: Event, d: Event)
    ensures Run(s, [a, b, c, d]) == Step(Step(Step(Step(s, a), b), c), d)
  {
    assert [a, b, c, d][1..] == [b, c, d];
    ThreeSteps(Step(s, a), b, c, d);
  }
}
