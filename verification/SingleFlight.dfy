/**
 Single-flight building of API schemas (`_get_schema_response`, `clear_schema_cache`): any number
 of requests, interleaved at every access to the shared cache, to the guarded dictionaries and to
 the events. Reads and writes of the cache may fail (`down`), entries may expire, builds may fail,
 waits may time out, and everything may be cleared at any moment.
 */
module SingleFlight {
  import opened ByteStrings

  type Key = string
  type Schema = nat
  type Flight = nat  // one `threading.Event`

  datatype Pc =
    | Missed                                      // nothing cached: about to take the guard
    | Registering                                 // holds the guard, nothing cached on a second look
    | Building(flight: Flight)
    | Built(flight: Flight, schema: Schema)
    | Stored(flight: Flight, schema: Schema)      // in `_flight_results`
    | Popping(flight: Flight, result: Option<Schema>)
    | Signalling(flight: Flight, result: Option<Schema>)
    | Waiting(flight: Flight)
    | Woken(flight: Flight)
    | Looking(flight: Flight)
    | Answered(result: Option<Schema>, from: Source)
    | TimedOut

  /** Where an answer comes from: the cache at once, a flight waited for, or the request's own build. */
  datatype Source = Cached | Waited(flight: Flight) | Own(flight: Flight)

  datatype Request = Request(key: Key, pc: Pc)

  /**
   `owner` says which request made a flight, `made` what its build returned; `succeeded` holds the
   flights whose result was stored, `outdated` those among them whose results were cleared, `built`
   every schema a build returned and `starts` the keys of the builds started, in order. These are
   history.
   */
  datatype State = State(
    cache: map<Key, Schema>, inProgress: map<Key, Flight>, results: map<Key, Schema>,
    guard: Option<nat>, signalled: set<Flight>, requests: map<nat, Request>,
    owner: map<Flight, nat>, made: map<Flight, Schema>, succeeded: set<Flight>, outdated: set<Flight>,
    built: set<(Key, Schema)>, starts: seq<Key>)

  datatype Event =
    | Arrive(r: nat, key: Key, down: bool)
    | GuardedRead(r: nat, down: bool)
    | Register(r: nat, flight: Flight)
    | Build(r: nat, result: Option<Schema>)
    | StoreResult(r: nat)
    | StoreCache(r: nat, down: bool)
    | Pop(r: nat)
    | Signal(r: nat)
    | Wake(r: nat)
    | TimeOut(r: nat)
    | WokenRead(r: nat, down: bool)
    | Look(r: nat)
    | ClearResults
    | ClearCache
    | Expire(key: Key)

  const INIT := State(map[], map[], map[], None, {}, map[], map[], map[], {}, {}, {}, [])

  predicate At(s: State, r: nat) {
    r in s.requests
  }

  predicate Can(s: State, e: Event) {
    match e
    case Arrive(r, _, _) => r !in s.requests
    case GuardedRead(r, _) => At(s, r) && s.requests[r].pc.Missed? && s.guard.None?
    case Register(r, flight) =>
      At(s, r) && s.requests[r].pc.Registering? && s.guard == Some(r) && flight !in s.owner
    case Build(r, _) => At(s, r) && s.requests[r].pc.Building?
    case StoreResult(r) => At(s, r) && s.requests[r].pc.Built? && s.guard.None?
    case StoreCache(r, _) => At(s, r) && s.requests[r].pc.Stored?
    case Pop(r) => At(s, r) && s.requests[r].pc.Popping? && s.guard.None?
    case Signal(r) => At(s, r) && s.requests[r].pc.Signalling?
    case Wake(r) => At(s, r) && s.requests[r].pc.Waiting? && s.requests[r].pc.flight in s.signalled
    case TimeOut(r) => At(s, r) && s.requests[r].pc.Waiting?
    case WokenRead(r, _) => At(s, r) && s.requests[r].pc.Woken?
    case Look(r) => At(s, r) && s.requests[r].pc.Looking? && s.guard.None?
    case ClearResults => s.guard.None?
    case ClearCache => true
    case Expire(_) => true
  }

  function Move(s: State, r: nat, pc: Pc): State
    requires At(s, r)
  {
    s.(requests := s.requests[r := Request(s.requests[r].key, pc)])
  }

  /** `_cache_get`, a failed read counting as a miss. */
  function Read(s: State, key: Key, down: bool): Option<Schema> {
    if !down && key in s.cache then Some(s.cache[key]) else None
  }

  function Step(s: State, e: Event): State
    requires Can(s, e)
  {
    match e
    case Arrive(r, key, down) =>
      var found := Read(s, key, down);
      s.(requests := s.requests[r := Request(key, if found.Some? then Answered(found, Cached) else Missed)])
    case GuardedRead(r, down) =>
      var found := Read(s, s.requests[r].key, down);
      if found.Some? then Move(s, r, Answered(found, Cached))
      else Move(s, r, Registering).(guard := Some(r))
    case Register(r, flight) =>
      var key := s.requests[r].key;
      if key in s.inProgress then Move(s, r, Waiting(s.inProgress[key])).(guard := None)
      else Move(s, r, Building(flight)).(guard := None, inProgress := s.inProgress[key := flight],
                                        owner := s.owner[flight := r], starts := s.starts + [key])
    case Build(r, result) =>
      var pc := s.requests[r].pc;
      if result.Some? then
        Move(s, r, Built(pc.flight, result.value)).(built := s.built + {(s.requests[r].key, result.value)},
                                                    made := s.made[pc.flight := result.value])
      else Move(s, r, Popping(pc.flight, None))
    case StoreResult(r) =>
      var pc := s.requests[r].pc;
      Move(s, r, Stored(pc.flight, pc.schema)).(results := s.results[s.requests[r].key := pc.schema],
                                                succeeded := s.succeeded + {pc.flight})
    case StoreCache(r, down) =>
      var pc := s.requests[r].pc;
      var t := Move(s, r, Popping(pc.flight, Some(pc.schema)));
      if down then t else t.(cache := s.cache[s.requests[r].key := pc.schema])
    case Pop(r) =>
      var pc := s.requests[r].pc;
      Move(s, r, Signalling(pc.flight, pc.result)).(inProgress := s.inProgress - {s.requests[r].key})
    case Signal(r) =>
      var pc := s.requests[r].pc;
      Move(s, r, Answered(pc.result, Own(pc.flight))).(signalled := s.signalled + {pc.flight})
    case Wake(r) => Move(s, r, Woken(s.requests[r].pc.flight))
    case TimeOut(r) => Move(s, r, TimedOut)
    case WokenRead(r, down) =>
      var flight := s.requests[r].pc.flight;
      var found := Read(s, s.requests[r].key, down);
      if found.Some? then Move(s, r, Answered(found, Waited(flight))) else Move(s, r, Looking(flight))
    case Look(r) =>
      var key := s.requests[r].key;
      Move(s, r, Answered(if key in s.results then Some(s.results[key]) else None, Waited(s.requests[r].pc.flight)))
    case ClearResults => s.(results := map[], outdated := s.succeeded)
    case ClearCache => s.(cache := map[])
    case Expire(key) => s.(cache := s.cache - {key})
  }

  predicate CanRun(s: State, es: seq<Event>)
    decreases |es|
  {
    es == [] || (Can(s, es[0]) && CanRun(Step(s, es[0]), es[1..]))
  }

  function Run(s: State, es: seq<Event>): State
    requires CanRun(s, es)
    decreases |es|
  {
    if es == [] then s else Run(Step(s, es[0]), es[1..])
  }

  /** Between registering its flight and popping it. */
  predicate Registered(pc: Pc) {
    pc.Building? || pc.Built? || pc.Stored? || pc.Popping?
  }

  /** The flight a request is building, until its event is set. */
  predicate Flying(pc: Pc) {
    Registered(pc) || pc.Signalling?
  }

  predicate AwaitsFlight(pc: Pc) {
    pc.Waiting? || pc.Woken? || pc.Looking?
  }

  /** Request `r` owns this flight, and has not set its event yet. */
  predicate Owns(s: State, r: nat, f: Flight) {
    f in s.owner && s.owner[f] == r && f !in s.signalled
  }

  predicate InProgress(s: State, key: Key, f: Flight) {
    key in s.inProgress && s.inProgress[key] == f
  }

  /** What a build came to, as the results know it. */
  predicate Outcome(s: State, key: Key, f: Flight, result: Option<Schema>) {
    && (result.Some? <==> f in s.succeeded)
    && Made(s, f) == result
    && (result.Some? ==> (key, result.value) in s.built)
  }

  /** What the build of a flight returned. */
  function Made(s: State, f: Flight): Option<Schema> {
    if f in s.made then Some(s.made[f]) else None
  }

  /** What is true of one request; only one there is holds the guard. */
  ghost predicate RequestFine(s: State, r: nat) {
    if At(s, r) then PcFine(s, r) else s.guard != Some(r)
  }

  ghost predicate PcFine(s: State, r: nat)
    requires At(s, r)
  {
    var Request(key, pc) := s.requests[r];
    && (pc.Registering? <==> s.guard == Some(r))
    && match pc
       case Missed => true
       case Registering => true
       case TimedOut => true
       case Building(f) => Owns(s, r, f) && InProgress(s, key, f) && Outcome(s, key, f, None)
       case Built(f, schema) =>
         Owns(s, r, f) && InProgress(s, key, f) && f !in s.succeeded && Made(s, f) == Some(schema) && (key, schema) in s.built
       case Stored(f, schema) => Owns(s, r, f) && InProgress(s, key, f) && Outcome(s, key, f, Some(schema))
       case Popping(f, result) => Owns(s, r, f) && InProgress(s, key, f) && Outcome(s, key, f, result)
       case Signalling(f, result) => Owns(s, r, f) && Outcome(s, key, f, result)
       case Waiting(f) => FlightOf(s, f, key)
       case Woken(f) => FlightOf(s, f, key) && f in s.signalled
       case Looking(f) => FlightOf(s, f, key) && f in s.signalled
       case Answered(result, from) =>
         && (result.Some? ==> (key, result.value) in s.built)
         && match from
            case Cached => result.Some?
            case Waited(f) =>
              FlightOf(s, f, key) && f in s.signalled && (result.None? ==> f !in s.succeeded || f in s.outdated)
            case Own(f) => f in s.owner && s.owner[f] == r && f in s.signalled && Outcome(s, key, f, result)
  }

  predicate FlightOf(s: State, flight: Flight, key: Key) {
    flight in s.owner && s.owner[flight] in s.requests && s.requests[s.owner[flight]].key == key
  }

  /** What is true of one flight; nothing is known of one that was not made. */
  ghost predicate FlightFine(s: State, f: Flight) {
    if f in s.owner then
      && s.owner[f] in s.requests
      && (f !in s.signalled ==> Flying(s.requests[s.owner[f]].pc) && s.requests[s.owner[f]].pc.flight == f)
      && (f in s.signalled ==> s.requests[s.owner[f]].pc == Answered(Made(s, f), Own(f)))
      && (f in s.succeeded && f !in s.outdated ==> s.requests[s.owner[f]].key in s.results)
    else f !in s.succeeded && f !in s.signalled && f !in s.outdated && f !in s.made
  }

  /** What is true of a key: its flight's owner is between registering and popping; what is kept for it was built for it. */
  ghost predicate KeyFine(s: State, k: Key) {
    && (k in s.inProgress ==>
          var f := s.inProgress[k];
          FlightOf(s, f, k) && Registered(s.requests[s.owner[f]].pc) && s.requests[s.owner[f]].pc.flight == f)
    && (k in s.cache ==> (k, s.cache[k]) in s.built)
    && (k in s.results ==> (k, s.results[k]) in s.built)
  }

  ghost predicate Inv(s: State) {
    && (forall r {:trigger RequestFine(s, r)} :: RequestFine(s, r))
    && (forall f {:trigger FlightFine(s, f)} :: FlightFine(s, f))
    && (forall k {:trigger KeyFine(s, k)} :: KeyFine(s, k))
  }

  // ----- one request moves, the others stand still

  /** The request has its cache write still to come. */
  predicate Unwritten(pc: Pc) {
    pc.Building? || pc.Built? || pc.Stored?
  }

  /** What was built is as it was, or more. */
  ghost predicate Grows(s: State, t: State) {
    && (forall f :: f in s.owner ==> f in t.owner && t.owner[f] == s.owner[f])
    && (forall q :: q in s.requests ==> q in t.requests && t.requests[q].key == s.requests[q].key)
    && (forall f :: f in s.made ==> f in t.made && t.made[f] == s.made[f])
  }

  /** The request has built this for this key. */
  predicate HasBuilt(s: State, r: nat, key: Key, schema: Schema) {
    r in s.requests && s.requests[r].key == key && (s.requests[r].pc.Built? || s.requests[r].pc.Stored?)
    && s.requests[r].pc.schema == schema
  }

  /** What a request is answered with, or on its way to be. */
  function AnswerOf(pc: Pc): Option<Schema> {
    if pc.Popping? || pc.Signalling? || pc.Answered? then pc.result else None
  }

  predicate InCache(s: State, key: Key, schema: Schema) {
    key in s.cache && s.cache[key] == schema
  }

  predicate Stores(s: State, key: Key, schema: Schema) {
    InCache(s, key, schema) || (key in s.results && s.results[key] == schema)
  }

  /** Nothing is stored or answered that was not stored, answered or just built before. */
  ghost predicate CacheFrom(s: State, t: State) {
    forall k :: k in t.cache ==> (k in s.cache && s.cache[k] == t.cache[k]) || exists r :: HasBuilt(s, r, k, t.cache[k])
  }

  ghost predicate ResultsFrom(s: State, t: State) {
    forall k :: k in t.results ==> (k in s.results && s.results[k] == t.results[k]) || exists r :: HasBuilt(s, r, k, t.results[k])
  }

  ghost predicate AnswerFrom(s: State, t: State, r: nat)
    requires r in t.requests
  {
    var Request(key, pc) := t.requests[r];
    AnswerOf(pc).Some? ==>
      var schema := AnswerOf(pc).value;
      (r in s.requests && AnswerOf(s.requests[r].pc) == Some(schema)) || Stores(s, key, schema) || HasBuilt(s, r, key, schema)
  }

  /** Nor does a cache write come up that was not to come, but for a new flight. */
  ghost predicate WriteFrom(s: State, t: State, r: nat)
    requires r in t.requests
  {
    var pc := t.requests[r].pc;
    Unwritten(pc) ==>
      (r in s.requests && Unwritten(s.requests[r].pc) && s.requests[r].pc.flight == pc.flight) || pc.flight !in s.owner
  }

  ghost predicate Follows(s: State, t: State) {
    && Grows(s, t) && CacheFrom(s, t) && ResultsFrom(s, t)
    && forall r :: r in t.requests ==> AnswerFrom(s, t, r) && WriteFrom(s, t, r)
  }

  /** Everything but request `r` and what it owns is as it was, or has only grown. */
  ghost predicate Frame(s: State, t: State, r: nat) {
    && t.requests.Keys == s.requests.Keys + {r}
    && (forall q :: q in s.requests && q != r ==> t.requests[q] == s.requests[q])
    && (r in s.requests ==> t.requests[r].key == s.requests[r].key)
    && (forall q :: q in s.requests && q != r ==> (t.guard == Some(q) <==> s.guard == Some(q)))
    && (forall f :: f in s.owner ==> f in t.owner && t.owner[f] == s.owner[f])
    && (forall f :: f in t.owner && f !in s.owner ==> t.owner[f] == r && f !in t.signalled && f !in t.succeeded)
    && s.signalled <= t.signalled && (forall f :: f in t.signalled && f !in s.signalled ==> f in s.owner && s.owner[f] == r)
    && s.succeeded <= t.succeeded && (forall f :: f in t.succeeded && f !in s.succeeded ==> f in s.owner && s.owner[f] == r && f !in s.signalled)
    && t.outdated == s.outdated
    && (forall f :: f in s.made ==> f in t.made && t.made[f] == s.made[f])
    && (forall f :: f in t.made && f !in s.made ==> f in s.owner && s.owner[f] == r && f !in s.signalled)
    && s.built <= t.built
    && s.results.Keys <= t.results.Keys
    && (forall k :: k in s.inProgress && !(FlightOf(s, s.inProgress[k], k) && s.owner[s.inProgress[k]] == r) ==>
          k in t.inProgress && t.inProgress[k] == s.inProgress[k])
    && (forall k :: k in t.inProgress && !(k in s.inProgress && t.inProgress[k] == s.inProgress[k]) ==>
          t.inProgress[k] in t.owner && t.owner[t.inProgress[k]] == r && t.requests[r].key == k)
  }

  /** A step from `s` to `t` keeps the invariant, and brings up nothing that was not there or just built. */
  ghost predicate Keeps(s: State, t: State) {
    Inv(t) && Follows(s, t)
  }

  lemma OthersStayFine(s: State, t: State, r: nat, q: nat)
    requires Inv(s) && Frame(s, t, r) && q in s.requests && q != r
    ensures RequestFine(t, q)
  {
    assert RequestFine(s, q);
    var pc := s.requests[q].pc;
    if AwaitsFlight(pc) {
      assert FlightFine(s, pc.flight);
    }
    if pc.Answered? && !pc.from.Cached? {
      assert FlightFine(s, pc.from.flight);
    }
  }

  /** Nor do the flights of the others. */
  lemma OtherFlightsStayFine(s: State, t: State, r: nat, f: Flight)
    requires Inv(s) && Frame(s, t, r) && f in s.owner && s.owner[f] != r
    ensures FlightFine(t, f)
  {
    assert FlightFine(s, f);
  }

  /** What request `r` must see to: its own state, its own flights, and what it put into the caches. */
  ghost predicate Moved(s: State, t: State, r: nat)
    requires r in t.requests
  {
    var pc' := t.requests[r].pc;
    && RequestFine(t, r)
    && (r in s.requests ==>
          var pc := s.requests[r].pc;
          && !pc.Answered?
          && (Flying(pc) ==> (pc.flight in t.signalled && pc' == Answered(Made(t, pc.flight), Own(pc.flight))) || (Flying(pc') && pc'.flight == pc.flight))
          && (Registered(pc) ==> t.requests[r].key !in t.inProgress || (Registered(pc') && pc'.flight == pc.flight)))
    && (forall f :: f in t.owner && f !in s.owner ==> Registered(pc') && pc'.flight == f)
    && (forall k :: k in t.inProgress && k !in s.inProgress ==> Registered(pc') && pc'.flight == t.inProgress[k])
    && (forall k :: k in t.inProgress && k in s.inProgress ==> t.inProgress[k] == s.inProgress[k])
    && (forall f :: f in t.succeeded && f !in s.succeeded ==> t.requests[r].key in t.results)
    && (t.guard.Some? ==> t.guard == s.guard || t.guard == Some(r))
    && CacheFrom(s, t) && ResultsFrom(s, t) && AnswerFrom(s, t, r) && WriteFrom(s, t, r)
    && (forall k :: k in t.cache ==> (k in s.cache && t.cache[k] == s.cache[k]) || (k, t.cache[k]) in t.built)
    && (forall k :: k in t.results ==> (k in s.results && t.results[k] == s.results[k]) || (k, t.results[k]) in t.built)
  }

  lemma OwnFlightFine(s: State, t: State, r: nat, f: Flight)
    requires Inv(s) && Frame(s, t, r) && Moved(s, t, r) && f in t.owner && t.owner[f] == r
    ensures FlightFine(t, f)
  {
    if f in s.owner {
      assert FlightFine(s, f);
    }
  }

  lemma KeysStayFine(s: State, t: State, r: nat, k: Key)
    requires Inv(s) && Frame(s, t, r) && Moved(s, t, r)
    ensures KeyFine(t, k)
  {
    assert KeyFine(s, k);
  }

  lemma MoveKeeps(s: State, t: State, r: nat)
    requires Inv(s) && Frame(s, t, r) && Moved(s, t, r)
    ensures Keeps(s, t)
  {
    forall q: nat ensures RequestFine(t, q) {
      if q in s.requests && q != r {
        OthersStayFine(s, t, r, q);
      } else if q != r {
        assert RequestFine(s, q);
      }
    }
    forall f: Flight ensures FlightFine(t, f) {
      if f !in t.owner {
        assert FlightFine(s, f);
      } else if t.owner[f] != r {
        OtherFlightsStayFine(s, t, r, f);
      } else {
        OwnFlightFine(s, t, r, f);
      }
    }
    forall k: Key ensures KeyFine(t, k) {
      KeysStayFine(s, t, r, k);
    }
  }

  lemma ArriveKeeps(s: State, r: nat, key: Key, pc: Pc)
    requires Inv(s) && r !in s.requests
    requires pc.Missed? || (pc.Answered? && pc.result.Some? && pc.from.Cached? && InCache(s, key, pc.result.value))
    ensures Keeps(s, s.(requests := s.requests[r := Request(key, pc)]))
  {
    assert KeyFine(s, key);
    assert RequestFine(s, r);
    MoveKeeps(s, s.(requests := s.requests[r := Request(key, pc)]), r);
  }

  lemma GuardedHitKeeps(s: State, r: nat, schema: Schema)
    requires Inv(s) && At(s, r) && s.requests[r].pc.Missed? && InCache(s, s.requests[r].key, schema)
    ensures Keeps(s, Move(s, r, Answered(Some(schema), Cached)))
  {
    assert KeyFine(s, s.requests[r].key);
    assert RequestFine(s, r);
    MoveKeeps(s, Move(s, r, Answered(Some(schema), Cached)), r);
  }

  lemma GuardedMissKeeps(s: State, r: nat)
    requires Inv(s) && At(s, r) && s.requests[r].pc.Missed? && s.guard.None?
    ensures Keeps(s, Move(s, r, Registering).(guard := Some(r)))
  {
    assert RequestFine(s, r);
    MoveKeeps(s, Move(s, r, Registering).(guard := Some(r)), r);
  }

  lemma JoinKeeps(s: State, r: nat)
    requires Inv(s) && At(s, r) && s.requests[r].pc.Registering? && s.requests[r].key in s.inProgress
    ensures Keeps(s, Move(s, r, Waiting(s.inProgress[s.requests[r].key])).(guard := None))
  {
    assert RequestFine(s, r);
    assert KeyFine(s, s.requests[r].key);
    MoveKeeps(s, Move(s, r, Waiting(s.inProgress[s.requests[r].key])).(guard := None), r);
  }

  lemma RegisterFrame(s: State, r: nat, flight: Flight)
    requires Inv(s) && Can(s, Register(r, flight)) && s.requests[r].key !in s.inProgress
    ensures Frame(s, Step(s, Register(r, flight)), r)
  {
    assert RequestFine(s, r) && FlightFine(s, flight);
  }

  lemma RegisterKeeps(s: State, r: nat, flight: Flight)
    requires Inv(s) && Can(s, Register(r, flight)) && s.requests[r].key !in s.inProgress
    ensures Keeps(s, Step(s, Register(r, flight)))
  {
    assert RequestFine(s, r) && FlightFine(s, flight);
    RegisterFrame(s, r, flight);
    MoveKeeps(s, Step(s, Register(r, flight)), r);
  }

  lemma BuildKeeps(s: State, r: nat, schema: Schema)
    requires Inv(s) && Can(s, Build(r, Some(schema)))
    ensures Keeps(s, Step(s, Build(r, Some(schema))))
  {
    assert RequestFine(s, r);
    MoveKeeps(s, Step(s, Build(r, Some(schema))), r);
  }

  lemma BuildFailKeeps(s: State, r: nat)
    requires Inv(s) && At(s, r) && s.requests[r].pc.Building?
    ensures Keeps(s, Move(s, r, Popping(s.requests[r].pc.flight, None)))
  {
    assert RequestFine(s, r);
    MoveKeeps(s, Move(s, r, Popping(s.requests[r].pc.flight, None)), r);
  }

  lemma StoreResultKeeps(s: State, r: nat)
    requires Inv(s) && Can(s, StoreResult(r))
    ensures Keeps(s, Step(s, StoreResult(r)))
  {
    assert HasBuilt(s, r, s.requests[r].key, s.requests[r].pc.schema);
    assert RequestFine(s, r);
    MoveKeeps(s, Step(s, StoreResult(r)), r);
  }

  lemma PopKeeps(s: State, r: nat)
    requires Inv(s) && Can(s, Pop(r))
    ensures Keeps(s, Step(s, Pop(r)))
  {
    assert RequestFine(s, r);
    MoveKeeps(s, Step(s, Pop(r)), r);
  }

  lemma SignalKeeps(s: State, r: nat)
    requires Inv(s) && Can(s, Signal(r))
    ensures Keeps(s, Step(s, Signal(r)))
  {
    assert RequestFine(s, r);
    MoveKeeps(s, Step(s, Signal(r)), r);
  }

  lemma LookKeeps(s: State, r: nat)
    requires Inv(s) && Can(s, Look(r))
    ensures Keeps(s, Step(s, Look(r)))
  {
    assert RequestFine(s, r);
    assert FlightFine(s, s.requests[r].pc.flight) && KeyFine(s, s.requests[r].key);
    MoveKeeps(s, Step(s, Look(r)), r);
  }

  lemma StoreCacheKeeps(s: State, r: nat, down: bool)
    requires Inv(s) && Can(s, StoreCache(r, down))
    ensures Keeps(s, Step(s, StoreCache(r, down)))
  {
    assert HasBuilt(s, r, s.requests[r].key, s.requests[r].pc.schema);
    assert RequestFine(s, r);
    MoveKeeps(s, Step(s, StoreCache(r, down)), r);
  }

  /** The cache may lose anything at any time. */
  lemma CacheKeeps(s: State, cache: map<Key, Schema>)
    requires Inv(s) && forall k :: k in cache ==> k in s.cache && cache[k] == s.cache[k]
    ensures Keeps(s, s.(cache := cache))
  {
    var t := s.(cache := cache);
    forall r: nat ensures RequestFine(t, r) {
      assert RequestFine(s, r);
    }
    forall f: Flight ensures FlightFine(t, f) {
      assert FlightFine(s, f);
    }
    forall k: Key ensures KeyFine(t, k) {
      assert KeyFine(s, k);
    }
  }

  lemma WakeKeeps(s: State, r: nat)
    requires Inv(s) && At(s, r) && s.requests[r].pc.Waiting? && s.requests[r].pc.flight in s.signalled
    ensures Keeps(s, Move(s, r, Woken(s.requests[r].pc.flight)))
  {
    assert RequestFine(s, r);
    assert FlightFine(s, s.requests[r].pc.flight);
    MoveKeeps(s, Move(s, r, Woken(s.requests[r].pc.flight)), r);
  }

  lemma TimeOutKeeps(s: State, r: nat)
    requires Inv(s) && At(s, r) && s.requests[r].pc.Waiting?
    ensures Keeps(s, Move(s, r, TimedOut))
  {
    assert RequestFine(s, r);
    MoveKeeps(s, Move(s, r, TimedOut), r);
  }

  lemma WokenHitKeeps(s: State, r: nat, schema: Schema)
    requires Inv(s) && At(s, r) && s.requests[r].pc.Woken? && InCache(s, s.requests[r].key, schema)
    ensures Keeps(s, Move(s, r, Answered(Some(schema), Waited(s.requests[r].pc.flight))))
  {
    assert KeyFine(s, s.requests[r].key);
    assert RequestFine(s, r);
    MoveKeeps(s, Move(s, r, Answered(Some(schema), Waited(s.requests[r].pc.flight))), r);
  }

  lemma WokenMissKeeps(s: State, r: nat)
    requires Inv(s) && At(s, r) && s.requests[r].pc.Woken?
    ensures Keeps(s, Move(s, r, Looking(s.requests[r].pc.flight)))
  {
    assert RequestFine(s, r);
    MoveKeeps(s, Move(s, r, Looking(s.requests[r].pc.flight)), r);
  }

  lemma ClearResultsKeeps(s: State)
    requires Inv(s)
    ensures Keeps(s, s.(results := map[], outdated := s.succeeded))
  {
    var t := s.(results := map[], outdated := s.succeeded);
    forall r: nat ensures RequestFine(t, r) {
      assert RequestFine(s, r);
    }
    forall f: Flight ensures FlightFine(t, f) {
      assert FlightFine(s, f);
    }
    forall k: Key ensures KeyFine(t, k) {
      assert KeyFine(s, k);
    }
  }

  lemma StepKeeps(s: State, e: Event)
    requires Inv(s) && Can(s, e)
    ensures Keeps(s, Step(s, e))
  {
    match e
    case Arrive(r, key, down) =>
      var found := Read(s, key, down);
      ArriveKeeps(s, r, key, if found.Some? then Answered(found, Cached) else Missed);
    case GuardedRead(r, down) =>
      var found := Read(s, s.requests[r].key, down);
      if found.Some? { GuardedHitKeeps(s, r, found.value); } else { GuardedMissKeeps(s, r); }
    case WokenRead(r, down) =>
      var found := Read(s, s.requests[r].key, down);
      if found.Some? { WokenHitKeeps(s, r, found.value); } else { WokenMissKeeps(s, r); }
    case Register(r, flight) =>
      if s.requests[r].key in s.inProgress { JoinKeeps(s, r); } else { RegisterKeeps(s, r, flight); }
    case Build(r, result) =>
      if result.Some? { BuildKeeps(s, r, result.value); } else { BuildFailKeeps(s, r); }
    case StoreResult(r) => StoreResultKeeps(s, r);
    case StoreCache(r, down) => StoreCacheKeeps(s, r, down);
    case Pop(r) => PopKeeps(s, r);
    case Signal(r) => SignalKeeps(s, r);
    case Wake(r) => WakeKeeps(s, r);
    case TimeOut(r) => TimeOutKeeps(s, r);
    case Look(r) => LookKeeps(s, r);
    case ClearResults => ClearResultsKeeps(s);
    case ClearCache => CacheKeeps(s, map[]);
    case Expire(key) => CacheKeeps(s, s.cache - {key});
  }

  lemma {:induction false} RunKeeps(s: State, es: seq<Event>)
    requires Inv(s) && CanRun(s, es)
    ensures Inv(Run(s, es))
    decreases |es|
  {
    if es != [] {
      StepKeeps(s, es[0]);
      RunKeeps(Step(s, es[0]), es[1..]);
    }
  }

  /** At every moment of every run, a key has at most one builder. */
  lemma OneBuilderPerKey(es: seq<Event>, r: nat, q: nat)
    requires CanRun(INIT, es)
    requires var s := Run(INIT, es);
             && r in s.requests && q in s.requests && s.requests[r].key == s.requests[q].key
             && Registered(s.requests[r].pc) && Registered(s.requests[q].pc)
    ensures r == q
  {
    RunKeeps(INIT, es);
    var s := Run(INIT, es);
    assert RequestFine(s, r) && RequestFine(s, q);
  }

  /**
   A request that waits is never left behind: the event it waits for has been set, or the request
   that will set it is still on its way there, building for the same key.
   */
  lemma WaitersAreReleased(es: seq<Event>, r: nat)
    requires CanRun(INIT, es)
    requires var s := Run(INIT, es); r in s.requests && s.requests[r].pc.Waiting?
    ensures var s := Run(INIT, es);
            var flight := s.requests[r].pc.flight;
            && FlightOf(s, flight, s.requests[r].key)
            && (flight in s.signalled || Flying(s.requests[s.owner[flight]].pc))
  {
    RunKeeps(INIT, es);
    var s := Run(INIT, es);
    assert RequestFine(s, r) && FlightFine(s, s.requests[r].pc.flight);
  }

  /**
   Released by a build that succeeded, a request gets a schema, even when the cache write failed: it
   is answered with an error only when the build it waited for failed or the results were cleared in
   between, or when its own build failed. And whatever schema it gets was built for its own key.
   */
  lemma WaitersGetTheSchema(es: seq<Event>, r: nat)
    requires CanRun(INIT, es)
    requires var s := Run(INIT, es); r in s.requests && s.requests[r].pc.Answered?
    ensures var s := Run(INIT, es);
            var Request(key, Answered(result, from)) := s.requests[r];
            && (result.Some? ==> (key, result.value) in s.built)
            && (result.None? ==>
                  match from
                  case Cached => false
                  case Waited(f) => f !in s.succeeded || f in s.outdated
                  case Own(f) => f in s.owner && s.owner[f] == r && f !in s.made)
  {
    RunKeeps(INIT, es);
    assert RequestFine(Run(INIT, es), r);
  }

  /** A request that builds is answered with the schema its own build returned, and with an error if that failed. */
  lemma BuildersGetTheirOwn(es: seq<Event>, f: Flight)
    requires CanRun(INIT, es) && f in Run(INIT, es).owner
    ensures var s := Run(INIT, es);
            s.owner[f] in s.requests
    ensures var s := Run(INIT, es);
            var pc := s.requests[s.owner[f]].pc;
            pc.Answered? ==> f in s.signalled && (f in s.succeeded <==> f in s.made)
                             && pc.result == if f in s.made then Some(s.made[f]) else None
  {
    RunKeeps(INIT, es);
    var s := Run(INIT, es);
    assert FlightFine(s, f);
    assert RequestFine(s, s.owner[f]);
  }

  /** A read that reaches the cache and finds the key answers the request there and then. */
  lemma CachedIsServed(s: State, e: Event)
    requires Can(s, e) && ((e.Arrive? && !e.down) || (e.GuardedRead? && !e.down) || (e.WokenRead? && !e.down))
    ensures var t := Step(s, e);
            && e.r in t.requests
            && var Request(key, pc) := t.requests[e.r];
               key in s.cache ==> pc.Answered? && pc.result == Some(s.cache[key])
  {
    match e
    case Arrive(_, _, _) =>
    case GuardedRead(_, _) =>
    case WokenRead(_, _) =>
  }

  // ----- what clearing reaches

  /** At `past` the flight had not been made, or its cache write was still to come. */
  predicate StillToCome(past: State, f: Flight) {
    f in past.owner ==> past.owner[f] in past.requests && Unwritten(past.requests[past.owner[f]].pc)
  }

  /** This schema was built for this key by a flight whose cache write was still to come past. */
  predicate MadeBy(past: State, s: State, f: Flight, key: Key, schema: Schema) {
    FlightOf(s, f, key) && f in s.made && s.made[f] == schema && StillToCome(past, f)
  }

  ghost predicate MadeSince(past: State, s: State, key: Key, schema: Schema) {
    exists f :: MadeBy(past, s, f, key, schema)
  }

  lemma StillMade(past: State, s: State, t: State, key: Key, schema: Schema)
    requires Grows(s, t) && MadeSince(past, s, key, schema)
    ensures MadeSince(past, t, key, schema)
  {
    var f :| MadeBy(past, s, f, key, schema);
    assert MadeBy(past, t, f, key, schema);
  }

  /** Since `past`: whoever still has its cache write to come had so then, and no result is older. */
  ghost predicate ResultsSince(past: State, s: State) {
    && (forall f :: f in past.owner ==> f in s.owner && s.owner[f] == past.owner[f])
    && (forall r :: r in s.requests && Unwritten(s.requests[r].pc) ==> StillToCome(past, s.requests[r].pc.flight))
    && (forall k :: k in s.results ==> MadeSince(past, s, k, s.results[k]))
  }

  lemma JustBuilt(past: State, s: State, r: nat, key: Key, schema: Schema)
    requires Inv(s) && ResultsSince(past, s) && HasBuilt(s, r, key, schema)
    ensures MadeSince(past, s, key, schema)
  {
    assert RequestFine(s, r);
    assert MadeBy(past, s, s.requests[r].pc.flight, key, schema);
  }

  lemma ResultsStaySince(past: State, s: State, t: State)
    requires Inv(s) && Follows(s, t) && ResultsSince(past, s)
    ensures ResultsSince(past, t)
  {
    forall k | k in t.results ensures MadeSince(past, t, k, t.results[k]) {
      if r :| HasBuilt(s, r, k, t.results[k]) {
        JustBuilt(past, s, r, k, t.results[k]);
      }
      StillMade(past, s, t, k, t.results[k]);
    }
    forall r | r in t.requests && Unwritten(t.requests[r].pc) ensures StillToCome(past, t.requests[r].pc.flight) {
      assert WriteFrom(s, t, r);
    }
  }

  lemma {:induction false} ResultsKeepSince(past: State, s: State, es: seq<Event>)
    requires Inv(s) && CanRun(s, es) && ResultsSince(past, s)
    ensures ResultsSince(past, Run(s, es))
    decreases |es|
  {
    if es != [] {
      StepKeeps(s, es[0]);
      ResultsStaySince(past, s, Step(s, es[0]));
      ResultsKeepSince(past, Step(s, es[0]), es[1..]);
    }
  }

  /** A request that was not there at `cleared` has been answered, or is about to be, with nothing older. */
  ghost predicate AnswerSince(past: State, cleared: State, s: State, r: nat)
    requires r in s.requests
  {
    var Request(key, pc) := s.requests[r];
    r !in cleared.requests && AnswerOf(pc).Some? ==> MadeSince(past, s, key, AnswerOf(pc).value)
  }

  ghost predicate AllSince(past: State, cleared: State, s: State) {
    && ResultsSince(past, s)
    && (forall k :: k in s.cache ==> MadeSince(past, s, k, s.cache[k]))
    && (forall r :: r in s.requests ==> AnswerSince(past, cleared, s, r))
  }

  lemma AnswersStaySince(past: State, cleared: State, s: State, t: State, r: nat)
    requires Inv(s) && Follows(s, t) && AllSince(past, cleared, s) && r in t.requests
    ensures AnswerSince(past, cleared, t, r)
  {
    var Request(key, pc) := t.requests[r];
    if r !in cleared.requests && AnswerOf(pc).Some? {
      var schema := AnswerOf(pc).value;
      assert AnswerFrom(s, t, r);
      if HasBuilt(s, r, key, schema) {
        JustBuilt(past, s, r, key, schema);
      } else if !Stores(s, key, schema) {
        assert AnswerSince(past, cleared, s, r);
      }
      StillMade(past, s, t, key, schema);
    }
  }

  lemma AllStaySince(past: State, cleared: State, s: State, t: State)
    requires Inv(s) && Follows(s, t) && AllSince(past, cleared, s)
    ensures AllSince(past, cleared, t)
  {
    ResultsStaySince(past, s, t);
    forall k | k in t.cache ensures MadeSince(past, t, k, t.cache[k]) {
      if r :| HasBuilt(s, r, k, t.cache[k]) {
        JustBuilt(past, s, r, k, t.cache[k]);
      }
      StillMade(past, s, t, k, t.cache[k]);
    }
    forall r | r in t.requests ensures AnswerSince(past, cleared, t, r) {
      AnswersStaySince(past, cleared, s, t, r);
    }
  }

  lemma {:induction false} AllKeepSince(past: State, cleared: State, s: State, es: seq<Event>)
    requires Inv(s) && CanRun(s, es) && AllSince(past, cleared, s)
    ensures AllSince(past, cleared, Run(s, es))
    decreases |es|
  {
    if es != [] {
      StepKeeps(s, es[0]);
      AllStaySince(past, cleared, s, Step(s, es[0]));
      AllKeepSince(past, cleared, Step(s, es[0]), es[1..]);
    }
  }

  lemma JustCleared(past: State)
    requires Inv(past) && past.results == map[]
    ensures ResultsSince(past, past)
  {
    forall q | q in past.requests && Unwritten(past.requests[q].pc) ensures StillToCome(past, past.requests[q].pc.flight) {
      assert RequestFine(past, q);
    }
  }

  lemma CacheCleared(past: State, before: State, rest: seq<Event>, r: nat)
    requires Inv(before) && ResultsSince(past, before) && CanRun(Step(before, ClearCache), rest)
    ensures var cleared := Step(before, ClearCache);
            r in Run(cleared, rest).requests ==> AnswerSince(past, cleared, Run(cleared, rest), r)
  {
    var cleared := Step(before, ClearCache);
    StepKeeps(before, ClearCache);
    ResultsStaySince(past, before, cleared);
    AllKeepSince(past, cleared, cleared, rest);
  }

  /**
   Clearing reaches everything stored: a request that arrives after `clear_schema_cache` (its two
   steps at `es` and after `mid`) is only ever answered with a schema whose cache write was still to
   come when the results were cleared.
   */
  lemma NothingOldAfterAClear(es: seq<Event>, mid: seq<Event>, rest: seq<Event>, r: nat)
    requires CanRun(INIT, es) && Can(Run(INIT, es), ClearResults)
    requires CanRun(Step(Run(INIT, es), ClearResults), mid)
    requires CanRun(Step(Run(Step(Run(INIT, es), ClearResults), mid), ClearCache), rest)
    ensures var past := Step(Run(INIT, es), ClearResults);
            var cleared := Step(Run(past, mid), ClearCache);
            var s := Run(cleared, rest);
            r in s.requests && r !in cleared.requests && s.requests[r].pc.Answered? && s.requests[r].pc.result.Some? ==>
              MadeSince(past, s, s.requests[r].key, s.requests[r].pc.result.value)
  {
    var past := Step(Run(INIT, es), ClearResults);
    RunKeeps(INIT, es);
    StepKeeps(Run(INIT, es), ClearResults);
    JustCleared(past);
    ResultsKeepSince(past, past, mid);
    RunKeeps(past, mid);
    CacheCleared(past, Run(past, mid), rest, r);
  }

  // ----- how often a schema is built

  /** Nothing goes wrong and nothing is thrown away. */
  predicate FaultFree(e: Event) {
    match e
    case Arrive(_, _, down) => !down
    case GuardedRead(_, down) => !down
    case StoreCache(_, down) => !down
    case WokenRead(_, down) => !down
    case Build(_, result) => result.Some?
    case ClearResults => false
    case ClearCache => false
    case Expire(_) => false
    case _ => true
  }

  ghost predicate BuiltOnce(s: State) {
    && (forall i, j :: 0 <= i < j < |s.starts| ==> s.starts[i] != s.starts[j])
    && (forall k :: k in s.starts ==> k in s.cache || k in s.inProgress)
    && (forall r :: r in s.requests && s.requests[r].pc.Registering? && s.requests[r].key in s.starts ==>
          s.requests[r].key in s.inProgress)
    && (forall r :: r in s.requests && s.requests[r].pc.Popping? ==> s.requests[r].key in s.cache)
  }

  lemma NewBuildsOnce(s: State, e: Event)
    requires Inv(s) && BuiltOnce(s) && Can(s, e) && e.Register? && s.requests[e.r].key !in s.inProgress
    ensures BuiltOnce(Step(s, e))
  {
    var t := Step(s, e);
    forall r | r in s.requests && r != e.r ensures !t.requests[r].pc.Registering? {
      assert RequestFine(s, r);
    }
  }

  lemma RegisterBuildsOnce(s: State, e: Event)
    requires Inv(s) && BuiltOnce(s) && Can(s, e) && e.Register?
    ensures BuiltOnce(Step(s, e))
  {
    if s.requests[e.r].key in s.inProgress {
      MoveBuildsOnce(s, Step(s, e), e.r);
    } else {
      NewBuildsOnce(s, e);
    }
  }

  lemma PopBuildsOnce(s: State, e: Event)
    requires Inv(s) && BuiltOnce(s) && Can(s, e) && e.Pop?
    ensures BuiltOnce(Step(s, e))
  {
    var t := Step(s, e);
    forall r | r in s.requests ensures !t.requests[r].pc.Registering? {
      assert RequestFine(s, r);
    }
  }

  /** Any other step: nothing started, nothing popped, nothing lost from the cache. */
  lemma MoveBuildsOnce(s: State, t: State, r: nat)
    requires BuiltOnce(s)
    requires t.starts == s.starts && t.inProgress == s.inProgress && s.cache.Keys <= t.cache.Keys
    requires r in t.requests && t.requests.Keys == s.requests.Keys + {r}
    requires forall q :: q in s.requests && q != r ==> t.requests[q] == s.requests[q]
    requires t.requests[r].pc.Registering? ==> t.requests[r].key !in s.cache
    requires t.requests[r].pc.Popping? ==> t.requests[r].key in t.cache
    ensures BuiltOnce(t)
  {
  }

  lemma StepBuildsOnce(s: State, e: Event)
    requires Inv(s) && BuiltOnce(s) && Can(s, e) && FaultFree(e)
    ensures BuiltOnce(Step(s, e))
  {
    match e
    case Register(_, _) => RegisterBuildsOnce(s, e);
    case Pop(_) => PopBuildsOnce(s, e);
    case Arrive(r, key, _) => ArriveBuildsOnce(s, r, key);
    case GuardedRead(r, _) => GuardedReadBuildsOnce(s, r);
    case WokenRead(r, _) => WokenReadBuildsOnce(s, r);
    case _ => LaterBuildsOnce(s, e);
  }

  lemma ArriveBuildsOnce(s: State, r: nat, key: Key)
    requires BuiltOnce(s) && Can(s, Arrive(r, key, false))
    ensures BuiltOnce(Step(s, Arrive(r, key, false)))
  {
    MoveBuildsOnce(s, Step(s, Arrive(r, key, false)), r);
  }

  lemma GuardedReadBuildsOnce(s: State, r: nat)
    requires BuiltOnce(s) && Can(s, GuardedRead(r, false))
    ensures BuiltOnce(Step(s, GuardedRead(r, false)))
  {
    if s.requests[r].key in s.cache {
      MoveBuildsOnce(s, Move(s, r, Answered(Some(s.cache[s.requests[r].key]), Cached)), r);
    } else {
      MoveBuildsOnce(s, Move(s, r, Registering).(guard := Some(r)), r);
    }
  }

  lemma WokenReadBuildsOnce(s: State, r: nat)
    requires BuiltOnce(s) && Can(s, WokenRead(r, false))
    ensures BuiltOnce(Step(s, WokenRead(r, false)))
  {
    MoveBuildsOnce(s, Step(s, WokenRead(r, false)), r);
  }

  lemma LaterBuildsOnce(s: State, e: Event)
    requires BuiltOnce(s) && Can(s, e) && FaultFree(e)
    requires e.Build? || e.StoreResult? || e.StoreCache? || e.Signal? || e.Wake? || e.TimeOut? || e.Look?
    ensures BuiltOnce(Step(s, e))
  {
    MoveBuildsOnce(s, Step(s, e), e.r);
  }

  lemma {:induction false} RunBuildsOnce(s: State, es: seq<Event>)
    requires Inv(s) && BuiltOnce(s) && CanRun(s, es)
    requires forall i :: 0 <= i < |es| ==> FaultFree(es[i])
    ensures BuiltOnce(Run(s, es))
    decreases |es|
  {
    if es != [] {
      StepKeeps(s, es[0]);
      StepBuildsOnce(s, es[0]);
      RunBuildsOnce(Step(s, es[0]), es[1..]);
    }
  }

  /** However many requests race, each schema is built once. */
  lemma EachSchemaIsBuiltOnce(es: seq<Event>)
    requires CanRun(INIT, es)
    requires forall i :: 0 <= i < |es| ==> FaultFree(es[i])
    ensures var s := Run(INIT, es);
            forall i, j :: 0 <= i < j < |s.starts| ==> s.starts[i] != s.starts[j]
  {
    RunBuildsOnce(INIT, es);
  }
}
