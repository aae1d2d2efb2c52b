/** The generation-counter cache of one namespace, with any number of readers racing the
    writers.

    A read is cut where others can come between: reading the counter, GET, the loader's
    start and its query, and the late SET.  `clock` counts events and `db` counts committed
    writes; an entry records when its loader began and which database it saw, which the
    cache itself does not. */
module CacheProtocol {
  import opened Outcomes

  datatype Entry = Entry(loadStart: nat, data: nat)

  datatype Key = Key(version: nat, suffix: nat)

  datatype Phase =
    | Idle
    | Versioned(started: nat, version: nat)
    | Missed(started: nat, version: nat)
    | Loading(started: nat, version: nat, loadStart: nat)
    | Loaded(started: nat, version: nat, entry: Entry)
    | Returned(started: nat, entry: Entry)
    | Raised

  datatype Reader = Reader(suffix: nat, phase: Phase)

  datatype System = System(counter: Option<nat>, store: map<Key, Entry>, db: nat, clock: nat, readers: seq<Reader>)

  datatype Event =
    | ReadVersion(reader: nat) | Get(reader: nat) | StartLoad(reader: nat) | Query(reader: nat)
    | Store(reader: nat) | LoaderFails(reader: nat)
    | CommitWrite | Bump | Evict(key: Key)

  /** A missing counter reads as generation 1. */
  function Generation(counter: Option<nat>): nat { if counter.Some? then counter.value else 1 }

  /** INCR, which takes a missing counter for zero. */
  function Incremented(counter: Option<nat>): Option<nat> {
    Some(if counter.Some? then counter.value + 1 else 1)
  }

  /** One read's own step, and the store it leaves. */
  function ReaderStep(s: System, r: Reader, e: Event): (Phase, map<Key, Entry>) {
    match e
    case ReadVersion(_) =>
      (if r.phase.Idle? then Versioned(s.clock, Generation(s.counter)) else r.phase, s.store)
    case Get(_) =>
      if !r.phase.Versioned? then (r.phase, s.store)
      else
        var key := Key(r.phase.version, r.suffix);
        (if key in s.store then Returned(r.phase.started, s.store[key]) else Missed(r.phase.started, r.phase.version),
         s.store)
    case StartLoad(_) =>
      (if r.phase.Missed? then Loading(r.phase.started, r.phase.version, s.clock) else r.phase, s.store)
    case Query(_) =>
      (if r.phase.Loading? then Loaded(r.phase.started, r.phase.version, Entry(r.phase.loadStart, s.db)) else r.phase,
       s.store)
    case Store(_) =>
      if !r.phase.Loaded? then (r.phase, s.store)
      else (Returned(r.phase.started, r.phase.entry), s.store[Key(r.phase.version, r.suffix) := r.phase.entry])
    case LoaderFails(_) => (if r.phase.Loading? then Raised else r.phase, s.store)
    case _ => (r.phase, s.store)
  }

  predicate ByReader(e: Event) { !e.CommitWrite? && !e.Bump? && !e.Evict? }

  function Next(s: System, e: Event): System {
    var t := s.(clock := s.clock + 1);
    match e
    case CommitWrite => t.(db := s.db + 1)
    case Bump => t.(counter := Incremented(s.counter))
    case Evict(key) => t.(store := s.store - {key})
    case _ =>
      if e.reader >= |s.readers| then t
      else
        var r := s.readers[e.reader];
        var (phase, store) := ReaderStep(s, r, e);
        t.(readers := s.readers[e.reader := r.(phase := phase)], store := store)
  }

  function Run(s: System, events: seq<Event>): System
    decreases |events|
  {
    if events == [] then s else Run(Next(s, events[0]), events[1..])
  }

  // ------------------------------------------------------------ versions

  function VersionOf(phase: Phase): Option<nat> {
    if phase.Versioned? || phase.Missed? || phase.Loading? || phase.Loaded? then Some(phase.version) else None
  }

  predicate Begun(phase: Phase, before: nat) {
    phase.Idle? || phase.Raised? || phase.started < before
  }

  /** Nothing is filed under a generation that has not been reached. */
  ghost predicate WellFormed(s: System) {
    && (forall key :: key in s.store ==> key.version <= Generation(s.counter))
    && (forall i :: 0 <= i < |s.readers| ==>
          Begun(s.readers[i].phase, s.clock)
          && (VersionOf(s.readers[i].phase).Some? ==> VersionOf(s.readers[i].phase).value <= Generation(s.counter)))
  }

  lemma NextWellFormed(s: System, e: Event)
    requires WellFormed(s)
    ensures WellFormed(Next(s, e))
  {
  }

  lemma {:induction false} RunWellFormed(s: System, events: seq<Event>)
    requires WellFormed(s)
    ensures WellFormed(Run(s, events))
    decreases |events|
  {
    if events != [] {
      NextWellFormed(s, events[0]);
      RunWellFormed(Next(s, events[0]), events[1..]);
    }
  }

  // ----------------------------------------------------------- freshness

  /** Loaded after the bump at time `at`, from a database no older than `data`. */
  predicate FreshSince(entry: Entry, at: nat, data: nat) { entry.loadStart > at && entry.data >= data }

  predicate ReaderFresh(phase: Phase, version: nat, at: nat, data: nat) {
    match phase
    case Versioned(started, v) => started > at ==> v >= version
    case Missed(started, v) => started > at ==> v >= version
    case Loading(started, v, loadStart) => (started > at ==> v >= version) && (v >= version ==> loadStart > at)
    case Loaded(started, v, entry) => (started > at ==> v >= version) && (v >= version ==> FreshSince(entry, at, data))
    case Returned(started, entry) => started > at ==> FreshSince(entry, at, data)
    case _ => true
  }

  /** What one effective bump leaves behind it for ever. */
  ghost predicate FreshFrom(s: System, version: nat, at: nat, data: nat) {
    && s.clock > at && s.db >= data && s.counter.Some? && s.counter.value >= version
    && (forall key :: key in s.store && key.version >= version ==> FreshSince(s.store[key], at, data))
    && (forall i :: 0 <= i < |s.readers| ==> ReaderFresh(s.readers[i].phase, version, at, data))
  }

  lemma BumpStartsFresh(s: System)
    requires WellFormed(s) && s.counter.Some?
    ensures FreshFrom(Next(s, Bump), s.counter.value + 1, s.clock, s.db)
  {
  }

  lemma ReaderStepFresh(s: System, i: nat, e: Event, version: nat, at: nat, data: nat)
    requires FreshFrom(s, version, at, data) && i < |s.readers|
    ensures var (phase, store) := ReaderStep(s, s.readers[i], e);
            && ReaderFresh(phase, version, at, data)
            && forall key :: key in store && key.version >= version ==> FreshSince(store[key], at, data)
  {
  }

  lemma NextFresh(s: System, e: Event, version: nat, at: nat, data: nat)
    requires FreshFrom(s, version, at, data)
    ensures FreshFrom(Next(s, e), version, at, data)
  {
    if ByReader(e) && e.reader < |s.readers| { ReaderStepFresh(s, e.reader, e, version, at, data); }
  }

  lemma {:induction false} RunFresh(s: System, events: seq<Event>, version: nat, at: nat, data: nat)
    requires FreshFrom(s, version, at, data)
    ensures FreshFrom(Run(s, events), version, at, data)
    decreases |events|
  {
    if events != [] {
      NextFresh(s, events[0], version, at, data);
      RunFresh(Next(s, events[0]), events[1..], version, at, data);
    }
  }

  lemma {:induction false} RunSplit(s: System, events: seq<Event>, k: nat)
    requires k < |events|
    ensures Run(s, events) == Run(Next(Run(s, events[..k]), events[k]), events[k + 1..])
    ensures Run(s, events[..k]).clock == s.clock + k
    decreases k
  {
    if k == 0 {
      assert events[..0] == [];
    } else {
      var rest := events[1..];
      RunSplit(Next(s, events[0]), rest, k - 1);
      assert events[..k][0] == events[0] && events[..k][1..] == rest[..k - 1];
      assert rest[k - 1 + 1..] == events[k + 1..];
    }
  }

  /** Under any interleaving: when event k is a bump that finds the counter there, a read
      that starts after it returns nothing whose loader began before it, and nothing older
      than the writes committed before it, however late slow readers store. */
  lemma FreshAfterBump(s: System, events: seq<Event>, k: nat, i: nat)
    requires WellFormed(s) && k < |events| && events[k] == Bump && Run(s, events[..k]).counter.Some?
    requires var e := Run(s, events);
             i < |e.readers| && e.readers[i].phase.Returned? && e.readers[i].phase.started > s.clock + k
    ensures FreshSince(Run(s, events).readers[i].phase.entry, s.clock + k, Run(s, events[..k]).db)
  {
    var before := Run(s, events[..k]);
    RunSplit(s, events, k);
    RunWellFormed(s, events[..k]);
    BumpStartsFresh(before);
    RunFresh(Next(before, Bump), events[k + 1..], before.counter.value + 1, before.clock, before.db);
  }

  /** Once there, the counter stays, so only the first bump of a namespace can find none. */
  lemma {:induction false} CounterStays(s: System, events: seq<Event>)
    requires s.counter.Some? || Bump in events
    ensures Run(s, events).counter.Some? && (s.counter.Some? ==> Run(s, events).counter.value >= s.counter.value)
    decreases |events|
  {
    if events != [] {
      if s.counter.None? && events[0] != Bump { assert Bump in events[1..]; }
      CounterStays(Next(s, events[0]), events[1..]);
    }
  }

  // ---------------------------------------------------- undisturbed reads

  lemma RunTwo(s: System, e: Event, f: Event)
    ensures Run(s, [e, f]) == Next(Next(s, e), f)
  {
    assert [e, f][1..] == [f] && [f][1..] == [];
    assert Run(Next(s, e), [f]) == Run(Next(Next(s, e), f), []);
  }

  /** A read that finds its key returns what was stored. */
  lemma ReadHits(s: System, i: nat, key: Key)
    requires i < |s.readers| && s.readers[i].phase.Idle?
    requires key == Key(Generation(s.counter), s.readers[i].suffix) && key in s.store
    ensures var e := Run(s, [ReadVersion(i), Get(i)]);
            |e.readers| == |s.readers| && e.readers[i].phase == Returned(s.clock, s.store[key]) && e.db == s.db
  {
    RunTwo(s, ReadVersion(i), Get(i));
    var versioned := Next(s, ReadVersion(i));
    assert versioned.readers[i].phase == Versioned(s.clock, key.version) && versioned.store == s.store;
  }

  lemma ReadMisses(s: System, i: nat, key: Key)
    requires i < |s.readers| && s.readers[i].phase.Idle?
    requires key == Key(Generation(s.counter), s.readers[i].suffix) && key !in s.store
    ensures Run(s, [ReadVersion(i), Get(i)])
         == s.(clock := s.clock + 2, readers := s.readers[i := s.readers[i].(phase := Missed(s.clock, key.version))])
  {
    RunTwo(s, ReadVersion(i), Get(i));
    var versioned := Next(s, ReadVersion(i));
    assert versioned.readers[i].phase == Versioned(s.clock, key.version) && versioned.store == s.store;
  }

  /** A missed read loads what the database holds, returns it and files it under the
      generation it read. */
  lemma LoadsAndStores(s: System, i: nat, started: nat, version: nat)
    requires i < |s.readers| && s.readers[i].phase == Missed(started, version)
    ensures var e := Next(Next(Next(s, StartLoad(i)), Query(i)), Store(i));
            && |e.readers| == |s.readers| && e.readers[i].phase == Returned(started, Entry(s.clock, s.db))
            && e.store == s.store[Key(version, s.readers[i].suffix) := Entry(s.clock, s.db)] && e.counter == s.counter
  {
    var loading := Next(s, StartLoad(i));
    assert loading.readers[i] == s.readers[i].(phase := Loading(started, version, s.clock));
    var loaded := Next(loading, Query(i));
    assert loaded.readers[i] == s.readers[i].(phase := Loaded(started, version, Entry(s.clock, s.db)));
  }

  /** So an undisturbed read that misses returns the database's current data, and the next
      read of the key hits it. */
  lemma ReadLoadsAndStores(s: System, i: nat, key: Key)
    requires i < |s.readers| && s.readers[i].phase.Idle?
    requires key == Key(Generation(s.counter), s.readers[i].suffix) && key !in s.store
    ensures var e := Next(Next(Next(Run(s, [ReadVersion(i), Get(i)]), StartLoad(i)), Query(i)), Store(i));
            && |e.readers| == |s.readers| && e.counter == s.counter
            && e.readers[i].phase == Returned(s.clock, Entry(s.clock + 2, s.db))
            && e.store == s.store[key := Entry(s.clock + 2, s.db)]
  {
    ReadMisses(s, i, key);
    LoadsAndStores(Run(s, [ReadVersion(i), Get(i)]), i, s.clock, key.version);
  }

  /** A read goes on with the generation it read first, whatever the counter says by then. */
  lemma ReadKeepsItsGeneration(s: System, i: nat, started: nat, version: nat)
    requires i < |s.readers| && s.readers[i].phase == Versioned(started, version)
    ensures var e, key := Next(s, Get(i)), Key(version, s.readers[i].suffix);
            && |e.readers| == |s.readers| && e.store == s.store
            && e.readers[i].phase
               == if key in s.store then Returned(started, s.store[key]) else Missed(started, version)
  {
  }

  /** A loader that fails stores nothing, and its read ends there. */
  lemma {:induction false} FailureEndsTheRead(s: System, i: nat, events: seq<Event>)
    requires i < |s.readers| && (s.readers[i].phase.Loading? || s.readers[i].phase.Raised?)
    ensures Next(s, LoaderFails(i)).store == s.store
    ensures var e := Run(Next(s, LoaderFails(i)), events); i < |e.readers| && e.readers[i].phase == Raised
    decreases |events|
  {
    RaisedStays(Next(s, LoaderFails(i)), i, events);
  }

  lemma {:induction false} RaisedStays(s: System, i: nat, events: seq<Event>)
    requires i < |s.readers| && s.readers[i].phase.Raised?
    ensures var e := Run(s, events); i < |e.readers| && e.readers[i].phase == Raised
    decreases |events|
  {
    if events != [] { RaisedStays(Next(s, events[0]), i, events[1..]); }
  }

  // ---------------------------------------------------- the first bump

  /** A bump moves readers to another generation if and only if the counter exists: a
      missing one already reads as the 1 that INCR then writes. */
  lemma BumpMovesIff(counter: Option<nat>)
    ensures Generation(Incremented(counter)) != Generation(counter) <==> counter.Some?
  {
  }

  /** So the first bump of a namespace invalidates nothing: a read begun after it, and after
      the write it announces, still gets the entry loaded before either. */
  lemma FirstBumpInvalidatesNothing(s: System, i: nat, key: Key)
    requires s.counter.None? && i < |s.readers| && s.readers[i].phase.Idle?
    requires key == Key(1, s.readers[i].suffix) && key in s.store && s.store[key].data <= s.db
    ensures var announced := Run(s, [CommitWrite, Bump]);
            var e := Run(announced, [ReadVersion(i), Get(i)]);
            && i < |e.readers| && e.readers[i].phase == Returned(announced.clock, s.store[key])
            && s.store[key].data < e.db
  {
    RunTwo(s, CommitWrite, Bump);
    ReadHits(Run(s, [CommitWrite, Bump]), i, key);
  }
}
