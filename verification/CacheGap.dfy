/** Writers that bump before they commit, as a decision on an approval round does: what the
    reads in between leave behind. */
module CacheGap {
  import opened CacheProtocol

  /** Nobody has seen a database that is not there yet. */
  ghost predicate Past(s: System) {
    && (forall key :: key in s.store ==> s.store[key].data <= s.db)
    && (forall i :: 0 <= i < |s.readers| ==> PhasePast(s.readers[i].phase, s.db))
  }

  predicate PhasePast(phase: Phase, db: nat) { (phase.Loaded? || phase.Returned?) ==> phase.entry.data <= db }

  lemma NextPast(s: System, e: Event)
    requires Past(s)
    ensures Past(Next(s, e))
  {
  }

  lemma {:induction false} RunPast(s: System, events: seq<Event>)
    requires Past(s)
    ensures Past(Run(s, events))
    decreases |events|
  {
    if events != [] {
      NextPast(s, events[0]);
      RunPast(Next(s, events[0]), events[1..]);
    }
  }

  /** One read from start to end with nobody in between. */
  function ReadAlone(s: System, i: nat): System {
    var got := Run(s, [ReadVersion(i), Get(i)]);
    if i < |got.readers| && got.readers[i].phase.Returned? then got
    else Next(Next(Next(got, StartLoad(i)), Query(i)), Store(i))
  }

  /** It returns what is filed under its key, or else what the database holds. */
  lemma ReadAloneReturns(s: System, i: nat, key: Key)
    requires i < |s.readers| && s.readers[i].phase.Idle? && key == Key(Generation(s.counter), s.readers[i].suffix)
    ensures var e := ReadAlone(s, i);
            && i < |e.readers| && e.readers[i].phase.Returned?
            && e.readers[i].phase.entry.data == if key in s.store then s.store[key].data else s.db
  {
    if key in s.store {
      ReadHits(s, i, key);
    } else {
      ReadMisses(s, i, key);
      ReadLoadsAndStores(s, i, key);
    }
  }

  /** The state a writer leaves that bumps, lets `gap` happen and then commits. */
  function BumpedThenCommitted(s: System, gap: seq<Event>): System { Next(Run(Next(s, Bump), gap), CommitWrite) }

  /** After such a write the next undisturbed read misses it if and only if its key was filed
      under the new generation in the gap, before the commit. */
  lemma StaleIffFiledInTheGap(s: System, gap: seq<Event>, j: nat, key: Key)
    requires WellFormed(s) && Past(s) && s.counter.Some?
    requires var e := BumpedThenCommitted(s, gap);
             j < |e.readers| && e.readers[j].phase.Idle? && key == Key(Generation(e.counter), e.readers[j].suffix)
    ensures var e := BumpedThenCommitted(s, gap);
            var read := ReadAlone(e, j);
            && j < |read.readers| && read.readers[j].phase.Returned?
            && (read.readers[j].phase.entry.data < e.db <==> key in Run(Next(s, Bump), gap).store)
            && key !in s.store
  {
    var bumped := Next(s, Bump);
    NextPast(s, Bump);
    RunPast(bumped, gap);
    CounterStays(bumped, gap);
    ReadAloneReturns(BumpedThenCommitted(s, gap), j, key);
  }

  /** It happens whenever one read runs in the gap: the data it loads outlives the write. */
  lemma ReadInTheGapGoesStale(s: System, i: nat, j: nat)
    requires WellFormed(s) && Past(s) && s.counter.Some? && i < |s.readers| && j < |s.readers| && i != j
    requires s.readers[i].phase.Idle? && s.readers[j].phase.Idle? && s.readers[i].suffix == s.readers[j].suffix
    ensures var e := Next(ReadAlone(Next(s, Bump), i), CommitWrite);
            var read := ReadAlone(e, j);
            j < |read.readers| && read.readers[j].phase.Returned? && read.readers[j].phase.entry.data == s.db < e.db
  {
    var bumped := Next(s, Bump);
    var key := Key(Generation(bumped.counter), s.readers[i].suffix);
    assert key !in bumped.store;
    ReadMisses(bumped, i, key);
    ReadLoadsAndStores(bumped, i, key);
    OthersUntouched(bumped, i, j);
    ReadAloneReturns(Next(ReadAlone(bumped, i), CommitWrite), j, key);
  }

  /** A read still holding its load when the write commits does the same: what it stores
      afterwards outlives the write, for itself and for every later read of the key. */
  lemma LateStoreGoesStale(s: System, gap: seq<Event>, i: nat, j: nat, version: nat)
    requires WellFormed(s) && Past(s) && s.counter.Some?
    requires var e := BumpedThenCommitted(s, gap);
             && version == Generation(e.counter) && i < |e.readers| && j < |e.readers| && i != j
             && e.readers[i].phase.Loaded? && e.readers[i].phase.version == version
             && e.readers[j].phase.Idle? && e.readers[i].suffix == e.readers[j].suffix
    ensures var e := BumpedThenCommitted(s, gap);
            var stored := Next(e, Store(i));
            var read := ReadAlone(stored, j);
            && i < |stored.readers| && stored.readers[i].phase.Returned? && stored.readers[i].phase.entry.data < e.db
            && j < |read.readers| && read.readers[j].phase.Returned? && read.readers[j].phase.entry.data < e.db
  {
    NextPast(s, Bump);
    RunPast(Next(s, Bump), gap);
    var held, e := Run(Next(s, Bump), gap), BumpedThenCommitted(s, gap);
    assert PhasePast(held.readers[i].phase, held.db) && e.readers == held.readers;
    ReadAloneReturns(Next(e, Store(i)), j, Key(version, e.readers[j].suffix));
  }

  lemma OthersUntouched(s: System, i: nat, j: nat)
    requires i < |s.readers| && j < |s.readers| && i != j
    ensures var e := ReadAlone(s, i); |e.readers| == |s.readers| && e.readers[j] == s.readers[j] && e.db == s.db
  {
    RunTwo(s, ReadVersion(i), Get(i));
  }

  /** Nothing has been loaded for the new generation yet. */
  ghost predicate NothingLoaded(s: System, version: nat, at: nat) {
    && (forall key :: key in s.store ==> key.version < version)
    && (forall i :: 0 <= i < |s.readers| ==> PhaseUnloaded(s.readers[i].phase, version, at))
  }

  predicate PhaseUnloaded(phase: Phase, version: nat, at: nat) {
    && (phase.Loaded? ==> phase.version < version)
    && (phase.Returned? ==> phase.started <= at)
  }

  /** When nothing was loaded for the new generation before the commit, every read begun
      after the bump sees the write, under any interleaving from then on. */
  lemma QuietGapIsFresh(s: System, gap: seq<Event>, later: seq<Event>, i: nat)
    requires WellFormed(s) && s.counter.Some?
    requires NothingLoaded(Run(Next(s, Bump), gap), s.counter.value + 1, s.clock)
    requires var e := Run(BumpedThenCommitted(s, gap), later);
             i < |e.readers| && e.readers[i].phase.Returned? && e.readers[i].phase.started > s.clock
    ensures Run(BumpedThenCommitted(s, gap), later).readers[i].phase.entry.data >= BumpedThenCommitted(s, gap).db
  {
    var version, e := s.counter.value + 1, BumpedThenCommitted(s, gap);
    BumpStartsFresh(s);
    RunFresh(Next(s, Bump), gap, version, s.clock, s.db);
    CommitRaisesTheBar(Run(Next(s, Bump), gap), version, s.clock, s.db);
    RunFresh(e, later, version, s.clock, e.db);
  }

  lemma CommitRaisesTheBar(s: System, version: nat, at: nat, data: nat)
    requires FreshFrom(s, version, at, data) && NothingLoaded(s, version, at)
    ensures FreshFrom(Next(s, CommitWrite), version, at, s.db + 1)
  {
    var e := Next(s, CommitWrite);
    forall i | 0 <= i < |e.readers| ensures ReaderFresh(e.readers[i].phase, version, at, s.db + 1) {
      assert ReaderFresh(s.readers[i].phase, version, at, data) && PhaseUnloaded(s.readers[i].phase, version, at);
    }
  }
}
