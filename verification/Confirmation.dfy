/** Confirming one quotation, by any number of workers at once, under an advisory lock that
    may expire.

    A worker's call is cut into the steps other workers can come between: reading the
    quotation, the check outside the lock, SET NX, the check inside it, the commit, and the
    unconditional DEL.  Expiry and crashes are steps too. */
module Confirmation {

  datatype QuotationStatus = Approved | Confirmed | Elsewhere

  /** The rows of this quotation; sales records and subscriptions name its lines. */
  datatype Tables = Tables(status: QuotationStatus, fulfillments: nat, sales: seq<nat>, subscriptions: seq<nat>)

  datatype Verdict = Created | Existing | NotConfirmable | LockNotAcquired | Duplicate | Failed

  datatype Phase =
    | Arriving
    | Loaded(status: QuotationStatus)
    | Admitted
    | Inside
    | Writing
    | Leaving(verdict: Verdict)
    | Done(result: Verdict)
    | Crashed

  /** `recurring[i]`: line i is recurring.  `unique`: the table has its UNIQUE constraint. */
  datatype System = System(recurring: seq<bool>, unique: bool, tables: Tables, key: bool, workers: seq<Phase>)

  datatype Move = Load | CheckOutside | Acquire | CheckInside | Commit | Fail | Release | Crash

  datatype Event = Act(worker: nat, move: Move) | Expire

  function AllLines(n: nat): seq<nat> { seq(n, i requires 0 <= i < n => i) }

  function RecurringLines(recurring: seq<bool>): seq<nat> {
    if recurring == [] then []
    else
      var last := |recurring| - 1;
      RecurringLines(recurring[..last]) + if recurring[last] then [last] else []
  }

  /** The fan-out: one sales record per line, one subscription per recurring one. */
  method WriteOrder(recurring: seq<bool>) returns (sales: seq<nat>, subscriptions: seq<nat>)
    ensures sales == AllLines(|recurring|) && subscriptions == RecurringLines(recurring)
  {
    sales, subscriptions := [], [];
    for i := 0 to |recurring|
      invariant sales == AllLines(i) && subscriptions == RecurringLines(recurring[..i])
    {
      assert recurring[..i + 1][..i] == recurring[..i];
      sales := sales + [i];
      if recurring[i] { subscriptions := subscriptions + [i]; }
    }
    assert recurring[..|recurring|] == recurring;
  }

  function Committed(s: System): Tables {
    Tables(Confirmed, s.tables.fulfillments + 1, s.tables.sales + AllLines(|s.recurring|),
           s.tables.subscriptions + RecurringLines(s.recurring))
  }

  /** The commit goes through: UNIQUE refuses a second fulfillment and rolls it all back. */
  predicate Commits(s: System, e: Event) {
    e.Act? && e.move == Commit && e.worker < |s.workers| && s.workers[e.worker] == Writing
    && (s.unique ==> s.tables.fulfillments == 0)
  }

  function Moved(s: System, w: nat, phase: Phase): System
    requires w < |s.workers|
  {
    s.(workers := s.workers[w := phase])
  }

  /** A step that is not enabled changes nothing. */
  function Next(s: System, e: Event): System {
    if e.Expire? then s.(key := false)
    else if e.worker >= |s.workers| then s
    else
      var w, phase := e.worker, s.workers[e.worker];
      match e.move
      case Load => if phase.Arriving? then Moved(s, w, Loaded(s.tables.status)) else s
      case CheckOutside =>
        if !phase.Loaded? then s
        else if phase.status == Confirmed && s.tables.fulfillments > 0 then Moved(s, w, Done(Existing))
        else Moved(s, w, if phase.status == Elsewhere then Done(NotConfirmable) else Admitted)
      case Acquire =>
        if !phase.Admitted? then s
        else if s.key then Moved(s, w, Done(LockNotAcquired))
        else Moved(s, w, Inside).(key := true)
      case CheckInside =>
        if !phase.Inside? then s
        else Moved(s, w, if s.tables.fulfillments > 0 then Leaving(Existing) else Writing)
      case Commit =>
        if !phase.Writing? then s
        else if Commits(s, e) then Moved(s, w, Leaving(Created)).(tables := Committed(s))
        else Moved(s, w, Leaving(Duplicate))
      case Fail => if phase.Writing? then Moved(s, w, Leaving(Failed)) else s
      case Release => if phase.Leaving? then Moved(s, w, Done(phase.verdict)).(key := false) else s
      case Crash => if phase.Done? then s else Moved(s, w, Crashed)
  }

  function Run(s: System, events: seq<Event>): System
    decreases |events|
  {
    if events == [] then s else Run(Next(s, events[0]), events[1..])
  }

  function CommitCount(s: System, events: seq<Event>): nat
    decreases |events|
  {
    if events == [] then 0
    else (if Commits(s, events[0]) then 1 else 0) + CommitCount(Next(s, events[0]), events[1..])
  }

  /** An approved quotation, and callers about to confirm it. */
  ghost predicate Initial(s: System) {
    && s.tables == Tables(Approved, 0, [], []) && !s.key
    && forall i :: 0 <= i < |s.workers| ==> s.workers[i] == Arriving
  }

  // ------------------------------------------------ the constraint alone

  predicate OrderWritten(s: System) {
    s.tables == Tables(Confirmed, 1, AllLines(|s.recurring|), RecurringLines(s.recurring))
  }

  predicate NothingWritten(s: System) { s.tables == Tables(Approved, 0, [], []) }

  predicate Creator(phase: Phase) { phase == Leaving(Created) || phase == Done(Created) }

  predicate Finder(phase: Phase) { phase == Leaving(Existing) || phase == Done(Existing) }

  ghost predicate OneOrder(s: System) {
    && (NothingWritten(s) || OrderWritten(s))
    && (forall i, j :: 0 <= i < j < |s.workers| ==> !(Creator(s.workers[i]) && Creator(s.workers[j])))
    && (forall i :: 0 <= i < |s.workers| && (Creator(s.workers[i]) || Finder(s.workers[i])) ==> OrderWritten(s))
  }

  lemma PhaseKeepsOneOrder(s: System, w: nat, phase: Phase, key: bool)
    requires OneOrder(s) && w < |s.workers|
    requires Creator(phase) ==> Creator(s.workers[w])
    requires Finder(phase) ==> OrderWritten(s)
    ensures OneOrder(Moved(s, w, phase).(key := key))
  {
    var t := Moved(s, w, phase).(key := key);
    assert OrderWritten(t) == OrderWritten(s);
    forall i, j | 0 <= i < j < |t.workers| ensures !(Creator(t.workers[i]) && Creator(t.workers[j])) {
      assert !(Creator(s.workers[i]) && Creator(s.workers[j]));
    }
  }

  lemma CommitKeepsOneOrder(s: System, e: Event)
    requires s.unique && OneOrder(s) && Commits(s, e)
    ensures OneOrder(Next(s, e)) && OrderWritten(Next(s, e))
  {
    assert NothingWritten(s);
  }

  lemma NextKeepsOneOrder(s: System, e: Event)
    requires s.unique && OneOrder(s)
    ensures OneOrder(Next(s, e)) && Next(s, e).unique && Next(s, e).recurring == s.recurring
    ensures Next(s, e).tables.fulfillments == s.tables.fulfillments + if Commits(s, e) then 1 else 0
  {
    if Commits(s, e) {
      CommitKeepsOneOrder(s, e);
    } else if e.Act? && e.worker < |s.workers| {
      var phase := Next(s, e).workers[e.worker];
      assert Next(s, e) == Moved(s, e.worker, phase).(key := Next(s, e).key);
      PhaseKeepsOneOrder(s, e.worker, phase, Next(s, e).key);
    }
  }

  lemma {:induction false} RunKeepsOneOrder(s: System, events: seq<Event>)
    requires s.unique && OneOrder(s)
    ensures OneOrder(Run(s, events)) && Run(s, events).recurring == s.recurring
    ensures Run(s, events).tables.fulfillments == s.tables.fulfillments + CommitCount(s, events)
    decreases |events|
  {
    if events != [] {
      NextKeepsOneOrder(s, events[0]);
      RunKeepsOneOrder(Next(s, events[0]), events[1..]);
    }
  }

  /** In every interleaving, expiries, crashes and stolen releases included, at most one
      transaction commits.  It leaves one fulfillment, one sales record per line and one
      subscription per recurring line, and whoever is told the order exists is told so after
      it was written. */
  lemma ExactlyOnce(s: System, events: seq<Event>)
    requires Initial(s) && s.unique
    ensures CommitCount(s, events) <= 1
    ensures var e := Run(s, events);
            && (if CommitCount(s, events) == 1 then OrderWritten(e) else NothingWritten(e))
            && OneOrder(e) && e.recurring == s.recurring
  {
    RunKeepsOneOrder(s, events);
  }

  /** A quotation that is neither approved nor confirmed, and callers all the same. */
  ghost predicate Unapproved(s: System) {
    && s.tables == Tables(Elsewhere, 0, [], [])
    && forall i :: 0 <= i < |s.workers| ==>
         s.workers[i] in {Arriving, Loaded(Elsewhere), Done(NotConfirmable), Crashed}
  }

  /** In every interleaving it stays as it is: nobody gets to the lock, nothing is written, and
      whoever is answered is told that it cannot be confirmed. */
  lemma {:induction false} OnlyApprovedIsOrdered(s: System, events: seq<Event>)
    requires Unapproved(s)
    ensures Unapproved(Run(s, events)) && CommitCount(s, events) == 0
    decreases |events|
  {
    if events != [] { OnlyApprovedIsOrdered(Next(s, events[0]), events[1..]); }
  }

  /** A commit goes through or is refused whole, and its caller is told which. */
  lemma CommitTells(s: System, w: nat)
    requires w < |s.workers| && s.workers[w] == Writing
    ensures var e := Next(s, Act(w, Commit));
            if s.unique && s.tables.fulfillments > 0
            then e == Moved(s, w, Leaving(Duplicate))
            else e.workers[w] == Leaving(Created) && e.tables.fulfillments == s.tables.fulfillments + 1
  {
  }

  lemma AppendCount(s: seq<nat>, x: nat, i: nat)
    ensures multiset(s + [x])[i] == multiset(s)[i] + if x == i then 1 else 0
  {
    assert multiset(s + [x]) == multiset(s) + multiset{x};
  }

  lemma {:induction false} EveryLineOnce(n: nat, i: nat)
    ensures multiset(AllLines(n))[i] == if i < n then 1 else 0
  {
    if n > 0 {
      EveryLineOnce(n - 1, i);
      assert AllLines(n) == AllLines(n - 1) + [n - 1];
      AppendCount(AllLines(n - 1), n - 1, i);
    }
  }

  lemma {:induction false} RecurringLinesOnce(recurring: seq<bool>, i: nat)
    ensures multiset(RecurringLines(recurring))[i] == if i < |recurring| && recurring[i] then 1 else 0
  {
    if recurring != [] {
      var front, last := recurring[..|recurring| - 1], |recurring| - 1;
      RecurringLinesOnce(front, i);
      if recurring[last] { AppendCount(RecurringLines(front), last, i); } else {
        assert RecurringLines(recurring) == RecurringLines(front);
      }
    }
  }

  /** The fan-out names every line once, and the recurring ones once more. */
  lemma FanOutIsExact(recurring: seq<bool>, i: nat)
    ensures multiset(AllLines(|recurring|))[i] == if i < |recurring| then 1 else 0
    ensures multiset(RecurringLines(recurring))[i] == if i < |recurring| && recurring[i] then 1 else 0
  {
    EveryLineOnce(|recurring|, i);
    RecurringLinesOnce(recurring, i);
  }

  // ---------------------------------------------------- the lock alone

  predicate Holding(phase: Phase) { phase.Inside? || phase.Writing? || phase.Leaving? }

  predicate NobodyInside(s: System) { forall i :: 0 <= i < |s.workers| ==> !Holding(s.workers[i]) }

  /** The key outlives every holder: it expires only with nobody inside, as it does after a
      holder has crashed. */
  predicate KeyOutlivesHolders(s: System, events: seq<Event>)
    decreases |events|
  {
    events == [] ||
    ((events[0].Expire? ==> NobodyInside(s)) && KeyOutlivesHolders(Next(s, events[0]), events[1..]))
  }

  /** One worker at a time between SET NX and DEL, and the order is written at most once. */
  ghost predicate Exclusive(s: System) {
    && (forall i, j :: 0 <= i < j < |s.workers| ==> !(Holding(s.workers[i]) && Holding(s.workers[j])))
    && (forall i :: 0 <= i < |s.workers| && Holding(s.workers[i]) ==> s.key)
    && (forall i :: 0 <= i < |s.workers| && s.workers[i] == Writing ==> NothingWritten(s))
    && (NothingWritten(s) || OrderWritten(s))
    && (forall i :: 0 <= i < |s.workers| ==> s.workers[i] != Leaving(Duplicate) && s.workers[i] != Done(Duplicate))
  }

  lemma AloneInside(s: System, w: nat, i: nat)
    requires Exclusive(s) && w < |s.workers| && i < |s.workers| && i != w && Holding(s.workers[w])
    ensures !Holding(s.workers[i])
  {
    var first, second := s.workers[if i < w then i else w], s.workers[if i < w then w else i];
    assert !(Holding(first) && Holding(second));
  }

  lemma PhaseKeepsExclusive(s: System, w: nat, phase: Phase, key: bool)
    requires Exclusive(s) && w < |s.workers|
    requires Holding(phase) ==> key && (Holding(s.workers[w]) || !s.key)
    requires phase == Writing ==> NothingWritten(s)
    requires phase != Leaving(Duplicate) && phase != Done(Duplicate)
    requires key == s.key || Holding(phase) || Holding(s.workers[w])
    ensures Exclusive(Moved(s, w, phase).(key := key))
  {
    var t := Moved(s, w, phase).(key := key);
    forall i, j | 0 <= i < j < |t.workers| ensures !(Holding(t.workers[i]) && Holding(t.workers[j])) {
      assert !(Holding(s.workers[i]) && Holding(s.workers[j]));
    }
    forall i | 0 <= i < |t.workers| && Holding(t.workers[i]) ensures t.key {
      if i != w { AloneInside(s, i, w); }
    }
    forall i | 0 <= i < |t.workers| && t.workers[i] == Writing ensures NothingWritten(t) {
      assert i != w ==> s.workers[i] == Writing;
    }
  }

  lemma CommitKeepsExclusive(s: System, e: Event)
    requires Exclusive(s) && Commits(s, e)
    ensures Exclusive(Next(s, e))
  {
    var w, t := e.worker, Next(s, e);
    assert NothingWritten(s) && OrderWritten(t) && Holding(s.workers[w]);
    forall i | 0 <= i < |t.workers| && i != w ensures !Holding(t.workers[i]) {
      AloneInside(s, w, i);
    }
  }

  lemma NextKeepsExclusive(s: System, e: Event)
    requires Exclusive(s) && (e.Expire? ==> NobodyInside(s))
    ensures Exclusive(Next(s, e)) && Next(s, e).recurring == s.recurring
  {
    if Commits(s, e) {
      CommitKeepsExclusive(s, e);
    } else if e.Act? && e.worker < |s.workers| {
      var w, before, after := e.worker, s.workers[e.worker], Next(s, e).workers[e.worker];
      assert before == Writing ==> NothingWritten(s);
      match e.move
      case Acquire => PhaseKeepsExclusive(s, w, after, Next(s, e).key);
      case Release => PhaseKeepsExclusive(s, w, after, Next(s, e).key);
      case _ => PhaseKeepsExclusive(s, w, after, s.key);
    }
  }

  lemma NextCountsCommits(s: System, e: Event)
    ensures Next(s, e).tables.fulfillments == s.tables.fulfillments + if Commits(s, e) then 1 else 0
  {
  }

  lemma {:induction false} RunKeepsExclusive(s: System, events: seq<Event>)
    requires Exclusive(s) && KeyOutlivesHolders(s, events)
    ensures Exclusive(Run(s, events)) && Run(s, events).recurring == s.recurring
    ensures Run(s, events).tables.fulfillments == s.tables.fulfillments + CommitCount(s, events)
    decreases |events|
  {
    if events != [] {
      NextKeepsExclusive(s, events[0]);
      NextCountsCommits(s, events[0]);
      RunKeepsExclusive(Next(s, events[0]), events[1..]);
    }
  }

  /** While the key outlives every holder the lock alone suffices: with or without the
      constraint one worker at a time is inside, at most one transaction commits and leaves
      exactly the order, and UNIQUE never fires. */
  lemma LockSufficesWhileTheKeyLasts(s: System, events: seq<Event>)
    requires Initial(s) && KeyOutlivesHolders(s, events)
    ensures CommitCount(s, events) <= 1
    ensures var e := Run(s, events);
            && (if CommitCount(s, events) == 1 then OrderWritten(e) else NothingWritten(e))
            && Exclusive(e) && e.recurring == s.recurring
  {
    RunKeepsExclusive(s, events);
  }

  ghost predicate TwoInside(s: System) {
    exists i, j :: 0 <= i < j < |s.workers| && Holding(s.workers[i]) && Holding(s.workers[j])
  }

  /** And only then: in any state, with a caller at the lock, an expiry lets two in together
      if and only if somebody is inside. */
  lemma ExpiryAdmitsTwoIff(s: System, v: nat)
    requires v < |s.workers| && s.workers[v] == Admitted
    ensures TwoInside(Run(s, [Expire, Act(v, Acquire)])) <==> !NobodyInside(s)
  {
    var acquire := Act(v, Acquire);
    var e := Next(Next(s, Expire), acquire);
    assert [Expire, acquire][1..] == [acquire] && [acquire][1..] == [];
    assert Run(Next(s, Expire), [acquire]) == Run(e, []);
    assert e.workers == s.workers[v := Inside];
    if !NobodyInside(s) {
      var w :| 0 <= w < |s.workers| && Holding(s.workers[w]);
      assert Holding(e.workers[w]) && Holding(e.workers[v]);
    }
  }

  // --------------------------------------------------- undisturbed calls

  /** A worker's steps up to having found no order inside the lock. */
  function UpToWriting(w: nat): seq<Event> {
    [Act(w, Load), Act(w, CheckOutside), Act(w, Acquire), Act(w, CheckInside)]
  }

  lemma RunStep(s: System, e: Event, rest: seq<Event>)
    ensures Run(s, [e] + rest) == Run(Next(s, e), rest)
  {
    assert ([e] + rest)[1..] == rest;
  }

  lemma {:induction false} RunAppend(s: System, first: seq<Event>, rest: seq<Event>)
    ensures Run(s, first + rest) == Run(Run(s, first), rest)
    decreases |first|
  {
    if first == [] {
      assert first + rest == rest;
    } else {
      assert (first + rest)[1..] == first[1..] + rest;
      RunAppend(Next(s, first[0]), first[1..], rest);
    }
  }

  lemma GetsToWriting(s: System, w: nat)
    requires w < |s.workers| && s.workers[w] == Arriving && !s.key && NothingWritten(s)
    ensures Run(s, UpToWriting(w)) == Moved(s, w, Writing).(key := true)
  {
    var a, b, c, d := Act(w, Load), Act(w, CheckOutside), Act(w, Acquire), Act(w, CheckInside);
    var s1 := Next(s, a);
    var s2 := Next(s1, b);
    var s3 := Next(s2, c);
    assert [a, b, c, d] == [a] + [b, c, d] && [b, c, d] == [b] + [c, d] && [c, d] == [c] + [d] && [d] == [d] + [];
    RunStep(s, a, [b, c, d]);
    RunStep(s1, b, [c, d]);
    RunStep(s2, c, [d]);
    RunStep(s3, d, []);
  }

  /** A call nobody disturbs creates the order and gives the key back. */
  lemma AloneCreates(s: System, w: nat)
    requires NothingWritten(s) && !s.key && w < |s.workers| && s.workers[w] == Arriving
    ensures var e := Run(s, UpToWriting(w) + [Act(w, Commit), Act(w, Release)]);
            && OrderWritten(e) && !e.key && e.recurring == s.recurring
            && e.workers == s.workers[w := Done(Created)]
  {
    var c, r := Act(w, Commit), Act(w, Release);
    GetsToWriting(s, w);
    RunAppend(s, UpToWriting(w), [c, r]);
    var writing := Moved(s, w, Writing).(key := true);
    assert [c, r] == [c] + [r] && [r] == [r] + [];
    RunStep(writing, c, [r]);
    RunStep(Next(writing, c), r, []);
    assert s.tables.sales + AllLines(|s.recurring|) == AllLines(|s.recurring|);
    assert s.tables.subscriptions + RecurringLines(s.recurring) == RecurringLines(s.recurring);
  }

  /** What the expiry is for: a holder that crashes leaves its key behind, and once that has
      expired another call creates the order. */
  lemma ExpiryRecovers(s: System, w: nat, v: nat)
    requires Initial(s) && w < |s.workers| && v < |s.workers| && v != w
    ensures var stuck := Run(s, UpToWriting(w) + [Act(w, Crash)]);
            var e := Run(Next(stuck, Expire), UpToWriting(v) + [Act(v, Commit), Act(v, Release)]);
            stuck.key && NobodyInside(stuck) && NothingWritten(stuck) && OrderWritten(e) && !e.key
  {
    var c := Act(w, Crash);
    GetsToWriting(s, w);
    RunAppend(s, UpToWriting(w), [c]);
    assert [c] == [c] + [];
    RunStep(Moved(s, w, Writing).(key := true), c, []);
    var stuck := Run(s, UpToWriting(w) + [c]);
    assert stuck.workers == s.workers[w := Crashed];
    AloneCreates(Next(stuck, Expire), v);
  }

  /** A later call finds it, before or inside the lock, and writes nothing. */
  lemma LaterCallFinds(s: System, w: nat)
    requires OrderWritten(s) && w < |s.workers|
    ensures s.workers[w] == Arriving ==>
              Run(s, [Act(w, Load), Act(w, CheckOutside)]) == Moved(s, w, Done(Existing))
    ensures s.workers[w] == Admitted && !s.key ==>
              Run(s, [Act(w, Acquire), Act(w, CheckInside)]) == Moved(s, w, Leaving(Existing)).(key := true)
  {
    var a, b, c, d := Act(w, Load), Act(w, CheckOutside), Act(w, Acquire), Act(w, CheckInside);
    assert [a, b] == [a] + [b] && [b] == [b] + [] && [c, d] == [c] + [d] && [d] == [d] + [];
    RunStep(s, a, [b]);
    RunStep(Next(s, a), b, []);
    RunStep(s, c, [d]);
    RunStep(Next(s, c), d, []);
  }

  // ------------------------------------------------------------- neither

  /** When the key expires under the first worker the second gets in beside it; without the
      constraint both commit, and the order exists twice. */
  lemma NeitherSuffices(s: System) returns (events: seq<Event>)
    requires Initial(s) && |s.workers| == 2
    ensures var e := Run(s, events); e.workers == [Writing, Writing]
    ensures var e := Run(s, events + [Act(0, Commit), Act(1, Commit)]);
            e.tables.fulfillments == if s.unique then 1 else 2
  {
    events := UpToWriting(0) + ([Expire] + UpToWriting(1));
    var first := Moved(s, 0, Writing).(key := true);
    var expired := first.(key := false);
    GetsToWriting(s, 0);
    RunAppend(s, UpToWriting(0), [Expire] + UpToWriting(1));
    RunStep(first, Expire, UpToWriting(1));
    GetsToWriting(expired, 1);
    var both := Run(s, events);
    assert both.workers == [Writing, Writing];
    var c0, c1 := Act(0, Commit), Act(1, Commit);
    RunAppend(s, events, [c0, c1]);
    assert [c0, c1] == [c0] + [c1] && [c1] == [c1] + [];
    RunStep(both, c0, [c1]);
    RunStep(Next(both, c0), c1, []);
  }
}
