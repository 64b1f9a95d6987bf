/** Over whole runs of a poll target: no signature that was taken up is lost, the backlog stays
    in order of age, and its items are served (src/ingestion/amm-poller.ts). */
module PollerQueue {
  import opened Options
  import opened IngestOutcomes
  import opened PollerPaging
  import opened PollerBacklog
  import opened PollerSweep
  import opened PollerRuns

  // ---- Conservation -------------------------------------------------------------------------

  ghost predicate Held(items: seq<Item>, sig: string) {
    exists i :: 0 <= i < |items| && items[i].sig == sig
  }

  ghost predicate Working(s: State, sig: string) { s.sweep.Dispatching? && Held(s.sweep.inFlight, sig) }

  /** Every signature the target ever took up in this process is settled, queued or in flight. */
  ghost predicate Conserved(s: State) {
    forall sig :: sig in s.marked ==> sig in s.settled || Held(s.backlog, sig) || Working(s, sig)
  }

  lemma HeldJoin(a: seq<Item>, b: seq<Item>, sig: string)
    ensures Held(a + b, sig) <==> Held(a, sig) || Held(b, sig)
  {
    if Held(a, sig) { var i :| 0 <= i < |a| && a[i].sig == sig; assert (a + b)[i].sig == sig; }
    if Held(b, sig) { var i :| 0 <= i < |b| && b[i].sig == sig; assert (a + b)[|a| + i].sig == sig; }
  }

  lemma HeldSplit(a: seq<Item>, n: nat, sig: string)
    requires n <= |a|
    ensures Held(a, sig) <==> Held(a[..n], sig) || Held(a[n..], sig)
  {
    assert a == a[..n] + a[n..];
    HeldJoin(a[..n], a[n..], sig);
  }

  lemma UnseenHeld(sigs: seq<string>, n: nat, now: int, sig: string)
    requires sig in sigs && n <= |sigs|
    ensures Held(FreshItems(sigs[..n], now), sig) || Held(Enqueued(sigs[n..], now), sig)
  {
    var i :| 0 <= i < |sigs| && sigs[i] == sig;
    if i < n {
      assert FreshItems(sigs[..n], now)[i].sig == sig;
    } else {
      assert Enqueued(sigs[n..], now)[|sigs| - 1 - i].sig == sig;
    }
  }

  lemma RequeueHolds(queue: seq<Item>, item: Item, sig: string)
    ensures Held(Requeued(queue, item), sig) <==> Held(queue, sig) || sig == item.sig
  {
    var i := Slot(queue, item.enqueuedAt);
    HeldSplit(queue, i, sig);
    HeldJoin(queue[..i] + [item], queue[i..], sig);
    HeldJoin(queue[..i], [item], sig);
    assert [item][0] == item;
  }

  lemma RemoveHolds(items: seq<Item>, k: nat, sig: string)
    requires k < |items| && Held(items, sig)
    ensures sig == items[k].sig || Held(items[..k] + items[k + 1..], sig)
  {
    var i :| 0 <= i < |items| && items[i].sig == sig;
    var rest := items[..k] + items[k + 1..];
    if i < k { assert rest[i].sig == sig; }
    if i > k { assert rest[i - 1].sig == sig; }
  }

  lemma PlanConserves(mmm: bool, page: seq<Row>, m: Memory, backlog: seq<Item>, now: int, sig: string)
    requires Held(backlog, sig) || sig in ScanPage(page, m).unseen
    ensures var d := Planned(mmm, page, m, backlog, now); Held(d.items, sig) || Held(d.backlog, sig)
  {
    hide Held, ScanPage, BacklogBudget, FreshBudget;
    var d := Planned(mmm, page, m, backlog, now);
    var reserve := BacklogBudget(mmm, backlog, now, |page|);
    var cap := Min(FreshBudget(mmm, backlog, now, |page|), |d.scanned.unseen|);
    HeldSplit(backlog, reserve, sig);
    HeldJoin(backlog[..reserve], FreshItems(d.scanned.unseen[..cap], now), sig);
    HeldJoin(backlog[reserve..], Enqueued(d.scanned.unseen[cap..], now), sig);
    if sig in d.scanned.unseen { UnseenHeld(d.scanned.unseen, cap, now, sig); }
  }

  lemma ScanConserves(s: State, now: int, mmm: bool)
    requires Conserved(s) && s.sweep.Paged?
    ensures Conserved(ScanStep(s, now, mmm))
  {
    hide Held, Planned;
    var s' := ScanStep(s, now, mmm);
    if |s.sweep.rows| > 0 {
      forall sig | sig in s'.marked
        ensures sig in s'.settled || Held(s'.backlog, sig) || Working(s', sig)
      {
        PlannedScans(mmm, s.sweep.rows, s.memory, s.backlog, now);
        if sig !in s.settled { PlanConserves(mmm, s.sweep.rows, s.memory, s.backlog, now, sig); }
      }
    }
  }

  lemma PlannedScans(mmm: bool, page: seq<Row>, m: Memory, backlog: seq<Item>, now: int)
    ensures Planned(mmm, page, m, backlog, now).scanned == ScanPage(page, m)
  {
  }

  lemma VerdictConserves(s: State, k: nat, ev: Evidence, mmm: bool)
    requires Conserved(s) && Enabled(s, Verdict(k, ev)) && Sound(s, Verdict(k, ev), mmm)
    ensures Conserved(VerdictStep(s, k, ev, mmm))
  {
    hide Held, Remember, Requeued;
    var item, s' := s.sweep.inFlight[k], VerdictStep(s, k, ev, mmm);
    TerminalMeansSettled(ev, mmm && s.sweep.lean, item.sig in s.settled);
    forall sig | sig in s'.marked
      ensures sig in s'.settled || Held(s'.backlog, sig) || Working(s', sig)
    {
      RequeueHolds(s.backlog, item, sig);
      if Held(s.sweep.inFlight, sig) { RemoveHolds(s.sweep.inFlight, k, sig); }
    }
  }

  lemma StepConserves(s: State, e: Event, mmm: bool)
    requires Conserved(s) && Enabled(s, e) && Sound(s, e, mmm)
    ensures Conserved(Step(s, e, mmm))
  {
    hide ScanStep, VerdictStep, Remember, MarkSeen;
    match e
    case Scan(now) => ScanConserves(s, now, mmm);
    case Verdict(k, ev) => VerdictConserves(s, k, ev, mmm);
    case Finish => FinishConserves(s);
    case Fetch(lean) => hide FetchStep; FetchConserves(s, lean, mmm);
    case _ =>
      hide Held;
  }

  lemma FetchConserves(s: State, lean: bool, mmm: bool)
    requires Conserved(s) && s.sweep.Idle?
    ensures Conserved(FetchStep(s, lean, mmm))
  {
    hide Held;
  }

  lemma FinishConserves(s: State)
    requires Conserved(s) && s.sweep.Dispatching? && s.sweep.inFlight == []
    ensures Conserved(FinishStep(s))
  {
    hide SafeFrom;
    forall sig | sig in s.marked ensures sig in s.settled || Held(s.backlog, sig) { assert !Working(s, sig); }
  }

  /** In every run with sound outcomes, nothing that was taken up since the last crash is dropped. */
  lemma {:induction false} NothingLost(s: State, events: seq<Event>, mmm: bool)
    requires Conserved(s) && Possible(s, events, mmm) && AllSound(s, events, mmm)
    ensures Conserved(Run(s, events, mmm))
    decreases |events|
  {
    hide Conserved, Step, Enabled, Sound;
    if |events| > 0 {
      var before := events[..|events| - 1];
      NothingLost(s, before, mmm);
      StepConserves(Run(s, before, mmm), events[|events| - 1], mmm);
    }
  }

  // ---- Order and size -----------------------------------------------------------------------

  ghost predicate QueueOk(s: State) {
    && OldestFirst(s.backlog, s.clock)
    && (s.sweep.Dispatching? ==>
          && |s.sweep.inFlight| <= |s.sweep.rows|
          && forall i :: 0 <= i < |s.sweep.inFlight| ==> s.sweep.inFlight[i].enqueuedAt <= s.clock)
  }

  lemma ScanQueues(s: State, now: int, mmm: bool)
    requires QueueOk(s) && Enabled(s, Scan(now))
    ensures QueueOk(ScanStep(s, now, mmm))
  {
    hide ScanPage, BacklogBudget, FreshBudget;
    var page := s.sweep.rows;
    if |page| > 0 {
      var d := Planned(mmm, page, s.memory, s.backlog, now);
      var reserve := BacklogBudget(mmm, s.backlog, now, |page|);
      var cap := Min(FreshBudget(mmm, s.backlog, now, |page|), |d.scanned.unseen|);
      GuaranteedShare(mmm, s.backlog, now, |page|);
      PopSorted(s.backlog, reserve, s.clock);
      PushSorted(s.backlog[reserve..], d.scanned.unseen[cap..], s.clock, now);
    } else if s.marker.None? {
      assert OldestFirst(s.backlog, now);
    }
  }

  lemma VerdictQueues(s: State, k: nat, ev: Evidence, mmm: bool)
    requires QueueOk(s) && s.sweep.Dispatching? && k < |s.sweep.inFlight|
    ensures QueueOk(VerdictStep(s, k, ev, mmm))
  {
    hide Remember, OldestFirst, Requeued;
    RequeueSorted(s.backlog, s.sweep.inFlight[k], s.clock);
  }

  lemma StepQueues(s: State, e: Event, mmm: bool)
    requires QueueOk(s) && Enabled(s, e)
    ensures QueueOk(Step(s, e, mmm))
  {
    hide ScanStep, VerdictStep, Remember, MarkSeen, Fetched;
    match e
    case Scan(now) => ScanQueues(s, now, mmm);
    case Verdict(k, ev) => VerdictQueues(s, k, ev, mmm);
    case _ =>
  }

  /** In every run under a clock that does not go back, the queue is sorted by age through
      overflow and retries, and a sweep never dispatches more than its page. */
  lemma {:induction false} QueueOrdered(s: State, events: seq<Event>, mmm: bool)
    requires QueueOk(s) && Possible(s, events, mmm)
    ensures QueueOk(Run(s, events, mmm))
    decreases |events|
  {
    hide QueueOk, Step, Enabled;
    if |events| > 0 {
      var before := events[..|events| - 1];
      QueueOrdered(s, before, mmm);
      StepQueues(Run(s, before, mmm), events[|events| - 1], mmm);
    }
  }

  // ---- Progress -----------------------------------------------------------------------------

  ghost predicate Waits(s: State, x: Item, p: int) { 0 <= p < |s.backlog| && s.backlog[p] == x }

  /** The item waits with at most `bound` items ahead of it. */
  ghost predicate WaitsWithin(s: State, x: Item, bound: int) { exists q :: 0 <= q <= bound && Waits(s, x, q) }

  ghost predicate Dispatched(s: State, x: Item) { s.sweep.Dispatching? && x in s.sweep.inFlight }

  /** A sweep that must serve the backlog. */
  ghost predicate Serves(s: State, e: Event) {
    && e.Scan? && s.sweep.Paged? && |s.backlog| > 0
    && (|s.sweep.rows| >= 2 || (|s.sweep.rows| == 1 && Pressing(s.backlog, e.now)))
  }

  /** No crash, and nothing older than the item comes back to the queue. */
  ghost predicate Undisturbed(s: State, e: Event, mmm: bool, x: Item)
    requires Enabled(s, e)
  {
    && !e.Crash?
    && (e.Verdict? ==> IsTerminalSafe(VerdictOutcome(s, e.evidence, mmm))
                       || s.sweep.inFlight[e.k].enqueuedAt >= x.enqueuedAt)
  }

  lemma ScanServes(s: State, now: int, mmm: bool, x: Item, p: nat)
    requires s.sweep.Paged? && Waits(s, x, p)
    ensures var s' := ScanStep(s, now, mmm);
            Dispatched(s', x) || WaitsWithin(s', x, p - if Serves(s, Scan(now)) then 1 else 0)
  {
    hide ScanPage;
    var s' := ScanStep(s, now, mmm);
    if |s.sweep.rows| == 0 {
      assert Waits(s', x, p);
    } else {
      OldestDispatchedExactly(mmm, s.backlog, now, |s.sweep.rows|);
      var n := BacklogBudget(mmm, s.backlog, now, |s.sweep.rows|);
      hide BacklogBudget, FreshBudget;
      if p < n {
        assert s'.sweep.inFlight[p] == x;
      } else {
        assert Waits(s', x, p - n);
      }
    }
  }

  lemma StepServes(s: State, e: Event, mmm: bool, x: Item, p: nat)
    requires QueueOk(s) && Enabled(s, e) && Waits(s, x, p) && Undisturbed(s, e, mmm, x)
    ensures var s' := Step(s, e, mmm);
            Dispatched(s', x) || WaitsWithin(s', x, p - if Serves(s, e) then 1 else 0)
  {
    hide ScanStep, Remember, MarkSeen, Fetched, Requeued, OldestFirst, SafeFrom;
    var s' := Step(s, e, mmm);
    match e
    case Scan(now) => ScanServes(s, now, mmm, x, p);
    case Verdict(k, ev) =>
      RequeueBehind(s.backlog, s.sweep.inFlight[k], p, s.clock);
      assert Waits(s', x, p);
    case Crash =>
    case _ =>
      assert Waits(s', x, p);
  }

  ghost predicate AllUndisturbed(s: State, events: seq<Event>, mmm: bool, x: Item)
    requires Possible(s, events, mmm)
    decreases |events|
  {
    |events| > 0 ==>
      && AllUndisturbed(s, events[..|events| - 1], mmm, x)
      && Undisturbed(Run(s, events[..|events| - 1], mmm), events[|events| - 1], mmm, x)
  }

  ghost function Serving(s: State, events: seq<Event>, mmm: bool): nat
    requires Possible(s, events, mmm)
    decreases |events|
  {
    if |events| == 0 then 0
    else
      var before := events[..|events| - 1];
      Serving(s, before, mmm) + if Serves(Run(s, before, mmm), events[|events| - 1]) then 1 else 0
  }

  ghost predicate ReachedBy(s: State, events: seq<Event>, mmm: bool, x: Item, n: nat) {
    n <= |events| && Possible(s, events[..n], mmm) && Dispatched(Run(s, events[..n], mmm), x)
  }

  lemma ReachedLonger(s: State, events: seq<Event>, mmm: bool, x: Item, n: nat)
    requires |events| > 0 && ReachedBy(s, events[..|events| - 1], mmm, x, n)
    ensures ReachedBy(s, events, mmm, x, n)
  {
    assert events[..|events| - 1][..n] == events[..n];
  }

  lemma ReachedNow(s: State, events: seq<Event>, mmm: bool, x: Item)
    requires Possible(s, events, mmm) && Dispatched(Run(s, events, mmm), x)
    ensures ReachedBy(s, events, mmm, x, |events|)
  {
    assert events[..|events|] == events;
  }

  /** After each run the item has been dispatched, or has moved up once for each sweep that
      served the backlog. */
  lemma {:induction false} MovesUp(s: State, events: seq<Event>, mmm: bool, x: Item, p: nat)
    requires QueueOk(s) && Waits(s, x, p) && Possible(s, events, mmm) && AllUndisturbed(s, events, mmm, x)
    ensures || (exists n: nat :: ReachedBy(s, events, mmm, x, n))
            || WaitsWithin(Run(s, events, mmm), x, p - Serving(s, events, mmm))
    decreases |events|
  {
    hide QueueOk, Step, Enabled, Dispatched, Undisturbed, Serves, Waits, ReachedBy;
    if |events| == 0 {
      assert 0 <= p <= p - Serving(s, events, mmm) && Waits(Run(s, events, mmm), x, p);
    } else {
      var before := events[..|events| - 1];
      MovesUp(s, before, mmm, x, p);
      if n: nat :| ReachedBy(s, before, mmm, x, n) {
        ReachedLonger(s, events, mmm, x, n);
      } else {
        var q :| 0 <= q <= p - Serving(s, before, mmm) && Waits(Run(s, before, mmm), x, q);
        QueueOrdered(s, before, mmm);
        StepServes(Run(s, before, mmm), events[|events| - 1], mmm, x, q);
        if Dispatched(Run(s, events, mmm), x) {
          ReachedNow(s, events, mmm, x);
        } else {
          var now := Run(s, events, mmm);
          var r :| 0 <= r <= p - Serving(s, events, mmm) && Waits(now, x, r);
        }
      }
    }
  }

  /** An item with `p` items ahead of it is dispatched within p + 1 sweeps that serve the
      backlog, unless something older fails again and goes back ahead of it. */
  lemma OldestServed(s: State, events: seq<Event>, mmm: bool, x: Item, p: nat)
    requires QueueOk(s) && Waits(s, x, p) && Possible(s, events, mmm) && AllUndisturbed(s, events, mmm, x)
    requires Serving(s, events, mmm) >= p + 1
    ensures exists n: nat :: ReachedBy(s, events, mmm, x, n)
  {
    hide QueueOk, Waits, AllUndisturbed, ReachedBy;
    MovesUp(s, events, mmm, x, p);
  }

  // ---- Ageing -------------------------------------------------------------------------------

  /** A sweep that would serve the item if it waited alone: two rows, or one once the item has
      waited long. */
  ghost predicate DueFor(s: State, e: Event, x: Item) {
    && e.Scan? && s.sweep.Paged?
    && (|s.sweep.rows| >= 2 || (|s.sweep.rows| == 1 && e.now - x.enqueuedAt >= AGE_ESCALATE_1_MS))
  }

  /** What is ahead of an item is at least as old, so it only raises the share of the backlog. */
  lemma DueServes(s: State, e: Event, mmm: bool, x: Item, p: int)
    requires QueueOk(s) && Waits(s, x, p) && DueFor(s, e, x)
    ensures Serves(s, e)
  {
    var n := |s.sweep.rows|;
    assert s.backlog[0].enqueuedAt <= s.backlog[p].enqueuedAt;
    OldestDispatchedExactly(mmm, [x], e.now, n);
    PressureOnlyRaises(mmm, [x], s.backlog, e.now, e.now, n);
    OldestDispatchedExactly(mmm, s.backlog, e.now, n);
    hide BacklogBudget;
  }

  ghost function DueSweeps(s: State, events: seq<Event>, mmm: bool, x: Item): nat
    requires Possible(s, events, mmm)
    decreases |events|
  {
    if |events| == 0 then 0
    else
      var before := events[..|events| - 1];
      DueSweeps(s, before, mmm, x) + if DueFor(Run(s, before, mmm), events[|events| - 1], x) then 1 else 0
  }

  lemma {:induction false} DueSweepsServe(s: State, events: seq<Event>, mmm: bool, x: Item, p: nat)
    requires QueueOk(s) && Waits(s, x, p) && Possible(s, events, mmm) && AllUndisturbed(s, events, mmm, x)
    ensures (exists n: nat :: ReachedBy(s, events, mmm, x, n)) || DueSweeps(s, events, mmm, x) <= Serving(s, events, mmm)
    decreases |events|
  {
    hide QueueOk, Step, Enabled, Undisturbed, Serves, DueFor, Waits, ReachedBy;
    if |events| > 0 {
      var before, e := events[..|events| - 1], events[|events| - 1];
      DueSweepsServe(s, before, mmm, x, p);
      MovesUp(s, before, mmm, x, p);
      if n: nat :| ReachedBy(s, before, mmm, x, n) {
        ReachedLonger(s, events, mmm, x, n);
      } else {
        var q :| 0 <= q <= p - Serving(s, before, mmm) && Waits(Run(s, before, mmm), x, q);
        QueueOrdered(s, before, mmm);
        if DueFor(Run(s, before, mmm), e, x) { DueServes(Run(s, before, mmm), e, mmm, x, q); }
      }
    }
  }

  /** An item with `p` items ahead of it is dispatched within p + 1 sweeps of two rows, or of one
      once the item itself is old enough, whatever else waits. */
  lemma AgedIsServed(s: State, events: seq<Event>, mmm: bool, x: Item, p: nat)
    requires QueueOk(s) && Waits(s, x, p) && Possible(s, events, mmm) && AllUndisturbed(s, events, mmm, x)
    requires DueSweeps(s, events, mmm, x) >= p + 1
    ensures exists n: nat :: ReachedBy(s, events, mmm, x, n)
  {
    hide QueueOk, Waits, AllUndisturbed, ReachedBy;
    DueSweepsServe(s, events, mmm, x, p);
    if forall n: nat :: !ReachedBy(s, events, mmm, x, n) { OldestServed(s, events, mmm, x, p); }
  }

  /** A process that starts on any chain, without a cursor, satisfies all three invariants. */
  lemma ColdStart(chain: seq<Row>, settled: set<string>, now: int)
    requires Distinct(chain)
    ensures var s := State(chain, settled, None, None, NOTHING, [], Idle, {}, now);
            Inv(s) && Conserved(s) && QueueOk(s)
  {
  }
}
