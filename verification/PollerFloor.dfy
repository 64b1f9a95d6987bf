/** How long the persisted cursor keeps its promise over runs (src/ingestion/amm-poller.ts). The
    floor is where the promise starts; everything from there up to the cursor is resolved. */
module PollerFloor {
  import opened CatchupMarker
  import opened Options
  import opened IngestOutcomes
  import opened PollerPaging
  import opened PollerBacklog
  import opened PollerSweep
  import opened PollerMemory
  import opened PollerRuns

  // ---- The steps that weaken the promise ----------------------------------------------------

  /** The frozen signature of a catch-up is newer than the cursor. */
  ghost predicate MarkerAhead(s: State) {
    s.marker.Some? ==> At(s) < Position(s.chain, s.marker.value.frozenNewest)
  }

  /** A sweep from the cursor that left something out below its page, and is not flagged. */
  ghost predicate Gap(s: State) {
    !s.sweep.Idle? && s.marker.None? && s.cursor.Some? && !s.sweep.saturated && s.sweep.lo > At(s) + 1
  }

  ghost predicate Promotes(s: State, e: Event, mmm: bool)
    requires Enabled(s, e)
  {
    s.marker.Some? && Step(s, e, mmm).marker.None?
  }

  /** The end of a sweep with a gap, with something to advance to. */
  ghost predicate Skips(s: State, e: Event) {
    e.Finish? && s.sweep.Dispatching? && Gap(s) && SafeFrom(s.sweep.outcomes) < |s.sweep.rows|
  }

  function FloorOf(s: State): nat { if s.cursor.Some? then s.cursor.value.floor else 0 }

  /** The two steps that weaken the promise, by exactly what they leave out; no step takes the
      cursor back. */
  lemma FloorMovesExactly(s: State, e: Event, mmm: bool)
    requires Inv(s) && MarkerAhead(s) && Enabled(s, e) && s.cursor.Some?
    ensures var s' := Step(s, e, mmm);
            && s'.cursor.Some? && MarkerAhead(s') && At(s) <= At(s') && FloorOf(s) <= FloorOf(s')
            && (FloorOf(s') != FloorOf(s) <==> Promotes(s, e, mmm) || Skips(s, e))
            && (Promotes(s, e, mmm) ==> FloorOf(s') == At(s') + 1 && s'.cursor.value.sig == s.marker.value.frozenNewest)
            && (Skips(s, e) ==> FloorOf(s') == s.sweep.lo)
  {
    hide Position, NewestFirst, Distinct, MemoryTrue, OutcomesTrue, Planned, Answer, Remember, Resolved;
    match e
    case Confirm(rows) =>
      if s.marker.Some? { OnLaterChain(s.chain, rows, Some(s.marker.value.frozenNewest)); }
      ConfirmKeeps(s, rows, mmm);
    case Finish => FinishMoves(s);
    case _ =>
  }

  lemma FinishMoves(s: State)
    requires Inv(s) && MarkerAhead(s) && s.sweep.Dispatching? && s.cursor.Some?
    ensures var s' := FinishStep(s);
            && s'.cursor.Some? && MarkerAhead(s') && At(s) <= At(s') && FloorOf(s) <= FloorOf(s')
            && (FloorOf(s') != FloorOf(s) <==> (s.marker.Some? && s'.marker.None?) || Skips(s, Finish))
            && (s.marker.Some? && s'.marker.None? ==>
                  FloorOf(s') == At(s') + 1 && s'.cursor.value.sig == s.marker.value.frozenNewest)
            && (Skips(s, Finish) ==> FloorOf(s') == s.sweep.lo)
  {
    hide Inv, SafeFrom, Position;
    FinishFacts(s);
  }

  lemma FinishFacts(s: State)
    requires Inv(s) && s.sweep.Dispatching? && s.cursor.Some?
    ensures FloorOf(s) <= At(s) + 1
    ensures s.marker.None? ==> At(s) < s.sweep.lo
    ensures s.marker.None? && |s.sweep.rows| > 0 ==> At(s) < Position(s.chain, s.sweep.rows[0].sig)
    ensures var s' := FinishStep(s);
            s.marker.None? && s'.cursor != s.cursor ==>
              s'.cursor.Some? && FloorOf(s') == NewFloor(s) && s.sweep.lo <= At(s')
  {
    FinishKeeps(s);
    if s.marker.None? { NewestAhead(s); }
    hide Position, Safe, SafeFrom, NewestFirst, OnChain, FinishStep, NewFloor;
  }

  lemma NewestAhead(s: State)
    requires Inv(s) && s.sweep.Dispatching? && s.marker.None?
    ensures At(s) < s.sweep.lo
    ensures |s.sweep.rows| > 0 ==> At(s) < Position(s.chain, s.sweep.rows[0].sig)
  {
    var top := s.sweep.lo + |s.sweep.rows| - 1;
    if |s.sweep.rows| > 0 {
      PositionOf(s.chain, top);
      assert s.sweep.rows[0] == s.chain[top];
    }
  }

  // ---- Runs ---------------------------------------------------------------------------------

  /** Some step of the run promotes or skips. */
  ghost predicate Weakened(s: State, events: seq<Event>, mmm: bool)
    requires Possible(s, events, mmm)
    decreases |events|
  {
    && |events| > 0
    && var before, e := events[..|events| - 1], events[|events| - 1];
       || Weakened(s, before, mmm)
       || Promotes(Run(s, before, mmm), e, mmm)
       || Skips(Run(s, before, mmm), e)
  }

  /** Over every run the cursor never goes back, its promise never gets wider, and it stays the
      same if and only if no catch-up was completed and no sweep with a gap advanced the cursor. */
  lemma {:induction false} FloorKeptExactly(s: State, events: seq<Event>, mmm: bool)
    requires Inv(s) && MarkerAhead(s) && s.cursor.Some? && Possible(s, events, mmm) && AllSound(s, events, mmm)
    ensures var s' := Run(s, events, mmm);
            && Inv(s') && MarkerAhead(s') && s'.cursor.Some? && At(s) <= At(s') && FloorOf(s) <= FloorOf(s')
            && (FloorOf(s') == FloorOf(s) <==> !Weakened(s, events, mmm))
    decreases |events|
  {
    hide Inv, Step, Enabled, Sound, MarkerAhead, Promotes, Skips, At, FloorOf;
    if |events| > 0 {
      var before, e := events[..|events| - 1], events[|events| - 1];
      FloorKeptExactly(s, before, mmm);
      FloorMovesExactly(Run(s, before, mmm), e, mmm);
      StepKeepsInv(Run(s, before, mmm), e, mmm);
    }
  }

  // ---- Which sweeps have a gap --------------------------------------------------------------

  /** A fetch from the cursor that finds more new signatures than its page budget, in a mode
      that does not flag it. */
  ghost predicate OverBudget(s: State, lean: bool, mmm: bool) {
    && s.marker.None? && s.cursor.Some?
    && |s.chain| - (At(s) + 1) > MaxPages(lean, mmm) * SIG_PAGE_LIMIT && (lean || mmm)
  }

  lemma FetchGap(s: State, lean: bool, mmm: bool)
    requires Inv(s) && s.sweep.Idle?
    ensures Gap(FetchStep(s, lean, mmm)) <==> OverBudget(s, lean, mmm)
  {
    hide Position, NewestFirst, Distinct, CursorSafe, MemoryTrue;
  }

  ghost predicate LastFetch(events: seq<Event>, n: nat) {
    n < |events| && events[n].Fetch? && forall k :: n < k < |events| ==> !events[k].Fetch?
  }

  /** The sweep at work in `f` is what a fetch in `t` found. */
  ghost predicate SweepOf(t: State, lean: bool, mmm: bool, f: State) {
    && t.sweep.Idle? && t.cursor == f.cursor && t.marker == f.marker && t.chain <= f.chain
    && !f.sweep.Idle? && SameSweep(FetchStep(t, lean, mmm).sweep, f.sweep)
  }

  /** The sweep at work is what the last fetch of the run found. */
  ghost predicate FetchedAt(s: State, events: seq<Event>, mmm: bool, n: nat)
    requires Possible(s, events, mmm)
  {
    && LastFetch(events, n) && Possible(s, events[..n], mmm)
    && SweepOf(Run(s, events[..n], mmm), events[n].lean, mmm, Run(s, events, mmm))
  }

  predicate SameSweep(a: Sweep, b: Sweep)
    requires !a.Idle? && !b.Idle?
  {
    a.rows == b.rows && a.saturated == b.saturated && a.lo == b.lo && a.lean == b.lean
  }

  lemma SweepGoesOn(s: State, e: Event, mmm: bool)
    requires Enabled(s, e) && !Step(s, e, mmm).sweep.Idle? && !e.Fetch?
    ensures var s' := Step(s, e, mmm);
            && !s.sweep.Idle? && SameSweep(s.sweep, s'.sweep)
            && s'.cursor == s.cursor && s'.marker == s.marker && s.chain <= s'.chain
  {
    hide Planned, Answer, Remember, Fetched, MarkSeen, SafeFrom, Position, Truthful;
  }

  lemma JustFetched(s: State, events: seq<Event>, mmm: bool)
    requires |events| > 0 && Possible(s, events, mmm) && events[|events| - 1].Fetch?
    ensures FetchedAt(s, events, mmm, |events| - 1)
  {
    hide Fetched, MaxPages;
  }

  lemma FetchedBefore(s: State, events: seq<Event>, mmm: bool, n: nat)
    requires |events| > 0 && Possible(s, events, mmm) && !events[|events| - 1].Fetch?
    requires FetchedAt(s, events[..|events| - 1], mmm, n) && !Run(s, events, mmm).sweep.Idle?
    ensures FetchedAt(s, events, mmm, n)
  {
    hide Enabled, Step, SweepOf, LastFetch;
    var before, e := events[..|events| - 1], events[|events| - 1];
    LastFetchBefore(events, n);
    SweepStays(Run(s, events[..n], mmm), events[n].lean, mmm, Run(s, before, mmm), e);
  }

  lemma LastFetchBefore(events: seq<Event>, n: nat)
    requires |events| > 0 && !events[|events| - 1].Fetch? && LastFetch(events[..|events| - 1], n)
    ensures LastFetch(events, n) && events[..|events| - 1][..n] == events[..n] && events[..|events| - 1][n] == events[n]
  {
  }

  lemma SweepStays(t: State, lean: bool, mmm: bool, f: State, e: Event)
    requires SweepOf(t, lean, mmm, f) && Enabled(f, e) && !e.Fetch? && !Step(f, e, mmm).sweep.Idle?
    ensures SweepOf(t, lean, mmm, Step(f, e, mmm))
  {
    SweepGoesOn(f, e, mmm);
    hide Step, Enabled, FetchStep;
  }

  lemma {:induction false} SweepFromFetch(s: State, events: seq<Event>, mmm: bool)
    requires s.sweep.Idle? && Possible(s, events, mmm) && !Run(s, events, mmm).sweep.Idle?
    ensures exists n: nat :: FetchedAt(s, events, mmm, n)
    decreases |events|
  {
    hide Enabled, Step, FetchedAt;
    if |events| > 0 {
      var n, e := |events| - 1, events[|events| - 1];
      if e.Fetch? {
        JustFetched(s, events, mmm);
      } else {
        SweepGoesOn(Run(s, events[..n], mmm), e, mmm);
        SweepFromFetch(s, events[..n], mmm);
        var k: nat :| FetchedAt(s, events[..n], mmm, k);
        FetchedBefore(s, events, mmm, k);
      }
    }
  }

  lemma FetchedGap(s: State, events: seq<Event>, mmm: bool, n: nat)
    requires Inv(s) && Possible(s, events, mmm) && AllSound(s, events, mmm) && FetchedAt(s, events, mmm, n)
    ensures Gap(Run(s, events, mmm)) <==> OverBudget(Run(s, events[..n], mmm), events[n].lean, mmm)
  {
    SoundPrefix(s, events, mmm, n);
    CursorSafety(s, events[..n], mmm);
    var t, f := Run(s, events[..n], mmm), Run(s, events, mmm);
    FetchGap(t, events[n].lean, mmm);
    if t.cursor.Some? { PositionStays(t.chain, f.chain, t.cursor.value.sig); }
    hide Run, Position, Inv, OverBudget;
  }

  lemma {:induction false} SoundPrefix(s: State, events: seq<Event>, mmm: bool, n: nat)
    requires Possible(s, events, mmm) && AllSound(s, events, mmm) && n <= |events|
    ensures Possible(s, events[..n], mmm) && AllSound(s, events[..n], mmm)
    decreases |events|
  {
    hide Enabled, Step, Sound;
    if n < |events| {
      SoundPrefix(s, events[..|events| - 1], mmm, n);
      assert events[..|events| - 1][..n] == events[..n];
    } else {
      assert events[..n] == events;
    }
  }

  ghost predicate FetchedOverBudget(s: State, events: seq<Event>, mmm: bool, n: nat)
    requires Possible(s, events, mmm)
  {
    FetchedAt(s, events, mmm, n) && OverBudget(Run(s, events[..n], mmm), events[n].lean, mmm)
  }

  /** A sweep has a gap exactly when its fetch was over budget. */
  lemma GapExactly(s: State, events: seq<Event>, mmm: bool)
    requires Inv(s) && s.sweep.Idle? && Possible(s, events, mmm) && AllSound(s, events, mmm)
    ensures Gap(Run(s, events, mmm)) <==> exists n: nat :: FetchedOverBudget(s, events, mmm, n)
  {
    if Gap(Run(s, events, mmm)) {
      SweepFromFetch(s, events, mmm);
      hide *;
      var n: nat :| FetchedAt(s, events, mmm, n);
      FetchedGap(s, events, mmm, n);
      OverBudgetThen(s, events, mmm, n);
    }
    forall n: nat | FetchedOverBudget(s, events, mmm, n) ensures Gap(Run(s, events, mmm)) {
      hide *;
      GapThen(s, events, mmm, n);
    }
  }

  lemma OverBudgetThen(s: State, events: seq<Event>, mmm: bool, n: nat)
    requires Possible(s, events, mmm) && FetchedAt(s, events, mmm, n)
    requires OverBudget(Run(s, events[..n], mmm), events[n].lean, mmm)
    ensures FetchedOverBudget(s, events, mmm, n)
  {
  }

  lemma GapThen(s: State, events: seq<Event>, mmm: bool, n: nat)
    requires Inv(s) && Possible(s, events, mmm) && AllSound(s, events, mmm) && FetchedOverBudget(s, events, mmm, n)
    ensures Gap(Run(s, events, mmm))
  {
    hide Inv, Run, OverBudget, Gap;
    FetchedGap(s, events, mmm, n);
  }

  // ---- Runs that keep up --------------------------------------------------------------------

  /** No fetch of the run is over budget. */
  ghost predicate AllKeepUp(s: State, events: seq<Event>, mmm: bool)
    requires Possible(s, events, mmm)
    decreases |events|
  {
    |events| > 0 ==>
      && AllKeepUp(s, events[..|events| - 1], mmm)
      && (events[|events| - 1].Fetch? ==> !OverBudget(Run(s, events[..|events| - 1], mmm), events[|events| - 1].lean, mmm))
  }

  ghost predicate Unpromoted(s: State, events: seq<Event>, mmm: bool)
    requires Possible(s, events, mmm)
    decreases |events|
  {
    |events| > 0 ==>
      && Unpromoted(s, events[..|events| - 1], mmm)
      && !Promotes(Run(s, events[..|events| - 1], mmm), events[|events| - 1], mmm)
  }

  /** In full mode, a target other than MMM keeps up with any number of signatures. */
  lemma {:induction false} FullModeKeepsUp(s: State, events: seq<Event>)
    requires Possible(s, events, false) && forall i :: 0 <= i < |events| && events[i].Fetch? ==> !events[i].lean
    ensures AllKeepUp(s, events, false)
    decreases |events|
  {
    hide Step, Enabled;
    if |events| > 0 { FullModeKeepsUp(s, events[..|events| - 1]); }
  }

  lemma StepOpensNoGap(s: State, e: Event, mmm: bool)
    requires Inv(s) && !Gap(s) && Enabled(s, e) && (e.Fetch? ==> !OverBudget(s, e.lean, mmm))
    ensures !Gap(Step(s, e, mmm))
  {
    hide Position, NewestFirst, Distinct, CursorSafe, MemoryTrue, OutcomesTrue, Planned, Answer, Remember, OverBudget,
         FetchStep;
    match e
    case Confirm(rows) => ConfirmKeeps(s, rows, mmm);
    case Fetch(lean) => FetchGap(s, lean, mmm);
    case _ =>
  }

  /** While no fetch is over budget and no catch-up is completed, the promise of the first page
      is never weakened: no unresolved signature from its tail on is ever behind the cursor. */
  lemma SteadyRunSafety(s: State, events: seq<Event>, mmm: bool)
    requires Inv(s) && MarkerAhead(s) && !Gap(s) && s.cursor.Some?
    requires Possible(s, events, mmm) && AllSound(s, events, mmm)
    requires AllKeepUp(s, events, mmm) && Unpromoted(s, events, mmm)
    ensures var s' := Run(s, events, mmm);
            && !Gap(s') && s'.cursor.Some? && FloorOf(s') == FloorOf(s) && At(s) <= At(s') < |s'.chain|
            && forall i :: FloorOf(s) <= i <= At(s') ==> Resolved(s'.chain[i], s'.settled)
  {
    NeverWeakened(s, events, mmm);
    FloorKeptExactly(s, events, mmm);
    hide Run, Position, PageTrue, MemoryTrue, OutcomesTrue, Resolved, Weakened;
  }

  lemma {:induction false} NeverWeakened(s: State, events: seq<Event>, mmm: bool)
    requires Inv(s) && !Gap(s) && Possible(s, events, mmm) && AllSound(s, events, mmm)
    requires AllKeepUp(s, events, mmm) && Unpromoted(s, events, mmm)
    ensures !Weakened(s, events, mmm) && !Gap(Run(s, events, mmm))
    decreases |events|
  {
    hide Inv, Step, Enabled, Sound, Promotes, Gap, OverBudget;
    if |events| > 0 {
      var before := events[..|events| - 1];
      NeverWeakened(s, before, mmm);
      CursorSafety(s, before, mmm);
      StepOpensNoGap(Run(s, before, mmm), events[|events| - 1], mmm);
      NoGapNoSkip(Run(s, before, mmm), events[|events| - 1]);
    }
  }

  lemma NoGapNoSkip(s: State, e: Event)
    requires !Gap(s)
    ensures !Skips(s, e)
  {
  }

  // ---- How far a sweep moves the cursor -----------------------------------------------------

  /** A sweep that is neither saturated nor part of a catch-up takes the cursor as far as its page
      allows: to a row that is safe with everything older, and past every other such row. When
      there is none the cursor stays. */
  lemma CursorAdvances(s: State, mmm: bool)
    requires Inv(s) && Enabled(s, Finish) && s.marker.None? && !s.sweep.saturated
    ensures var t, rows := Step(s, Finish, mmm), s.sweep.rows;
            && t.marker.None? && t.sweep.Idle? && t.chain == s.chain
            && ((forall i: nat :: !SafeAt(s.sweep.outcomes, i)) ==> t.cursor == s.cursor)
            && (forall i: nat :: SafeAt(s.sweep.outcomes, i) ==>
                  && i < |rows| && Position(s.chain, rows[i].sig) <= At(t) < |s.chain|
                  && exists k: nat :: SafeAt(s.sweep.outcomes, k) && k < |rows| && CursorSig(t) == Some(rows[k].sig))
  {
    var rows, t := s.sweep.rows, FinishStep(s);
    if |rows| > 0 { FinishEnds(s); }
    forall i: nat | SafeAt(s.sweep.outcomes, i)
      ensures i < |rows| && Position(s.chain, rows[i].sig) <= At(t) < |s.chain|
      ensures exists k: nat :: SafeAt(s.sweep.outcomes, k) && k < |rows| && CursorSig(t) == Some(rows[k].sig)
    {
      var k := SafeFrom(s.sweep.outcomes);
      NewestSafeIs(s.sweep.outcomes, i);
      NewestSafeIs(s.sweep.outcomes, k);
      PageAt(s, i);
      PageAt(s, k);
      hide Position, Inv, SafeFrom, NewestSafe, FinishStep, NewFloor;
      assert SafeAt(s.sweep.outcomes, k) && CursorSig(t) == Some(rows[k].sig);
    }
  }

  lemma PageAt(s: State, i: nat)
    requires Inv(s) && !s.sweep.Idle? && s.marker.None? && i < |s.sweep.rows|
    ensures Position(s.chain, s.sweep.rows[i].sig) == s.sweep.lo + |s.sweep.rows| - 1 - i < |s.chain|
  {
    var at := s.sweep.lo + |s.sweep.rows| - 1 - i;
    assert s.sweep.rows[i] == s.chain[at];
    PositionOf(s.chain, at);
  }

  /** When all of the page of such a sweep is safe, the cursor ends on what was the newest
      signature of the chain when the page was fetched. */
  lemma SafePageReachesTop(s: State, events: seq<Event>, mmm: bool, n: nat)
    requires Inv(s) && Possible(s, events, mmm) && AllSound(s, events, mmm) && FetchedAt(s, events, mmm, n)
    requires var f := Run(s, events, mmm);
             && Enabled(f, Finish) && f.marker.None? && !f.sweep.saturated && |f.sweep.rows| > 0
             && SafeAt(f.sweep.outcomes, 0)
    ensures var t, f := Run(s, events[..n], mmm), Step(Run(s, events, mmm), Finish, mmm);
            f.cursor.Some? && At(f) == |t.chain| - 1 && f.cursor.value.sig == t.chain[|t.chain| - 1].sig
  {
    hide Run, Inv, AllSound, Possible, Enabled, Step, SweepOf, SafeAt, LastFetch, At;
    FetchedWhat(s, events, mmm, n);
    SoundPrefix(s, events, mmm, n);
    CursorSafety(s, events, mmm);
    CursorSafety(s, events[..n], mmm);
    var lean := events[n].lean;
    TopReached(Run(s, events[..n], mmm), lean, mmm, Run(s, events, mmm));
  }

  lemma FetchedWhat(s: State, events: seq<Event>, mmm: bool, n: nat)
    requires Possible(s, events, mmm) && FetchedAt(s, events, mmm, n)
    ensures n < |events| && events[n].Fetch? && Possible(s, events[..n], mmm)
    ensures SweepOf(Run(s, events[..n], mmm), events[n].lean, mmm, Run(s, events, mmm))
  {
    hide Run, Possible, SweepOf;
  }

  lemma TopReached(t: State, lean: bool, mmm: bool, f: State)
    requires Inv(t) && Inv(f) && SweepOf(t, lean, mmm, f) && Enabled(f, Finish) && f.marker.None? && !f.sweep.saturated
    requires |f.sweep.rows| > 0 && SafeAt(f.sweep.outcomes, 0)
    ensures var g := Step(f, Finish, mmm);
            g.cursor.Some? && At(g) == |t.chain| - 1 && g.cursor.value.sig == t.chain[|t.chain| - 1].sig
  {
    CursorAdvances(f, mmm);
    FetchedTop(t, lean, mmm);
    PageAt(f, 0);
    var g := Step(f, Finish, mmm);
    hide Inv, Enabled, Step, FetchStep, Position, SafeAt;
    var k: nat :| SafeAt(f.sweep.outcomes, k) && k < |f.sweep.rows| && CursorSig(g) == Some(f.sweep.rows[k].sig);
    PageAt(f, k);
    assert k == 0;
  }

  /** Without a marker, a fetched page starts at the newest signature of the chain. */
  lemma FetchedTop(t: State, lean: bool, mmm: bool)
    requires Inv(t) && t.sweep.Idle? && t.marker.None?
    ensures var a := FetchStep(t, lean, mmm).sweep;
            |a.rows| > 0 ==> a.lo + |a.rows| == |t.chain| && a.rows[0] == t.chain[|t.chain| - 1]
  {
    FetchedOnChain(t.chain, CursorSig(t), None, MaxPages(lean, mmm));
    hide Position, Distinct, Fetched, MaxPages;
  }

  // ---- From the start of a target -----------------------------------------------------------

  /** A fetch without a cursor, whose page of the newest signatures starts at `lo`. */
  ghost predicate FirstPageAt(s: State, events: seq<Event>, mmm: bool, n: nat, lo: nat) {
    && n < |events| && events[n].Fetch? && Possible(s, events[..n], mmm)
    && var t := Run(s, events[..n], mmm); t.cursor.None? && lo == Max(0, |t.chain| - SIG_PAGE_LIMIT)
  }

  ghost predicate FirstPage(s: State, events: seq<Event>, mmm: bool, lo: nat) {
    exists n: nat :: FirstPageAt(s, events, mmm, n, lo)
  }

  lemma FirstPageStays(s: State, events: seq<Event>, mmm: bool, lo: nat)
    requires |events| > 0 && FirstPage(s, events[..|events| - 1], mmm, lo)
    ensures FirstPage(s, events, mmm, lo)
  {
    var n: nat :| FirstPageAt(s, events[..|events| - 1], mmm, n, lo);
    assert events[..|events| - 1][..n] == events[..n];
    assert FirstPageAt(s, events, mmm, n, lo);
  }

  ghost predicate Cold(s: State) {
    s.cursor.None? && s.marker.None? && (!s.sweep.Idle? ==> !s.sweep.saturated)
  }

  lemma ColdStep(s: State, e: Event, mmm: bool)
    requires Inv(s) && Cold(s) && Enabled(s, e)
    ensures var s' := Step(s, e, mmm);
            && (s'.cursor.None? ==> Cold(s')) && (e.Fetch? ==> s'.cursor.None?)
            && (s'.cursor.None? && !s'.sweep.Idle? ==>
                  if e.Fetch? then s'.sweep.lo == Max(0, |s.chain| - SIG_PAGE_LIMIT)
                  else !s.sweep.Idle? && s'.sweep.lo == s.sweep.lo)
            && (s'.cursor.Some? ==> !s.sweep.Idle? && s'.sweep.Idle? && s'.marker.None? && FloorOf(s') == s.sweep.lo)
  {
    hide Position, NewestFirst, Distinct, CursorSafe, MemoryTrue, OutcomesTrue, Planned, Answer, Remember, SafeFrom;
  }

  /** What the floor of a run from a cold start is, or the page that will set it. */
  ghost predicate FromFirstPage(s: State, events: seq<Event>, mmm: bool)
    requires Possible(s, events, mmm)
  {
    var s' := Run(s, events, mmm);
    if s'.cursor.Some? then FirstPage(s, events, mmm, s'.cursor.value.floor)
    else Cold(s') && (!s'.sweep.Idle? ==> FirstPage(s, events, mmm, s'.sweep.lo))
  }

  /** A target that starts without a cursor takes its floor from the tail of its first page, at
      the first sweep whose oldest row is safe, and while it keeps up and completes no catch-up
      that floor stays and everything from it up to the cursor is resolved. */
  lemma ColdRunSafety(s: State, events: seq<Event>, mmm: bool)
    requires Inv(s) && Cold(s) && s.sweep.Idle? && Possible(s, events, mmm) && AllSound(s, events, mmm)
    requires AllKeepUp(s, events, mmm) && Unpromoted(s, events, mmm)
    ensures FromFirstPage(s, events, mmm)
    ensures var s' := Run(s, events, mmm);
            s'.cursor.Some? ==>
              && At(s') < |s'.chain| && !Gap(s')
              && forall i :: FloorOf(s') <= i <= At(s') ==> Resolved(s'.chain[i], s'.settled)
  {
    ColdRun(s, events, mmm);
    NeverWeakened(s, events, mmm);
    hide Run, Position, PageTrue, MemoryTrue, OutcomesTrue, Resolved, FromFirstPage, Weakened;
  }

  lemma {:induction false} ColdRun(s: State, events: seq<Event>, mmm: bool)
    requires Inv(s) && Cold(s) && s.sweep.Idle? && Possible(s, events, mmm) && AllSound(s, events, mmm)
    requires AllKeepUp(s, events, mmm) && Unpromoted(s, events, mmm)
    ensures FromFirstPage(s, events, mmm) && Inv(Run(s, events, mmm)) && MarkerAhead(Run(s, events, mmm))
    decreases |events|
  {
    CursorSafety(s, events, mmm);
    if |events| > 0 {
      var before := events[..|events| - 1];
      ColdRun(s, before, mmm);
      NeverWeakened(s, before, mmm);
      ColdRunStep(s, events, mmm);
    }
  }

  lemma ColdRunStep(s: State, events: seq<Event>, mmm: bool)
    requires |events| > 0 && Possible(s, events, mmm)
    requires FromFirstPage(s, events[..|events| - 1], mmm)
    requires var t, e := Run(s, events[..|events| - 1], mmm), events[|events| - 1];
             Inv(t) && MarkerAhead(t) && !Gap(t) && !Promotes(t, e, mmm)
    ensures FromFirstPage(s, events, mmm) && MarkerAhead(Run(s, events, mmm))
  {
    hide Inv, Step, Enabled, Promotes, Gap, FirstPage, At, Position;
    var before, e := events[..|events| - 1], events[|events| - 1];
    var t := Run(s, before, mmm);
    if t.cursor.Some? {
      FloorMovesExactly(t, e, mmm);
      NoGapNoSkip(t, e);
      FirstPageStays(s, events, mmm, t.cursor.value.floor);
    } else {
      ColdStep(t, e, mmm);
      if e.Fetch? {
        NowFirst(s, events, mmm);
      } else if !t.sweep.Idle? {
        FirstPageStays(s, events, mmm, t.sweep.lo);
      }
    }
  }

  lemma NowFirst(s: State, events: seq<Event>, mmm: bool)
    requires |events| > 0 && Possible(s, events, mmm) && events[|events| - 1].Fetch?
    requires Run(s, events[..|events| - 1], mmm).cursor.None?
    ensures FirstPage(s, events, mmm, Max(0, |Run(s, events[..|events| - 1], mmm).chain| - SIG_PAGE_LIMIT))
  {
    assert FirstPageAt(s, events, mmm, |events| - 1, Max(0, |Run(s, events[..|events| - 1], mmm).chain| - SIG_PAGE_LIMIT));
  }

  // ---- Sweeps that do not --------------------------------------------------------------------

  lemma {:induction false} FailedRows(page: seq<Row>, m: Memory)
    requires forall i :: 0 <= i < |page| ==> page[i].failed
    ensures var r := ScanPage(page, m);
            r.unseen == [] && r.seen == m.seen && forall i :: 0 <= i < |page| ==> Safe(r.outcomes[i])
    decreases |page|
  {
    if |page| > 0 { FailedRows(page[..|page| - 1], m); }
  }

  /** In a lean mode, and for MMM in every mode, a page that is cut off is not flagged: when its
      rows all failed on chain, the cursor jumps to the newest signature, and everything
      between the old cursor and the page stays behind it, resolved or not. */
  lemma CutOffPageSkips(s: State, lean: bool, mmm: bool)
    requires Inv(s) && s.sweep.Idle? && s.marker.None? && s.cursor.Some? && s.backlog == [] && (lean || mmm)
    requires var n := MaxPages(lean, mmm) * SIG_PAGE_LIMIT;
             && |s.chain| - (At(s) + 1) > n
             && forall i :: |s.chain| - n <= i < |s.chain| ==> s.chain[i].failed
    ensures var events := [Fetch(lean), Scan(s.clock), Finish];
            && Possible(s, events, mmm)
            && At(Run(s, events, mmm)) == |s.chain| - 1 && Run(s, events, mmm).chain == s.chain
            && Run(s, events, mmm).settled == s.settled
  {
    hide Position, Distinct, Inv, Step, Enabled, FetchStep, ScanStep, FinishStep, MaxPages, Possible, Run;
    var n, top := MaxPages(lean, mmm) * SIG_PAGE_LIMIT, |s.chain|;
    CutOffFetch(s, lean, mmm);
    var a := FetchStep(s, lean, mmm);
    FailedScan(a, s.clock, mmm);
    AllSafeFinish(ScanStep(a, s.clock, mmm));
    PositionOf(s.chain, top - 1);
    FetchIs(s, lean, mmm);
    ScanIs(a, s.clock, mmm);
    FinishIs(ScanStep(a, s.clock, mmm), mmm);
    Three(s, Fetch(lean), Scan(s.clock), Finish, mmm);
  }

  lemma CutOffFetch(s: State, lean: bool, mmm: bool)
    requires Inv(s) && s.marker.None? && s.cursor.Some? && (lean || mmm)
    requires |s.chain| - (At(s) + 1) > MaxPages(lean, mmm) * SIG_PAGE_LIMIT
    ensures var n, a := MaxPages(lean, mmm) * SIG_PAGE_LIMIT, FetchStep(s, lean, mmm);
            && a == s.(sweep := a.sweep) && a.sweep.Paged? && !a.sweep.saturated
            && a.sweep.rows == NewestFirst(s.chain, |s.chain| - n, |s.chain|) && n > 0
            && Distinct(s.chain)
  {
    hide Position, NewestFirst, Distinct;
  }

  lemma FailedScan(a: State, now: int, mmm: bool)
    requires a.sweep.Paged? && a.backlog == [] && |a.sweep.rows| > 0
    requires forall i :: 0 <= i < |a.sweep.rows| ==> a.sweep.rows[i].failed
    ensures var b := ScanStep(a, now, mmm);
            && b == a.(sweep := b.sweep, memory := b.memory, marked := b.marked, clock := now, backlog := [])
            && b.sweep.Dispatching? && b.sweep.inFlight == [] && b.sweep.rows == a.sweep.rows
            && b.sweep.saturated == a.sweep.saturated
            && |b.sweep.outcomes| == |b.sweep.rows|
            && forall i :: 0 <= i < |b.sweep.outcomes| ==> Safe(b.sweep.outcomes[i])
  {
    FailedRows(a.sweep.rows, a.memory);
    hide ScanPage, FreshBudget;
  }

  lemma AllSafeFinish(b: State)
    requires b.sweep.Dispatching? && |b.sweep.outcomes| == |b.sweep.rows| > 0
    requires b.marker.None? && !b.sweep.saturated
    requires forall i :: 0 <= i < |b.sweep.outcomes| ==> Safe(b.sweep.outcomes[i])
    ensures var c := FinishStep(b);
            c == b.(sweep := Idle, cursor := c.cursor) && c.cursor.Some? && c.cursor.value.sig == b.sweep.rows[0].sig
  {
    hide Safe;
    SafeFromIs(b.sweep.outcomes, 0);
  }

  lemma FetchIs(s: State, lean: bool, mmm: bool)
    requires s.sweep.Idle?
    ensures Enabled(s, Fetch(lean)) && Step(s, Fetch(lean), mmm) == FetchStep(s, lean, mmm)
  {
  }

  lemma ScanIs(s: State, now: int, mmm: bool)
    requires s.sweep.Paged? && now >= s.clock
    ensures Enabled(s, Scan(now)) && Step(s, Scan(now), mmm) == ScanStep(s, now, mmm)
  {
  }

  lemma FinishIs(s: State, mmm: bool)
    requires s.sweep.Dispatching? && s.sweep.inFlight == []
    ensures Enabled(s, Finish) && Step(s, Finish, mmm) == FinishStep(s)
  {
  }

  lemma Three(s: State, a: Event, b: Event, c: Event, mmm: bool)
    requires Enabled(s, a) && Enabled(Step(s, a, mmm), b)
    requires Enabled(Step(Step(s, a, mmm), b, mmm), c)
    ensures Possible(s, [a, b, c], mmm)
    ensures Run(s, [a, b, c], mmm) == Step(Step(Step(s, a, mmm), b, mmm), c, mmm)
  {
    hide Step, Enabled;
    OneMore(s, [], a, mmm);
    OneMore(s, [a], b, mmm);
    OneMore(s, [a, b], c, mmm);
    assert [] + [a] == [a] && [a] + [b] == [a, b] && [a, b] + [c] == [a, b, c];
  }

  /** A settled signature under the cursor, an unsettled sale, and `n` failed transactions. */
  function SaleBelowFailures(n: nat): State {
    var chain := seq(n + 2, i requires 0 <= i < n + 2 => Row(Name(i), i > 1));
    State(chain, {Name(0)}, Some(Cursor(Name(0), 0)), None, NOTHING, [], Idle, {}, 0)
  }

  /** So one unflagged sweep can pass a sale that nobody has ingested. */
  lemma SaleLeftBehind(lean: bool, mmm: bool)
    requires lean || mmm
    ensures var s := SaleBelowFailures(MaxPages(lean, mmm) * SIG_PAGE_LIMIT);
            var events := [Fetch(lean), Scan(0), Finish];
            && Inv(s) && MarkerAhead(s) && !Gap(s) && Possible(s, events, mmm)
            && s.cursor.value.floor <= 1 <= At(Run(s, events, mmm))
            && Run(s, events, mmm).chain == s.chain && Run(s, events, mmm).settled == s.settled
            && !Resolved(s.chain[1], s.settled)
  {
    var s := SaleBelowFailures(MaxPages(lean, mmm) * SIG_PAGE_LIMIT);
    hide MaxPages, Run, Possible, Step, FetchStep;
    forall i, j | 0 <= i < j < |s.chain| ensures s.chain[i].sig != s.chain[j].sig {
      assert |s.chain[i].sig| == i + 1 && |s.chain[j].sig| == j + 1;
    }
    PositionOf(s.chain, 0);
    assert s.chain[1].sig != Name(0);
    CutOffPageSkips(s, lean, mmm);
  }
}
