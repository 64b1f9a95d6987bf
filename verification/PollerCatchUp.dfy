/** What completing a catch-up says about the signatures it walked over
    (src/ingestion/amm-poller.ts). Only the last page is checked then; the rest was taken up by
    earlier sweeps of the same process. */
module PollerCatchUp {
  import opened CatchupMarker
  import opened Options
  import opened IngestOutcomes
  import opened PollerPaging
  import opened PollerBacklog
  import opened PollerSweep
  import opened PollerMemory
  import opened PollerRuns
  import opened PollerFloor
  import opened PollerQueue

  /** Failed on chain, or taken up by this process, or by another target. */
  predicate Taken(row: Row, marked: set<string>, others: set<string>) {
    row.failed || row.sig in marked || row.sig in others
  }

  ghost predicate SeenTaken(s: State, others: set<string>) {
    forall sig :: sig in s.memory.seen ==> sig in s.marked || sig in others
  }

  ghost predicate PageTaken(s: State, others: set<string>) {
    s.sweep.Dispatching? ==> forall i :: 0 <= i < |s.sweep.rows| ==> Taken(s.sweep.rows[i], s.marked, others)
  }

  function BeforeAt(s: State): nat
    requires s.marker.Some?
  {
    Position(s.chain, s.marker.value.before)
  }

  function FrozenAt(s: State): nat
    requires s.marker.Some?
  {
    Position(s.chain, s.marker.value.frozenNewest)
  }

  /** What the catch-up has walked over so far. */
  ghost predicate WalkTaken(s: State, others: set<string>) {
    s.marker.Some? ==>
      && s.cursor.Some? && BeforeAt(s) <= FrozenAt(s) < |s.chain|
      && forall i :: BeforeAt(s) <= i <= FrozenAt(s) ==> Taken(s.chain[i], s.marked, others)
  }

  /** The page of a catch-up ends with the next `n` rows of the walk. */
  ghost predicate Walks(s: State, n: nat, top: seq<Row>)
    requires s.marker.Some? && !s.sweep.Idle?
  {
    && BeforeAt(s) <= |s.chain| && n <= BeforeAt(s)
    && s.sweep.rows == top + NewestFirst(s.chain, BeforeAt(s) - n, BeforeAt(s))
    && if s.sweep.saturated then n > 0 else BeforeAt(s) - n <= At(s) + 1
  }

  ghost predicate CatchUpPage(s: State) {
    s.marker.Some? && !s.sweep.Idle? ==> exists n: nat, top :: Walks(s, n, top)
  }

  ghost predicate CatchUpInv(s: State, others: set<string>) {
    SeenTaken(s, others) && PageTaken(s, others) && WalkTaken(s, others) && CatchUpPage(s)
  }

  /** A fetch of a catch-up that is cut off without a flag. */
  ghost predicate CutOff(s: State, e: Event, mmm: bool) {
    && e.Fetch? && s.marker.Some? && (e.lean || mmm)
    && Pending(s.chain, CursorSig(s), MarkerBefore(s)) > MaxPages(e.lean, mmm) * SIG_PAGE_LIMIT
  }

  function OtherSigs(e: Event): set<string> { if e.OtherMarks? then {e.sig} else {} }

  // ---- Every step ---------------------------------------------------------------------------

  lemma MoreTaken(s: State, t: State, others: set<string>, more: set<string>)
    requires CatchUpInv(s, others) && s.marked <= t.marked && others <= more
    requires t.chain == s.chain && t.cursor == s.cursor && t.marker == s.marker
    requires t.sweep.Idle? || (!s.sweep.Idle? && SameSweep(s.sweep, t.sweep))
    requires t.sweep.Dispatching? ==> s.sweep.Dispatching?
    ensures PageTaken(t, more) && WalkTaken(t, more) && CatchUpPage(t)
  {
    hide NewestFirst, Position, Walks;
    if t.marker.Some? && !t.sweep.Idle? {
      var n: nat, top :| Walks(s, n, top);
      StillWalks(s, t, n, top);
    }
  }

  lemma ConfirmWalks(s: State, rows: seq<Row>, mmm: bool, others: set<string>)
    requires Inv(s) && CatchUpInv(s, others) && Enabled(s, Confirm(rows))
    ensures CatchUpInv(Step(s, Confirm(rows), mmm), others)
  {
    var t := Step(s, Confirm(rows), mmm);
    hide Inv, NewestFirst, Taken, Position, Walks;
    if s.marker.Some? {
      ConfirmKeeps(s, rows, mmm);
      MarkerStays(s, rows);
      if !s.sweep.Idle? {
        var n: nat, top :| Walks(s, n, top);
        StillWalks(s, t, n, top);
      }
    }
  }

  lemma MarkerStays(s: State, rows: seq<Row>)
    requires Inv(s) && s.marker.Some?
    ensures Position(s.chain + rows, s.marker.value.before) == BeforeAt(s)
    ensures Position(s.chain + rows, s.marker.value.frozenNewest) == FrozenAt(s)
  {
    OnLaterChain(s.chain, rows, MarkerBefore(s));
    OnLaterChain(s.chain, rows, Some(s.marker.value.frozenNewest));
  }

  lemma StillWalks(s: State, t: State, n: nat, top: seq<Row>)
    requires s.marker.Some? && t.marker == s.marker && !s.sweep.Idle? && Walks(s, n, top)
    requires !t.sweep.Idle? && SameSweep(s.sweep, t.sweep)
    requires s.chain <= t.chain && BeforeAt(t) == BeforeAt(s) && At(t) == At(s)
    ensures Walks(t, n, top)
  {
    hide Position;
    assert NewestFirst(t.chain, BeforeAt(s) - n, BeforeAt(s)) == NewestFirst(s.chain, BeforeAt(s) - n, BeforeAt(s));
  }

  lemma FetchWalks(s: State, lean: bool, mmm: bool, others: set<string>)
    requires Inv(s) && CatchUpInv(s, others) && s.sweep.Idle? && !CutOff(s, Fetch(lean), mmm)
    ensures CatchUpInv(FetchStep(s, lean, mmm), others)
  {
    hide Position, NewestFirst, FetchPage, Inv, Fetched, Walks, CutOff;
    if s.marker.Some? { FetchedWalks(s, lean, mmm); }
  }

  lemma FetchedWalks(s: State, lean: bool, mmm: bool)
    requires Inv(s) && s.sweep.Idle? && !CutOff(s, Fetch(lean), mmm) && s.marker.Some? && s.cursor.Some?
    ensures var n := Min(Pending(s.chain, CursorSig(s), MarkerBefore(s)), MaxPages(lean, mmm) * SIG_PAGE_LIMIT);
            Walks(FetchStep(s, lean, mmm), n, FetchPage(s.chain, CursorSig(s), None))
  {
    CursorOn(s);
    hide Position, NewestFirst, FetchPage, Inv;
  }

  lemma CursorOn(s: State)
    requires Inv(s)
    ensures OnChain(s.chain, CursorSig(s)) && OnChain(s.chain, MarkerBefore(s)) && Distinct(s.chain)
  {
  }

  /** Every row of a page is failed, already seen, or new. */
  lemma {:induction false} ScanTakes(page: seq<Row>, m: Memory)
    ensures var r := ScanPage(page, m);
            && (forall i :: 0 <= i < |page| ==> page[i].failed || page[i].sig in m.seen || page[i].sig in r.unseen)
            && (forall sig :: sig in r.seen ==> sig in m.seen || sig in r.unseen)
    decreases |page|
  {
    if |page| > 0 { ScanTakes(page[..|page| - 1], m); }
  }

  lemma ScanWalks(s: State, now: int, mmm: bool, others: set<string>)
    requires CatchUpInv(s, others) && s.sweep.Paged?
    ensures CatchUpInv(ScanStep(s, now, mmm), others)
  {
    var t := ScanStep(s, now, mmm);
    hide Position, NewestFirst, ScanPage, Walks;
    if |s.sweep.rows| > 0 {
      ScanTakes(s.sweep.rows, s.memory);
      PlannedScans(mmm, s.sweep.rows, s.memory, s.backlog, now);
      hide Planned;
      if t.marker.Some? {
        var n: nat, top :| Walks(s, n, top);
        StillWalks(s, t, n, top);
      }
    }
  }

  lemma SaturatedWalks(s: State, others: set<string>)
    requires Inv(s) && CatchUpInv(s, others) && s.sweep.Dispatching? && |s.sweep.rows| > 0 && s.sweep.saturated
    requires s.cursor.Some?
    ensures WalkTaken(FinishStep(s), others)
  {
    CursorOn(s);
    hide Position, NewestFirst, WalkTaken, FinishStep, SeenTaken;
    if s.marker.None? {
      WalkStarts(s, others);
    } else {
      hide Inv;
      var n: nat, top :| Walks(s, n, top);
      WalksFurther(s, n, top, others);
    }
  }

  lemma WalkStarts(s: State, others: set<string>)
    requires PageTrue(s) && Distinct(s.chain) && PageTaken(s, others) && s.marker.None? && s.cursor.Some?
    requires s.sweep.Dispatching? && |s.sweep.rows| > 0 && s.sweep.saturated
    ensures WalkTaken(FinishStep(s), others)
  {
    var rows, lo, t := s.sweep.rows, s.sweep.lo, FinishStep(s);
    assert rows[0] == s.chain[lo + |rows| - 1] && rows[|rows| - 1] == s.chain[lo];
    PositionOf(s.chain, lo + |rows| - 1);
    PositionOf(s.chain, lo);
    hide Position, Distinct, Taken;
    forall i | lo <= i <= lo + |rows| - 1 ensures Taken(s.chain[i], s.marked, others) {
      assert rows[lo + |rows| - 1 - i] == s.chain[i];
    }
  }

  lemma WalksFurther(s: State, n: nat, top: seq<Row>, others: set<string>)
    requires Distinct(s.chain) && PageTaken(s, others) && WalkTaken(s, others) && s.marker.Some?
    requires s.sweep.Dispatching? && |s.sweep.rows| > 0 && s.sweep.saturated && Walks(s, n, top)
    ensures WalkTaken(FinishStep(s), others)
  {
    var p, t := BeforeAt(s), FinishStep(s);
    var rows := s.sweep.rows;
    assert rows[|rows| - 1] == s.chain[p - n];
    PositionOf(s.chain, p - n);
    hide Position;
    WalkedRows(s, n, top, others);
  }

  lemma WalkedRows(s: State, n: nat, top: seq<Row>, others: set<string>)
    requires s.marker.Some? && s.sweep.Dispatching? && PageTaken(s, others) && Walks(s, n, top)
    ensures var p := BeforeAt(s); forall i :: p - n <= i < p ==> Taken(s.chain[i], s.marked, others)
  {
    hide Position;
    var p := BeforeAt(s);
    forall i | p - n <= i < p ensures Taken(s.chain[i], s.marked, others) {
      assert s.sweep.rows[|top| + p - 1 - i] == s.chain[i];
    }
  }

  lemma FinishWalks(s: State, others: set<string>)
    requires Inv(s) && CatchUpInv(s, others) && s.sweep.Dispatching? && (s.sweep.saturated ==> s.cursor.Some?)
    ensures CatchUpInv(FinishStep(s), others)
  {
    if |s.sweep.rows| > 0 && s.sweep.saturated { SaturatedWalks(s, others); }
    hide Position, NewestFirst, Inv, SafeFrom, Taken;
  }

  /** Sweeps are only saturated from a cursor. */
  ghost predicate FromCursor(s: State) { !s.sweep.Idle? && s.sweep.saturated ==> s.cursor.Some? }

  lemma StepWalks(s: State, e: Event, mmm: bool, others: set<string>)
    requires Inv(s) && CatchUpInv(s, others) && FromCursor(s) && Enabled(s, e) && !e.Crash? && !CutOff(s, e, mmm)
    ensures CatchUpInv(Step(s, e, mmm), others + OtherSigs(e)) && FromCursor(Step(s, e, mmm))
  {
    hide Position, NewestFirst, Inv, FetchStep, ScanStep, FinishStep, Taken;
    StepFromCursor(s, e, mmm);
    assert others + {} == others;
    match e
    case Confirm(rows) => ConfirmWalks(s, rows, mmm, others);
    case Fetch(lean) => FetchWalks(s, lean, mmm, others);
    case Scan(now) => ScanWalks(s, now, mmm, others);
    case Finish => FinishWalks(s, others);
    case _ => QuietWalks(s, e, mmm, others);
  }

  lemma StepFromCursor(s: State, e: Event, mmm: bool)
    requires FromCursor(s) && Enabled(s, e)
    ensures FromCursor(Step(s, e, mmm))
  {
    hide Position, Planned, Answer, Remember, MarkSeen, SafeFrom;
  }

  lemma QuietWalks(s: State, e: Event, mmm: bool, others: set<string>)
    requires CatchUpInv(s, others) && Enabled(s, e)
    requires e.Settle? || e.Verdict? || e.OtherMarks? || e.OtherRemembers? || e.Abandon?
    ensures CatchUpInv(Step(s, e, mmm), others + OtherSigs(e))
  {
    var t := Step(s, e, mmm);
    hide Position, Truthful, Requeued, Taken;
    MoreTaken(s, t, others, others + OtherSigs(e));
  }

  // ---- Runs of one process ------------------------------------------------------------------

  /** What other targets marked during the run. */
  ghost function AllOtherSigs(events: seq<Event>): set<string> {
    if |events| == 0 then {} else AllOtherSigs(events[..|events| - 1]) + OtherSigs(events[|events| - 1])
  }

  /** A run of one process in which no fetch of a catch-up is cut off without a flag. */
  ghost predicate WalksOn(s: State, events: seq<Event>, mmm: bool)
    requires Possible(s, events, mmm)
    decreases |events|
  {
    |events| > 0 ==>
      && WalksOn(s, events[..|events| - 1], mmm)
      && !events[|events| - 1].Crash? && !CutOff(Run(s, events[..|events| - 1], mmm), events[|events| - 1], mmm)
  }

  lemma {:induction false} RunWalks(s: State, events: seq<Event>, mmm: bool)
    requires Inv(s) && CatchUpInv(s, {}) && FromCursor(s)
    requires Possible(s, events, mmm) && AllSound(s, events, mmm) && WalksOn(s, events, mmm)
    ensures CatchUpInv(Run(s, events, mmm), AllOtherSigs(events)) && FromCursor(Run(s, events, mmm))
    decreases |events|
  {
    hide Inv, CatchUpInv, FromCursor, Step, Enabled, Sound, CutOff;
    if |events| > 0 {
      var before := events[..|events| - 1];
      RunWalks(s, before, mmm);
      CursorSafety(s, before, mmm);
      StepWalks(Run(s, before, mmm), events[|events| - 1], mmm, AllOtherSigs(before));
    }
  }

  lemma PromotionTakes(s: State, e: Event, mmm: bool, others: set<string>)
    requires Inv(s) && CatchUpInv(s, others) && Enabled(s, e) && Promotes(s, e, mmm)
    ensures var t := Step(s, e, mmm);
            && At(t) < |s.chain| && t.chain == s.chain && t.backlog == s.backlog && t.settled == s.settled
            && (s.sweep.Dispatching? ==> s.sweep.inFlight == [])
            && forall i: nat :: At(s) < i <= At(t) ==> Taken(s.chain[i], s.marked, others)
  {
    CursorOn(s);
    hide Inv, NewestFirst, Position, SafeFrom, Taken, Planned, Fetched, Truthful, Remember, MarkSeen;
    var n: nat, top :| Walks(s, n, top);
    if s.sweep.Dispatching? { WalkedRows(s, n, top, others); }
  }

  /** When a process completes a catch-up, everything between the old cursor and the new one is
      failed on chain, settled, or waits in the queue, unless another target took it up. */
  lemma CatchUpKeepsAll(s: State, events: seq<Event>, e: Event, mmm: bool)
    requires Inv(s) && Conserved(s) && s.sweep.Idle? && s.marker.None? && SeenTaken(s, {})
    requires Possible(s, events, mmm) && AllSound(s, events, mmm) && WalksOn(s, events, mmm)
    requires Enabled(Run(s, events, mmm), e) && Promotes(Run(s, events, mmm), e, mmm)
    ensures var f := Run(s, events, mmm);
            var t := Step(f, e, mmm);
            && At(t) < |t.chain|
            && forall i: nat :: At(f) < i <= At(t) ==>
                 || Resolved(t.chain[i], t.settled) || Held(t.backlog, t.chain[i].sig)
                 || t.chain[i].sig in AllOtherSigs(events)
  {
    RunWalks(s, events, mmm);
    CursorSafety(s, events, mmm);
    NothingLost(s, events, mmm);
    var f := Run(s, events, mmm);
    PromotionTakes(f, e, mmm, AllOtherSigs(events));
    hide Run, Step, Enabled, Inv, CatchUpInv, Promotes, At, AllOtherSigs, Held;
    assert forall sig :: !Working(f, sig) by { NoneWorking(f); }
  }

  lemma NoneWorking(f: State)
    requires f.sweep.Dispatching? ==> f.sweep.inFlight == []
    ensures forall sig :: !Working(f, sig)
  {
  }

  // ---- What a catch-up can lose -------------------------------------------------------------

  lemma {:induction false} RunJoins(s: State, a: seq<Event>, b: seq<Event>, mmm: bool)
    requires Possible(s, a, mmm) && Possible(Run(s, a, mmm), b, mmm)
    ensures Possible(s, a + b, mmm) && Run(s, a + b, mmm) == Run(Run(s, a, mmm), b, mmm)
    decreases |b|
  {
    hide Step, Enabled;
    if |b| == 0 {
      assert a + b == a;
    } else {
      var n := |b| - 1;
      RunJoins(s, a, b[..n], mmm);
      OneMore(s, a + b[..n], b[n], mmm);
      assert a + b == a + b[..n] + [b[n]];
    }
  }

  /** A last page whose rows all failed completes the catch-up. */
  lemma FailedPagePromotes(s: State, lean: bool, mmm: bool)
    requires s.sweep.Idle? && s.marker.Some? && s.backlog == []
    requires var a := FetchStep(s, lean, mmm);
             && !a.sweep.saturated && |a.sweep.rows| > 0
             && forall i :: 0 <= i < |a.sweep.rows| ==> a.sweep.rows[i].failed
    ensures var events := [Fetch(lean), Scan(s.clock), Finish];
            && Possible(s, events, mmm)
            && var t := Run(s, events, mmm);
               && t.cursor == Promoted(s).cursor && t.marker == None && t.chain == s.chain
               && t.settled == s.settled && t.backlog == []
  {
    hide Position, Step, Enabled, ScanStep, MaxPages, Possible, Run, Fetched;
    var a := FetchStep(s, lean, mmm);
    FailedScan(a, s.clock, mmm);
    var b := ScanStep(a, s.clock, mmm);
    SafeFromIs(b.sweep.outcomes, 0);
    FetchIs(s, lean, mmm);
    ScanIs(a, s.clock, mmm);
    FinishIs(b, mmm);
    Three(s, Fetch(lean), Scan(s.clock), Finish, mmm);
  }

  /** A full-mode fetch that fills its budget. */
  lemma FullFetch(s: State)
    requires Inv(s) && s.marker.None? && s.cursor.Some? && |s.chain| - (At(s) + 1) >= 2000
    ensures var a := FetchStep(s, false, false);
            && a == s.(sweep := a.sweep) && a.sweep.Paged? && a.sweep.saturated && !a.sweep.lean
            && a.sweep.rows == NewestFirst(s.chain, |s.chain| - 2000, |s.chain|)
  {
    hide Position, NewestFirst, Distinct;
  }

  /** The fetch that ends a catch-up of `SaleBelowFailures(n)` from where the walk stands. */
  lemma LastFetchOf(n: nat, s: State, before: nat, lean: bool)
    requires n > 100 && s.chain == SaleBelowFailures(n).chain && s.cursor == Some(Cursor(Name(0), 0)) && Distinct(s.chain)
    requires 0 < before <= n && s.marker == Some(Marker(Name(n + 1), Name(before)))
    requires before == 1 || (lean && before > 501)
    ensures var a := FetchStep(s, lean, false);
            && !a.sweep.saturated && |a.sweep.rows| > 0
            && forall i :: 0 <= i < |a.sweep.rows| ==> a.sweep.rows[i].failed
    ensures Promoted(s).cursor == Some(Cursor(Name(n + 1), n + 2))
  {
    hide Name, Position, Distinct;
    SaleBelowAt(n, 0);
    SaleBelowAt(n, before);
    SaleBelowAt(n, n + 1);
  }

  lemma SaleBelowAt(n: nat, i: nat)
    requires i < n + 2 && Distinct(SaleBelowFailures(n).chain)
    ensures Position(SaleBelowFailures(n).chain, Name(i)) == i
  {
    hide Name, Distinct, Position;
    var chain := SaleBelowFailures(n).chain;
    assert chain[i].sig == Name(i);
    PositionOf(chain, i);
  }

  lemma SaleBelow(n: nat)
    ensures var s := SaleBelowFailures(n);
            Inv(s) && At(s) == 0 && Distinct(s.chain) && !Resolved(s.chain[1], s.settled)
  {
    var s := SaleBelowFailures(n);
    forall i, j | 0 <= i < j < |s.chain| ensures s.chain[i].sig != s.chain[j].sig {
      assert |s.chain[i].sig| == i + 1 && |s.chain[j].sig| == j + 1;
    }
    PositionOf(s.chain, 0);
    assert s.chain[1].sig != Name(0);
  }

  /** When the mode changes to a lean one during a catch-up, its walk can be cut off, and the
      cursor passes a sale that no sweep ever fetched. */
  lemma LeanCatchUpSkips()
    ensures var s, events := SaleBelowFailures(2600), [Fetch(false), Scan(0), Finish, Fetch(true), Scan(0), Finish];
            && Inv(s) && Possible(s, events, false)
            && var t := Run(s, events, false);
               && t.cursor == Some(Cursor(Name(2601), 2602)) && t.chain == s.chain && t.settled == s.settled
               && !Resolved(s.chain[1], s.settled)
  {
    hide Name, Position, Distinct, Inv, Step, Enabled, FetchStep, ScanStep, MaxPages, Possible, Run, Resolved;
    var s := SaleBelowFailures(2600);
    SaleBelow(2600);
    FullFetch(s);
    var a := FetchStep(s, false, false);
    FailedScan(a, 0, false);
    var b := ScanStep(a, 0, false);
    var c := FinishStep(b);
    assert c == b.(marker := Some(Marker(Name(2601), Name(602))), sweep := Idle);
    FetchIs(s, false, false);
    ScanIs(a, 0, false);
    FinishIs(b, false);
    Three(s, Fetch(false), Scan(0), Finish, false);
    LastFetchOf(2600, c, 602, true);
    FailedPagePromotes(c, true, false);
    RunJoins(s, [Fetch(false), Scan(0), Finish], [Fetch(true), Scan(0), Finish], false);
    assert [Fetch(false), Scan(0), Finish] + [Fetch(true), Scan(0), Finish]
           == [Fetch(false), Scan(0), Finish, Fetch(true), Scan(0), Finish];
  }

  lemma {:induction false} ScanFailedThenSale(page: seq<Row>, sig: string)
    requires |page| > 0 && page[|page| - 1] == Row(sig, false)
    requires forall i :: 0 <= i < |page| - 1 ==> page[i].failed
    ensures var r := ScanPage(page, NOTHING); r.unseen == [sig] && r.seen == [sig]
  {
    FailedRows(page[..|page| - 1], NOTHING);
  }

  /** A sweep that takes up one sale and fails to ingest it. */
  lemma FailsOne(a: State, sig: string)
    requires a.sweep.Paged? && !a.sweep.lean && a.backlog == [] && a.memory == NOTHING
    requires |a.sweep.rows| > 0 && a.sweep.rows[|a.sweep.rows| - 1] == Row(sig, false)
    requires forall i :: 0 <= i < |a.sweep.rows| - 1 ==> a.sweep.rows[i].failed
    ensures var b := ScanStep(a, 0, false);
            && b.sweep.Dispatching? && |b.sweep.inFlight| == 1
            && var c := VerdictStep(b, 0, THREW, false);
               && c.sweep.Dispatching? && c.sweep.inFlight == [] && c.sweep.rows == a.sweep.rows
               && c.sweep.saturated == a.sweep.saturated && c.chain == a.chain && c.settled == a.settled
               && c.cursor == a.cursor && c.marker == a.marker && c.clock == 0
  {
    ScanFailedThenSale(a.sweep.rows, sig);
    hide ScanPage, Remember, Requeued;
    var budget := FreshBudget(false, [], 0, |a.sweep.rows|);
    assert budget >= 1;
    hide FreshBudget;
    var b := ScanStep(a, 0, false);
    assert b.sweep.inFlight[..0] + b.sweep.inFlight[1..] == [];
  }

  /** The fetch of the signature failed. */
  const THREW := Evidence(false, None, false, false, false, None)

  /** When the process stops during a catch-up, a sale that it took up and could not ingest is
      lost: the next process completes the catch-up without looking at it. */
  lemma CrashedCatchUpLoses()
    ensures var s := SaleBelowFailures(1999);
            var events := [Fetch(false), Scan(0), Verdict(0, THREW), Finish, Crash, Fetch(false), Scan(0), Finish];
            && Inv(s) && Possible(s, events, false)
            && var t := Run(s, events, false);
               && t.cursor == Some(Cursor(Name(2000), 2001)) && t.chain == s.chain && t.settled == s.settled
               && t.backlog == [] && !Resolved(s.chain[1], s.settled)
  {
    hide Name, Position, Distinct, Inv, Step, Enabled, FetchStep, ScanStep, VerdictStep, MaxPages, Possible, Run, Resolved;
    var s := SaleBelowFailures(1999);
    SaleBelow(1999);
    FullFetch(s);
    var a := FetchStep(s, false, false);
    FailsOne(a, Name(1));
    var c := VerdictStep(ScanStep(a, 0, false), 0, THREW, false);
    var d := FinishStep(c);
    assert d == c.(marker := Some(Marker(Name(2000), Name(1))), sweep := Idle);
    FirstProcess(s, a, d);
    var e := d.(memory := NOTHING, backlog := [], sweep := Idle, marked := {});
    LastFetchOf(1999, e, 1, false);
    FailedPagePromotes(e, false, false);
    var first := [Fetch(false), Scan(0), Verdict(0, THREW), Finish, Crash];
    RunJoins(s, first, [Fetch(false), Scan(0), Finish], false);
    assert first + [Fetch(false), Scan(0), Finish]
           == [Fetch(false), Scan(0), Verdict(0, THREW), Finish, Crash, Fetch(false), Scan(0), Finish];
  }

  lemma FirstProcess(s: State, a: State, d: State)
    requires s.sweep.Idle? && s.clock == 0 && a == FetchStep(s, false, false) && a.sweep.Paged? && a.clock == 0
    requires var b := ScanStep(a, 0, false);
             && b.sweep.Dispatching? && |b.sweep.inFlight| == 1
             && var c := VerdictStep(b, 0, THREW, false);
                c.sweep.Dispatching? && c.sweep.inFlight == [] && d == FinishStep(c)
    ensures var events := [Fetch(false), Scan(0), Verdict(0, THREW), Finish, Crash];
            && Possible(s, events, false)
            && Run(s, events, false) == d.(memory := NOTHING, backlog := [], sweep := Idle, marked := {})
  {
    hide Step, Enabled, FetchStep, ScanStep, VerdictStep, FinishStep;
    var b := ScanStep(a, 0, false);
    FetchIs(s, false, false);
    ScanIs(a, 0, false);
    ThrewIs(b);
    var c := VerdictStep(b, 0, THREW, false);
    FinishIs(c, false);
    CrashIs(d);
    var e1 := [] + [Fetch(false)];
    var e2 := e1 + [Scan(0)];
    var e3 := e2 + [Verdict(0, THREW)];
    var e4 := e3 + [Finish];
    OneMore(s, [], Fetch(false), false);
    OneMore(s, e1, Scan(0), false);
    OneMore(s, e2, Verdict(0, THREW), false);
    OneMore(s, e3, Finish, false);
    OneMore(s, e4, Crash, false);
    assert e4 + [Crash] == [Fetch(false), Scan(0), Verdict(0, THREW), Finish, Crash];
  }

  lemma ThrewIs(b: State)
    requires b.sweep.Dispatching? && |b.sweep.inFlight| == 1
    ensures Enabled(b, Verdict(0, THREW)) && Step(b, Verdict(0, THREW), false) == VerdictStep(b, 0, THREW, false)
  {
    hide VerdictStep;
  }

  lemma CrashIs(d: State)
    ensures Enabled(d, Crash) && Step(d, Crash, false) == d.(memory := NOTHING, backlog := [], sweep := Idle, marked := {})
  {
  }
}
