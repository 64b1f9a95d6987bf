/** Runs of one poll target (src/ingestion/amm-poller.ts). The chain, what is settled, the
    persisted cursor and the marker survive a crash; the memories, the backlog and the sweep do
    not. Signatures may settle on other paths, and other targets write the shared memories. */
module PollerRuns {
  import opened CatchupMarker
  import opened Options
  import opened IngestOutcomes
  import opened PollerPaging
  import opened PollerBacklog
  import opened PollerSweep

  /** The persisted cursor; `floor`, where its promise starts, is there for the proofs. */
  datatype Cursor = Cursor(sig: string, floor: nat)

  /** `lo` is the chain position of the oldest row of a page that was walked from the top. */
  datatype Sweep =
    | Idle
    | Paged(rows: seq<Row>, saturated: bool, lo: nat, lean: bool)
    | Dispatching(rows: seq<Row>, saturated: bool, lo: nat, lean: bool,
                  outcomes: seq<Option<IngestOutcome>>, inFlight: seq<Item>)

  datatype State = State(chain: seq<Row>, settled: set<string>, cursor: Option<Cursor>, marker: Option<Marker>,
                         memory: Memory, backlog: seq<Item>, sweep: Sweep, marked: set<string>, clock: int)

  datatype Event =
    | Confirm(rows: seq<Row>)                              // the chain grows
    | Settle(sig: string)                                  // some path reaches a terminal outcome
    | Fetch(lean: bool)
    | Scan(now: int)
    | Verdict(k: nat, evidence: Evidence)                  // of the k-th item still in flight
    | Finish
    | OtherMarks(sig: string)
    | OtherRemembers(sig: string, outcome: IngestOutcome)
    | Abandon                                              // mode change or error
    | Crash

  function CursorSig(s: State): Option<string> { if s.cursor.Some? then Some(s.cursor.value.sig) else None }

  function MarkerBefore(s: State): Option<string> { if s.marker.Some? then Some(s.marker.value.before) else None }

  /** Where the cursor stands; -1 when there is none. */
  function At(s: State): int {
    if s.cursor.Some? then Position(s.chain, s.cursor.value.sig) else -1
  }

  // ---- Steps --------------------------------------------------------------------------------

  ghost predicate Enabled(s: State, e: Event) {
    match e
    case Confirm(rows) => Distinct(s.chain + rows)
    case Settle(_) => true
    case Fetch(_) => s.sweep.Idle?
    case Scan(now) => s.sweep.Paged? && now >= s.clock
    case Verdict(k, ev) =>
      s.sweep.Dispatching? && k < |s.sweep.inFlight| && Truthful(ev, s.sweep.inFlight[k].sig in s.settled)
    case Finish => s.sweep.Dispatching? && s.sweep.inFlight == []
    case OtherMarks(_) => true
    case OtherRemembers(_, _) => true
    case Abandon => s.sweep.Dispatching? ==> s.sweep.inFlight == []
    case Crash => true
  }

  function FetchStep(s: State, lean: bool, mmm: bool): State {
    var b := Fetched(s.chain, CursorSig(s), MarkerBefore(s), MaxPages(lean, mmm));
    s.(sweep := Paged(b.rows, b.saturated, Max(0, |s.chain| - |b.rows|), lean))
  }

  /** Catch-up is over: the cursor takes the frozen newest signature, and promises nothing
      about what is older. */
  function Promoted(s: State): State
    requires s.marker.Some?
  {
    var newest := s.marker.value.frozenNewest;
    s.(cursor := Some(Cursor(newest, Position(s.chain, newest) + 1)), marker := None, sweep := Idle)
  }

  function ScanStep(s: State, now: int, mmm: bool): State
    requires s.sweep.Paged?
  {
    var rows := s.sweep.rows;
    if |rows| == 0 then (if s.marker.Some? then Promoted(s) else s.(sweep := Idle)).(clock := now)
    else
      var d := Planned(mmm, rows, s.memory, s.backlog, now);
      s.(memory := s.memory.(seen := d.scanned.seen), backlog := d.backlog, clock := now,
         sweep := Dispatching(rows, s.sweep.saturated, s.sweep.lo, s.sweep.lean, d.scanned.outcomes, d.items),
         marked := s.marked + set sig | sig in d.scanned.unseen)
  }

  function VerdictOutcome(s: State, ev: Evidence, mmm: bool): IngestOutcome
    requires s.sweep.Dispatching?
  {
    ItemOutcome(ev, mmm && s.sweep.lean)
  }

  function VerdictStep(s: State, k: nat, ev: Evidence, mmm: bool): State
    requires s.sweep.Dispatching? && k < |s.sweep.inFlight|
  {
    var a := Answer(s.sweep.rows, s.sweep.outcomes, s.memory, s.backlog, s.sweep.inFlight[k], VerdictOutcome(s, ev, mmm));
    s.(memory := a.m, backlog := a.backlog,
       sweep := s.sweep.(outcomes := a.outcomes, inFlight := s.sweep.inFlight[..k] + s.sweep.inFlight[k + 1..]))
  }

  function NewFloor(s: State): nat
    requires s.sweep.Dispatching?
  {
    if s.cursor.Some? && s.sweep.lo == At(s) + 1 then s.cursor.value.floor else s.sweep.lo
  }

  function FinishStep(s: State): State
    requires s.sweep.Dispatching?
  {
    var rows, k := s.sweep.rows, SafeFrom(s.sweep.outcomes);
    if |rows| == 0 then s.(sweep := Idle)
    else if s.sweep.saturated then
      var newest := if s.marker.Some? then s.marker.value.frozenNewest else rows[0].sig;
      s.(marker := Some(Marker(newest, rows[|rows| - 1].sig)), sweep := Idle)
    else if s.marker.Some? then
      if k < |rows| && rows[k].sig == rows[0].sig then Promoted(s) else s.(sweep := Idle)
    else if k < |rows| then s.(cursor := Some(Cursor(rows[k].sig, NewFloor(s))), sweep := Idle)
    else s.(sweep := Idle)
  }

  ghost function Step(s: State, e: Event, mmm: bool): State
    requires Enabled(s, e)
  {
    match e
    case Confirm(rows) => s.(chain := s.chain + rows)
    case Settle(sig) => s.(settled := s.settled + {sig})
    case Fetch(lean) => FetchStep(s, lean, mmm)
    case Scan(now) => ScanStep(s, now, mmm)
    case Verdict(k, ev) => VerdictStep(s, k, ev, mmm)
    case Finish => FinishStep(s)
    case OtherMarks(sig) => s.(memory := s.memory.(seen := MarkSeen(s.memory.seen, sig)))
    case OtherRemembers(sig, outcome) => s.(memory := Remember(s.memory, sig, outcome))
    case Abandon => s.(sweep := Idle)
    case Crash => s.(memory := NOTHING, backlog := [], sweep := Idle, marked := {})
  }

  ghost predicate Possible(s: State, events: seq<Event>, mmm: bool)
    decreases |events|, 0
  {
    |events| > 0 ==>
      && Possible(s, events[..|events| - 1], mmm)
      && Enabled(Run(s, events[..|events| - 1], mmm), events[|events| - 1])
  }

  ghost function Run(s: State, events: seq<Event>, mmm: bool): State
    requires Possible(s, events, mmm)
    decreases |events|, 1
  {
    if |events| == 0 then s
    else Step(Run(s, events[..|events| - 1], mmm), events[|events| - 1], mmm)
  }

  // ---- How far a sweep moves the cursor -----------------------------------------------------

  /** The row and everything older on the page has an outcome that need not be retried. */
  ghost predicate SafeAt(outcomes: seq<Option<IngestOutcome>>, i: nat) {
    i < |outcomes| && forall j :: i <= j < |outcomes| ==> outcomes[j].Some? && outcomes[j].value != RetryableError
  }

  /** The newest such row. */
  ghost predicate NewestSafe(outcomes: seq<Option<IngestOutcome>>, i: nat) {
    SafeAt(outcomes, i) && forall j: nat :: SafeAt(outcomes, j) ==> i <= j
  }

  lemma NewestSafeIs(outcomes: seq<Option<IngestOutcome>>, i: nat)
    ensures NewestSafe(outcomes, i) <==> i == SafeFrom(outcomes) && i < |outcomes|
    ensures SafeAt(outcomes, i) ==> SafeFrom(outcomes) <= i
  {
    var k := SafeFrom(outcomes);
    assert k > 0 ==> !Safe(outcomes[k - 1]);
    forall j: nat ensures SafeAt(outcomes, j) <==> k <= j < |outcomes| {}
    if k < |outcomes| { assert SafeAt(outcomes, k); }
  }

  /** The marker of a catch-up after a saturated page: it keeps the newest signature it started
      with, and goes on below the oldest row. */
  ghost predicate Frozen(marker: Option<Marker>, later: Option<Marker>, page: seq<Row>) {
    && |page| > 0 && later.Some? && later.value.before == page[|page| - 1].sig
    && later.value.frozenNewest == if marker.Some? then marker.value.frozenNewest else page[0].sig
  }

  /** The writes at the end of a sweep, from what was there before. A saturated page moves only
      the marker. In a catch-up, the cursor takes the frozen signature and the marker goes, if
      the newest safe row has the first signature of the page. Otherwise the cursor takes the
      newest safe row, if there is one. */
  ghost predicate SweepEnds(page: seq<Row>, outcomes: seq<Option<IngestOutcome>>, saturated: bool,
                            cursor: Option<Cursor>, marker: Option<Marker>,
                            cursor': Option<Cursor>, marker': Option<Marker>)
    requires |outcomes| == |page| > 0
  {
    if saturated then cursor' == cursor && Frozen(marker, marker', page)
    else if marker.Some? then
      if exists i: nat :: NewestSafe(outcomes, i) && page[i].sig == page[0].sig
      then cursor'.Some? && cursor'.value.sig == marker.value.frozenNewest && marker'.None?
      else cursor' == cursor && marker' == marker
    else
      && marker'.None?
      && (forall i: nat :: NewestSafe(outcomes, i) ==> cursor'.Some? && cursor'.value.sig == page[i].sig)
      && ((forall i: nat :: !SafeAt(outcomes, i)) ==> cursor' == cursor)
  }

  lemma FinishEnds(s: State)
    requires s.sweep.Dispatching? && |s.sweep.outcomes| == |s.sweep.rows| > 0
    ensures var t := FinishStep(s);
            SweepEnds(s.sweep.rows, s.sweep.outcomes, s.sweep.saturated, s.cursor, s.marker, t.cursor, t.marker)
  {
    var outcomes, k := s.sweep.outcomes, SafeFrom(s.sweep.outcomes);
    forall i: nat ensures NewestSafe(outcomes, i) <==> i == k && i < |outcomes| { NewestSafeIs(outcomes, i); }
    if k < |outcomes| { assert SafeAt(outcomes, k); }
    hide SafeFrom, NewestSafe, SafeAt, NewFloor, Position;
  }

  // ---- The persisted state, updated in place ------------------------------------------------

  class PollerStore {
    var cursor: Option<Cursor>
    var marker: Option<Marker>

    constructor ()
      ensures cursor.None? && marker.None?
    {
      cursor, marker := None, None;
    }

    /** The writes at the end of a sweep. Leaving catch-up early, after quiet sweeps, has the same
        effect as finishing it. */
    method FinishSweep(s: State, forceExit: bool)
      requires s.sweep.Dispatching? && |s.sweep.outcomes| == |s.sweep.rows| > 0
      requires s.cursor == cursor && s.marker == marker
      modifies this
      ensures cursor == FinishStep(s).cursor && marker == FinishStep(s).marker
      ensures SweepEnds(s.sweep.rows, s.sweep.outcomes, s.sweep.saturated, s.cursor, s.marker, cursor, marker)
    {
      FinishEnds(s);
      hide SweepEnds;
      var page := s.sweep.rows;
      var safe := SafeAdvanceSigFromPage(page, s.sweep.outcomes);
      if s.sweep.saturated {
        var newest := if marker.Some? then marker.value.frozenNewest else page[0].sig;
        marker := Some(Marker(newest, page[|page| - 1].sig));
      } else if marker.Some? && forceExit {
        if safe == Some(page[0].sig) { Promote(s); }
      } else if marker.Some? {
        if safe == Some(page[0].sig) { Promote(s); }
      } else if safe.Some? {
        cursor := Some(Cursor(safe.value, NewFloor(s)));
      }
    }

    /** A fetch that brought nothing ends a catch-up: the walk has reached the cursor. */
    method EmptySweep(s: State, now: int, mmm: bool)
      requires s.sweep.Paged? && s.sweep.rows == [] && s.cursor == cursor && s.marker == marker
      modifies this
      ensures cursor == ScanStep(s, now, mmm).cursor && marker == ScanStep(s, now, mmm).marker
      ensures marker.None? && ScanStep(s, now, mmm).sweep.Idle?
      ensures if old(marker).Some? then cursor.Some? && cursor.value.sig == old(marker).value.frozenNewest
              else cursor == old(cursor)
    {
      if marker.Some? { Promote(s); }
    }

    method Promote(s: State)
      requires s.marker == marker && marker.Some?
      modifies this
      ensures cursor == Promoted(s).cursor && marker == Promoted(s).marker
      ensures cursor.Some? && cursor.value.sig == old(marker).value.frozenNewest && marker.None?
    {
      var newest := marker.value.frozenNewest;
      cursor := Some(Cursor(newest, Position(s.chain, newest) + 1));
      marker := None;
    }
  }

  // ---- What every step keeps ----------------------------------------------------------------

  /** Nothing is left to do for the row. */
  predicate Resolved(row: Row, settled: set<string>) { row.failed || row.sig in settled }

  ghost predicate ChainOk(s: State) {
    && Distinct(s.chain) && OnChain(s.chain, CursorSig(s)) && OnChain(s.chain, MarkerBefore(s))
    && (s.marker.Some? ==> OnChain(s.chain, Some(s.marker.value.frozenNewest)))
  }

  /** Everything from the floor up to and including the cursor is resolved. */
  ghost predicate CursorSafe(s: State) {
    s.cursor.Some? ==>
      && s.cursor.value.floor <= At(s) + 1
      && forall i: nat :: s.cursor.value.floor <= i <= At(s) && i < |s.chain| ==> Resolved(s.chain[i], s.settled)
  }

  ghost predicate MemoryTrue(m: Memory, settled: set<string>) {
    forall sig :: sig in m.outcomes && IsTerminalSafe(m.outcomes[sig]) ==> sig in settled
  }

  ghost predicate OutcomesTrue(rows: seq<Row>, outcomes: seq<Option<IngestOutcome>>, settled: set<string>) {
    |outcomes| == |rows| && forall i :: 0 <= i < |rows| && Safe(outcomes[i]) ==> Resolved(rows[i], settled)
  }

  /** The page is a stretch of the chain, above the cursor when there is no marker. */
  ghost predicate PageTrue(s: State) {
    !s.sweep.Idle? ==>
      && (forall i :: 0 <= i < |s.sweep.rows| ==> OnChain(s.chain, Some(s.sweep.rows[i].sig)))
      && (s.marker.None? ==>
            && s.sweep.lo + |s.sweep.rows| <= |s.chain| && At(s) < s.sweep.lo
            && s.sweep.rows == NewestFirst(s.chain, s.sweep.lo, s.sweep.lo + |s.sweep.rows|))
  }

  ghost predicate Inv(s: State) {
    && ChainOk(s) && CursorSafe(s) && MemoryTrue(s.memory, s.settled) && PageTrue(s)
    && (s.sweep.Dispatching? ==> OutcomesTrue(s.sweep.rows, s.sweep.outcomes, s.settled))
  }

  lemma OnLaterChain(chain: seq<Row>, rows: seq<Row>, sig: Option<string>)
    requires OnChain(chain, sig)
    ensures OnChain(chain + rows, sig)
    ensures sig.Some? ==> Position(chain + rows, sig.value) == Position(chain, sig.value)
  {
    if sig.Some? {
      assert chain <= chain + rows;
      PositionStays(chain, chain + rows, sig.value);
    }
  }

  lemma ConfirmKeeps(s: State, rows: seq<Row>, mmm: bool)
    requires Inv(s) && Enabled(s, Confirm(rows))
    ensures Inv(Step(s, Confirm(rows), mmm)) && At(Step(s, Confirm(rows), mmm)) == At(s)
  {
    hide Position, Resolved, MemoryTrue, OutcomesTrue, NewestFirst;
    var s' := Step(s, Confirm(rows), mmm);
    OnLaterChain(s.chain, rows, CursorSig(s));
    OnLaterChain(s.chain, rows, MarkerBefore(s));
    if s.marker.Some? { OnLaterChain(s.chain, rows, Some(s.marker.value.frozenNewest)); }
    if !s.sweep.Idle? {
      forall i | 0 <= i < |s.sweep.rows| ensures OnChain(s'.chain, Some(s.sweep.rows[i].sig)) {
        OnLaterChain(s.chain, rows, Some(s.sweep.rows[i].sig));
      }
      if s.marker.None? {
        assert s.sweep.rows == NewestFirst(s'.chain, s.sweep.lo, s.sweep.lo + |s.sweep.rows|);
      }
    }
  }

  lemma FetchKeeps(s: State, lean: bool, mmm: bool)
    requires Inv(s) && s.sweep.Idle?
    ensures Inv(FetchStep(s, lean, mmm))
  {
    hide Position, Resolved, MemoryTrue, OutcomesTrue, NewestFirst, MaxPages;
    var s' := FetchStep(s, lean, mmm);
    FetchedOnChain(s.chain, CursorSig(s), MarkerBefore(s), MaxPages(lean, mmm));
  }

  /** Fetched rows are on the chain; without a marker they are its newest rows above the cursor. */
  lemma FetchedOnChain(chain: seq<Row>, until: Option<string>, before: Option<string>, maxPages: nat)
    requires Distinct(chain) && OnChain(chain, until) && OnChain(chain, before)
    ensures var rows := Fetched(chain, until, before, maxPages).rows;
            && (forall i :: 0 <= i < |rows| ==> OnChain(chain, Some(rows[i].sig)))
            && (before.None? ==>
                  && |rows| <= |chain| - After(chain, until)
                  && rows == NewestFirst(chain, |chain| - |rows|, |chain|))
  {
    hide Position, Distinct;
    var rows := Fetched(chain, until, before, maxPages).rows;
    forall i | 0 <= i < |rows| ensures OnChain(chain, Some(rows[i].sig)) {
      var p :| 0 <= p < |chain| && rows[i] == chain[p];
      PositionOf(chain, p);
    }
  }

  lemma {:induction false} ScanTrue(page: seq<Row>, m: Memory, settled: set<string>)
    requires MemoryTrue(m, settled)
    ensures OutcomesTrue(page, ScanPage(page, m).outcomes, settled)
    decreases |page|
  {
    if |page| > 0 { ScanTrue(page[..|page| - 1], m, settled); }
  }

  lemma PromotedKeeps(s: State)
    requires Inv(s) && s.marker.Some?
    ensures Inv(Promoted(s))
  {
    hide Position, Resolved, MemoryTrue, NewestFirst;
  }

  lemma ScanKeeps(s: State, now: int, mmm: bool)
    requires Inv(s) && s.sweep.Paged?
    ensures Inv(ScanStep(s, now, mmm))
  {
    hide Position, Resolved, OutcomesTrue, NewestFirst, Distinct;
    if |s.sweep.rows| == 0 {
      if s.marker.Some? { PromotedKeeps(s); }
    } else {
      ScanTrue(s.sweep.rows, s.memory, s.settled);
    }
  }

  lemma VerdictKeeps(s: State, k: nat, ev: Evidence, mmm: bool)
    requires Inv(s) && Enabled(s, Verdict(k, ev)) && Sound(s, Verdict(k, ev), mmm)
    ensures Inv(VerdictStep(s, k, ev, mmm))
  {
    hide Position, NewestFirst, CursorSafe, Distinct, ChainOk, PageTrue, Requeued, Remember;
    TerminalMeansSettled(ev, mmm && s.sweep.lean, s.sweep.inFlight[k].sig in s.settled);
    RememberTrue(s.memory, s.sweep.inFlight[k].sig, VerdictOutcome(s, ev, mmm), s.settled);
    PageTrueSame(s, VerdictStep(s, k, ev, mmm));
  }

  /** The cursor, the marker, the chain and the page decide these. */
  lemma PageTrueSame(s: State, s': State)
    requires s'.chain == s.chain && s'.cursor == s.cursor && s'.marker == s.marker && s'.settled == s.settled
    requires !s.sweep.Idle? && !s'.sweep.Idle? && s'.sweep.rows == s.sweep.rows && s'.sweep.lo == s.sweep.lo
    ensures ChainOk(s) ==> ChainOk(s')
    ensures PageTrue(s) ==> PageTrue(s')
    ensures CursorSafe(s) ==> CursorSafe(s')
  {
  }

  lemma FinishKeeps(s: State)
    requires Inv(s) && s.sweep.Dispatching?
    ensures Inv(FinishStep(s))
    ensures s.marker.None? ==> FinishStep(s).cursor == s.cursor
                               || (FinishStep(s).cursor == Some(Cursor(CursorSig(FinishStep(s)).value, NewFloor(s)))
                                   && At(FinishStep(s)) >= s.sweep.lo)
  {
    hide MemoryTrue, NewestFirst, Distinct, Position, NewFloor;
    var rows, k := s.sweep.rows, SafeFrom(s.sweep.outcomes);
    if s.marker.Some? && FinishStep(s) == Promoted(s) {
      PromotedKeeps(s);
    } else if s.marker.None? && !s.sweep.saturated && k < |rows| {
      AdvanceSafe(s, k);
    }
  }

  /** The page carries the promise of the cursor on, up to its newest safe row. */
  lemma AdvanceSafe(s: State, k: nat)
    requires Inv(s) && s.sweep.Dispatching? && s.marker.None? && k < |s.sweep.rows|
    requires forall i :: k <= i < |s.sweep.rows| ==> Safe(s.sweep.outcomes[i])
    ensures var c := Cursor(s.sweep.rows[k].sig, NewFloor(s));
            var s' := s.(cursor := Some(c), sweep := Idle);
            ChainOk(s') && CursorSafe(s') && At(s') >= s.sweep.lo
  {
    hide MemoryTrue, Position, Safe, Resolved;
    var rows, at := s.sweep.rows, s.sweep.lo + |s.sweep.rows| - 1 - k;
    assert rows[k] == s.chain[at];
    PositionOf(s.chain, at);
    forall i: nat | NewFloor(s) <= i <= at ensures Resolved(s.chain[i], s.settled) {
      var j := s.sweep.lo + |rows| - 1 - i;
      if i >= s.sweep.lo { assert rows[j] == s.chain[i] && Safe(s.sweep.outcomes[j]); }
    }
  }

  /** The two outcomes that nobody vouches for are true: what another target remembers, and a
      duplicate that rests on a fetch by somebody else. */
  ghost predicate Sound(s: State, e: Event, mmm: bool)
    requires Enabled(s, e)
  {
    match e
    case Verdict(k, ev) => DuplicateOnFetch(ev, mmm && s.sweep.lean) ==> s.sweep.inFlight[k].sig in s.settled
    case OtherRemembers(sig, outcome) => IsTerminalSafe(outcome) ==> sig in s.settled
    case _ => true
  }

  ghost predicate AllSound(s: State, events: seq<Event>, mmm: bool)
    requires Possible(s, events, mmm)
    decreases |events|
  {
    |events| > 0 ==>
      && AllSound(s, events[..|events| - 1], mmm)
      && Sound(Run(s, events[..|events| - 1], mmm), events[|events| - 1], mmm)
  }

  lemma StepKeepsInv(s: State, e: Event, mmm: bool)
    requires Inv(s) && Enabled(s, e) && Sound(s, e, mmm)
    ensures Inv(Step(s, e, mmm))
  {
    hide Position, Inv, FetchStep, ScanStep, VerdictStep, FinishStep;
    match e
    case Confirm(rows) => ConfirmKeeps(s, rows, mmm);
    case Fetch(lean) => FetchKeeps(s, lean, mmm);
    case Scan(now) => ScanKeeps(s, now, mmm);
    case Verdict(k, ev) => VerdictKeeps(s, k, ev, mmm);
    case Finish => FinishKeeps(s);
    case _ => OutsideKeeps(s, e, mmm);
  }

  /** What other paths and targets do, and the loss of a sweep or of the process. */
  lemma OutsideKeeps(s: State, e: Event, mmm: bool)
    requires Inv(s) && Enabled(s, e) && Sound(s, e, mmm)
    requires e.Settle? || e.OtherMarks? || e.OtherRemembers? || e.Abandon? || e.Crash?
    ensures Inv(Step(s, e, mmm))
  {
    hide Position, NewestFirst, Distinct, Remember, MarkSeen;
    if e.OtherRemembers? { RememberTrue(s.memory, e.sig, e.outcome, s.settled); }
  }

  lemma RememberTrue(m: Memory, sig: string, outcome: IngestOutcome, settled: set<string>)
    requires MemoryTrue(m, settled) && (IsTerminalSafe(outcome) ==> sig in settled)
    ensures MemoryTrue(Remember(m, sig, outcome), settled)
  {
  }

  /** In every run with sound outcomes, with crashes, evictions and retries anywhere, everything
      between the floor and the persisted cursor has really been resolved. */
  lemma {:induction false} CursorSafety(s: State, events: seq<Event>, mmm: bool)
    requires Inv(s) && Possible(s, events, mmm) && AllSound(s, events, mmm)
    ensures Inv(Run(s, events, mmm))
    decreases |events|
  {
    hide Inv, Step, Enabled, Sound;
    if |events| > 0 {
      var before := events[..|events| - 1];
      CursorSafety(s, before, mmm);
      StepKeepsInv(Run(s, before, mmm), events[|events| - 1], mmm);
    }
  }

  // ---- Outcomes that are not sound ----------------------------------------------------------

  lemma RememberHolds(m: Memory, sig: string, outcome: IngestOutcome)
    requires |m.order| <= SIGNATURE_OUTCOME_MAX && forall i :: 0 <= i < |m.order| ==> m.order[i] in m.outcomes
    ensures var r := Remember(m, sig, outcome); sig in r.outcomes && r.outcomes[sig] == outcome
  {
    var all, order := m.outcomes[sig := outcome], if sig in m.outcomes then m.order else m.order + [sig];
    if |order| > SIGNATURE_OUTCOME_MAX {
      assert order[0] == m.order[0] && order[0] != sig;
      assert Forget(all - {order[0]}, order[1..], 0) == all - {order[0]};
    }
  }

  /** Soundness is exactly what a step needs: an outcome that is not sound is remembered. */
  lemma UnsoundBreaks(s: State, e: Event, mmm: bool)
    requires Inv(s) && Enabled(s, e) && !Sound(s, e, mmm)
    requires |s.memory.order| <= SIGNATURE_OUTCOME_MAX
    requires forall i :: 0 <= i < |s.memory.order| ==> s.memory.order[i] in s.memory.outcomes
    ensures !Inv(Step(s, e, mmm))
  {
    var s' := Step(s, e, mmm);
    match e
    case Verdict(k, ev) =>
      TerminalMeansSettled(ev, mmm && s.sweep.lean, s.sweep.inFlight[k].sig in s.settled);
      RememberHolds(s.memory, s.sweep.inFlight[k].sig, Duplicate);
      hide Remember;
    case OtherRemembers(sig, outcome) =>
      RememberHolds(s.memory, sig, outcome);
      hide Remember;
  }

  /** A target that never defers its dispatches, and what other targets remember, if it was true
      at the start. */
  ghost predicate Direct(s: State, events: seq<Event>, mmm: bool) {
    && (mmm && !s.sweep.Idle? ==> !s.sweep.lean)
    && (forall i :: 0 <= i < |events| && events[i].Fetch? && mmm ==> !events[i].lean)
    && (forall i :: 0 <= i < |events| && events[i].OtherRemembers? && IsTerminalSafe(events[i].outcome) ==>
          events[i].sig in s.settled)
  }

  lemma {:induction false} DirectRunsAreSound(s: State, events: seq<Event>, mmm: bool)
    requires Possible(s, events, mmm) && Direct(s, events, mmm)
    ensures AllSound(s, events, mmm)
    ensures var s' := Run(s, events, mmm); s.settled <= s'.settled && (mmm && !s'.sweep.Idle? ==> !s'.sweep.lean)
    decreases |events|
  {
    if |events| > 0 {
      var before, e := events[..|events| - 1], events[|events| - 1];
      DirectRunsAreSound(s, before, mmm);
      hide Planned, Answer, Remember, Fetched, MarkSeen, SafeFrom, Position;
    }
  }

  lemma OneMore(s: State, events: seq<Event>, e: Event, mmm: bool)
    requires Possible(s, events, mmm) && Enabled(Run(s, events, mmm), e)
    ensures Possible(s, events + [e], mmm) && Run(s, events + [e], mmm) == Step(Run(s, events, mmm), e, mmm)
  {
    hide Step, Enabled;
    assert (events + [e])[..|events + [e]| - 1] == events;
  }

  /** A settled signature under the cursor and a sale above it. */
  const ONE_SALE := State([Row("old", false), Row("new", false)], {"old"}, Some(Cursor("old", 0)), None,
                          NOTHING, [], Idle, {}, 0)

  const PAGE := [Row("new", false)]

  /** Another path fetches the signature, and nobody has an outcome. */
  const BEING_FETCHED := Evidence(false, None, false, true, false, None)

  const SALE_PAGED := ONE_SALE.(sweep := Paged(PAGE, false, 1, true))
  const SALE_TAKEN := ONE_SALE.(memory := NOTHING.(seen := ["new"]), marked := {"new"},
                                sweep := Dispatching(PAGE, false, 1, true, [None], [Item("new", 0)]))
  const SALE_ANSWERED := SALE_TAKEN.(memory := Memory(["new"], map["new" := Duplicate], ["new"]),
                                     sweep := Dispatching(PAGE, false, 1, true, [Some(Duplicate)], []))
  const SALE_PASSED := SALE_ANSWERED.(cursor := Some(Cursor("new", 0)), sweep := Idle)

  lemma SaleFetched()
    ensures FetchStep(ONE_SALE, true, true) == SALE_PAGED && Inv(ONE_SALE)
  {
    var chain := ONE_SALE.chain;
    PositionOf(chain, 0);
    assert NewestFirst(chain, 1, 2) == PAGE;
    assert [] + PAGE == PAGE;
  }

  lemma SaleTaken()
    ensures ScanStep(SALE_PAGED, 0, true) == SALE_TAKEN
  {
    assert PAGE[..0] == [] && ScanPage([], NOTHING) == Scanned([], [], []);
    assert ScanPage(PAGE, NOTHING) == Scanned(["new"], [None], ["new"]);
    hide ScanPage;
    OneTaken();
  }

  lemma OneTaken()
    requires ScanPage(PAGE, NOTHING) == Scanned(["new"], [None], ["new"])
    ensures Planned(true, PAGE, NOTHING, [], 0) == Dispatch(ScanPage(PAGE, NOTHING), [Item("new", 0)], [])
  {
    hide ScanPage;
    var unseen := ["new"];
    assert unseen[..1] == unseen && unseen[1..] == [];
    assert FreshItems(unseen, 0) == [Item("new", 0)];
  }

  lemma SaleAnswered()
    ensures VerdictStep(SALE_TAKEN, 0, BEING_FETCHED, true) == SALE_ANSWERED
  {
    var items := [Item("new", 0)];
    assert items[..0] + items[1..] == [];
    assert PageIndex(PAGE, "new") == 0;
    assert ItemOutcome(BEING_FETCHED, true) == Duplicate;
    assert [None][0 := Some(Duplicate)] == [Some(Duplicate)];
    assert Remember(NOTHING.(seen := ["new"]), "new", Duplicate) == Memory(["new"], map["new" := Duplicate], ["new"]);
  }

  lemma SalePassed()
    ensures FinishStep(SALE_ANSWERED) == SALE_PASSED
  {
    PositionOf(ONE_SALE.chain, 0);
    SafeFromIs([Some(Duplicate)], 0);
  }

  /** In the lean mode of MMM the cursor can pass a sale that somebody has begun to fetch and
      nobody has stored: its only verdict is a duplicate. */
  lemma DuplicateBeforeStored()
    ensures Inv(ONE_SALE)
    ensures var events := [Fetch(true), Scan(0), Verdict(0, BEING_FETCHED), Finish];
            && Possible(ONE_SALE, events, true)
            && Run(ONE_SALE, events, true).cursor == Some(Cursor("new", 0))
            && Run(ONE_SALE, events, true).chain == ONE_SALE.chain
            && !Resolved(ONE_SALE.chain[1], Run(ONE_SALE, events, true).settled)
            && !CursorSafe(Run(ONE_SALE, events, true))
  {
    SaleSteps();
    SaleIsPassed();
    hide Step, Enabled, Inv, CursorSafe;
    var e1 := [] + [Fetch(true)];
    var e2 := e1 + [Scan(0)];
    var e3 := e2 + [Verdict(0, BEING_FETCHED)];
    OneMore(ONE_SALE, [], Fetch(true), true);
    OneMore(ONE_SALE, e1, Scan(0), true);
    OneMore(ONE_SALE, e2, Verdict(0, BEING_FETCHED), true);
    OneMore(ONE_SALE, e3, Finish, true);
    assert e3 + [Finish] == [Fetch(true), Scan(0), Verdict(0, BEING_FETCHED), Finish];
  }

  lemma SaleSteps()
    ensures Inv(ONE_SALE)
    ensures Enabled(ONE_SALE, Fetch(true)) && Step(ONE_SALE, Fetch(true), true) == SALE_PAGED
    ensures Enabled(SALE_PAGED, Scan(0)) && Step(SALE_PAGED, Scan(0), true) == SALE_TAKEN
    ensures Enabled(SALE_TAKEN, Verdict(0, BEING_FETCHED))
            && Step(SALE_TAKEN, Verdict(0, BEING_FETCHED), true) == SALE_ANSWERED
    ensures Enabled(SALE_ANSWERED, Finish) && Step(SALE_ANSWERED, Finish, true) == SALE_PASSED
  {
    SaleFetched();
    SaleTaken();
    SaleAnswered();
    SalePassed();
    hide FetchStep, ScanStep, VerdictStep, FinishStep, Inv;
  }

  lemma SaleIsPassed()
    ensures SALE_PASSED.cursor == Some(Cursor("new", 0)) && SALE_PASSED.chain == ONE_SALE.chain
    ensures !Resolved(SALE_PASSED.chain[1], SALE_PASSED.settled) && !CursorSafe(SALE_PASSED)
  {
    PositionOf(ONE_SALE.chain, 1);
    hide Position;
    assert At(SALE_PASSED) == 1 && !Resolved(SALE_PASSED.chain[1], SALE_PASSED.settled);
  }
}
