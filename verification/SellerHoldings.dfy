/** The running holdings counter of one (seller, collection) pair
    (src/enrichment/seller-holdings.ts over src/db/insert.ts). One process is modelled in
    full, with its FIFO chain and its single-flight reconciliation; the statements of other
    processes arrive at any point. Every SQL statement is one atomic step and none fails. */
module SellerHoldings {
  import opened Options

  const RECONCILE_TTL_MS: int := 21600000
  const RECONCILE_LOW_COUNT_THRESHOLD: int := 3
  const RECONCILE_EVERY_N_DECREMENTS: int := 25

  // ---- The table ------------------------------------------------------------------------

  datatype Row = Row(count: int, decrementsSinceScan: nat, updatedAt: int)

  datatype Statement = Decrement | Seed(scanned: nat) | Overwrite(scanned: nat)

  /** `None` when the statement touched no row. */
  datatype Result = Result(count: int, decrementsSinceScan: nat, prevUpdatedAt: int)

  function Execute(row: Option<Row>, s: Statement, now: int): (Option<Row>, Option<Result>) {
    match s
    case Decrement =>
      if row.None? then (None, None)
      else
        var r := row.value;
        var count := if r.count - 1 > 0 then r.count - 1 else 0;
        (Some(Row(count, r.decrementsSinceScan + 1, now)), Some(Result(count, r.decrementsSinceScan + 1, r.updatedAt)))
    case Seed(n) =>
      if row.Some? then (row, None) else (Some(Row(n, 0, now)), Some(Result(n, 0, now)))
    case Overwrite(n) => (Some(Row(n, 0, now)), Some(Result(n, 0, now)))
  }

  function ReconciliationDue(r: Result, now: int): bool {
    now - r.prevUpdatedAt > RECONCILE_TTL_MS
    || r.count <= RECONCILE_LOW_COUNT_THRESHOLD
    || r.decrementsSinceScan >= RECONCILE_EVERY_N_DECREMENTS
  }

  // ---- The counter law, for any interleaving of statements --------------------------------

  /** A committed statement; `owner` is the sale of this process that sent it, if any. */
  datatype Entry = Entry(statement: Statement, owner: Option<nat>, now: int)

  function RowAfter(ledger: seq<Entry>): Option<Row> {
    if |ledger| == 0 then None
    else
      var last := ledger[|ledger| - 1];
      Execute(RowAfter(ledger[..|ledger| - 1]), last.statement, last.now).0
  }

  function ResultOf(ledger: seq<Entry>, i: nat): Option<Result>
    requires i < |ledger|
  {
    Execute(RowAfter(ledger[..i]), ledger[i].statement, ledger[i].now).1
  }

  /** A statement that installed a scanned value. */
  predicate IsScanWrite(ledger: seq<Entry>, i: nat)
    requires i < |ledger|
  {
    ledger[i].statement.Overwrite? || (ledger[i].statement.Seed? && RowAfter(ledger[..i]).None?)
  }

  function Decrements(ledger: seq<Entry>, from: nat, to: nat): nat
    requires from <= to <= |ledger|
  {
    if from == to then 0
    else Decrements(ledger, from, to - 1) + if ledger[to - 1].statement.Decrement? then 1 else 0
  }

  /** No scan was written in from <= i < to. */
  ghost predicate SameEra(ledger: seq<Entry>, from: nat, to: nat)
    requires to <= |ledger|
  {
    forall i :: from <= i < to ==> !IsScanWrite(ledger, i)
  }

  function AtLeastZero(n: int): int { if n > 0 then n else 0 }

  /** No statement removes a row. */
  lemma {:induction false} RowNeverVanishes(ledger: seq<Entry>, i: nat, j: nat)
    requires i <= j <= |ledger| && RowAfter(ledger[..i]).Some?
    ensures RowAfter(ledger[..j]).Some?
    decreases j
  {
    if i < j {
      RowNeverVanishes(ledger, i, j - 1);
      assert ledger[..j][..j - 1] == ledger[..j - 1];
    }
  }

  /** Since the scan write at `scan`, the row is the scanned value less the decrements, and
      never below zero. */
  lemma {:induction false} CounterLaw(ledger: seq<Entry>, scan: nat, j: nat)
    requires scan < j <= |ledger| && IsScanWrite(ledger, scan) && SameEra(ledger, scan + 1, j)
    ensures var row, n := RowAfter(ledger[..j]), Decrements(ledger, scan + 1, j);
            && row.Some? && row.value.decrementsSinceScan == n
            && row.value.count == AtLeastZero(ledger[scan].statement.scanned - n)
    decreases j
  {
    assert ledger[..j][..j - 1] == ledger[..j - 1];
    if j > scan + 1 {
      CounterLaw(ledger, scan, j - 1);
      assert !IsScanWrite(ledger, j - 1);
    }
  }

  /** The scan write the current row descends from. */
  ghost predicate CountsFrom(ledger: seq<Entry>, scan: nat) {
    && scan < |ledger| && IsScanWrite(ledger, scan) && SameEra(ledger, scan + 1, |ledger|)
    && RowAfter(ledger).Some?
    && RowAfter(ledger).value.count
       == AtLeastZero(ledger[scan].statement.scanned - Decrements(ledger, scan + 1, |ledger|))
  }

  /** Whatever statements committed, from any process and in any order, a row that exists is
      its last scanned value less the decrements since, never below zero. */
  lemma {:induction false} RowLaw(ledger: seq<Entry>)
    requires RowAfter(ledger).Some?
    ensures exists scan: nat :: CountsFrom(ledger, scan)
  {
    var n := |ledger| - 1;
    assert ledger[..|ledger|] == ledger;
    if IsScanWrite(ledger, n) {
      CounterLaw(ledger, n, |ledger|);
      assert CountsFrom(ledger, n);
    } else {
      RowLaw(ledger[..n]);
      var scan: nat :| CountsFrom(ledger[..n], scan);
      assert ledger[..n][..scan] == ledger[..scan];
      forall i | scan + 1 <= i < |ledger| ensures !IsScanWrite(ledger, i) {
        if i < n {
          assert ledger[..n][..i] == ledger[..i];
          assert !IsScanWrite(ledger[..n], i);
        }
      }
      CounterLaw(ledger, scan, |ledger|);
      assert CountsFrom(ledger, scan);
    }
  }

  /** A decrement hands out the scanned value less the decrements up to and including it;
      the winner of a seed hands out the scanned value itself. */
  lemma HandedOut(ledger: seq<Entry>, scan: nat, j: nat)
    requires scan <= j < |ledger| && IsScanWrite(ledger, scan) && SameEra(ledger, scan + 1, j + 1)
    requires j == scan || ledger[j].statement.Decrement?
    ensures ResultOf(ledger, j).Some?
    ensures ResultOf(ledger, j).value.count
            == AtLeastZero(ledger[scan].statement.scanned - Decrements(ledger, scan + 1, j + 1))
  {
    if j > scan { CounterLaw(ledger, scan, j); }
  }

  /** Two values handed out between the same two scan writes, in commit order, strictly
      decrease while positive. */
  lemma HandedOutDecrease(ledger: seq<Entry>, scan: nat, i: nat, j: nat)
    requires scan <= i < j < |ledger| && IsScanWrite(ledger, scan) && SameEra(ledger, scan + 1, j + 1)
    requires (i == scan || ledger[i].statement.Decrement?) && ledger[j].statement.Decrement?
    ensures ResultOf(ledger, i).Some? && ResultOf(ledger, j).Some?
    ensures var a, b := ResultOf(ledger, i).value.count, ResultOf(ledger, j).value.count;
            0 <= b <= a && (a > 0 ==> b < a)
  {
    HandedOut(ledger, scan, i);
    HandedOut(ledger, scan, j);
    DecrementsGrow(ledger, scan + 1, i + 1, j + 1);
    DecrementsGrow(ledger, scan + 1, j, j + 1);
    DecrementsGrow(ledger, scan + 1, i + 1, j);
  }

  lemma {:induction false} DecrementsGrow(ledger: seq<Entry>, from: nat, i: nat, j: nat)
    requires from <= i <= j <= |ledger|
    ensures Decrements(ledger, from, i) <= Decrements(ledger, from, j)
    decreases j
  {
    if i < j { DecrementsGrow(ledger, from, i, j - 1); }
  }

  // ---- The time of the last statement -----------------------------------------------------

  /** A scan value was sent before `i`. */
  ghost predicate Scanned(ledger: seq<Entry>, i: nat) {
    exists k :: 0 <= k < i && k < |ledger| && !ledger[k].statement.Decrement?
  }

  /** The statement wrote the row: an overwrite always, a seed unless a scan value was there, and
      a decrement only then. */
  ghost predicate Touches(ledger: seq<Entry>, i: nat) {
    && i < |ledger|
    && match ledger[i].statement
       case Decrement => Scanned(ledger, i)
       case Seed(_) => !Scanned(ledger, i)
       case Overwrite(_) => true
  }

  /** The last statement before `j` that wrote the row. */
  ghost predicate LastTouch(ledger: seq<Entry>, i: nat, j: nat) {
    i < j && Touches(ledger, i) && forall k: nat :: i < k < j ==> !Touches(ledger, k)
  }

  /** The last scan value that was installed before `j`. */
  ghost predicate LastScan(ledger: seq<Entry>, i: nat, j: nat) {
    && i < j && Touches(ledger, i) && !ledger[i].statement.Decrement?
    && forall k: nat :: i < k < j && Touches(ledger, k) ==> ledger[k].statement.Decrement?
  }

  ghost function ScannedValue(s: Statement): nat
    requires !s.Decrement?
  {
    match s case Seed(n) => n case Overwrite(n) => n
  }

  /** There is a row exactly when some scan value was sent. */
  lemma {:induction false} RowExists(ledger: seq<Entry>, i: nat)
    requires i <= |ledger|
    ensures RowAfter(ledger[..i]).Some? <==> Scanned(ledger, i)
  {
    if i > 0 {
      RowExists(ledger, i - 1);
      assert ledger[..i][..i - 1] == ledger[..i - 1];
      hide RowAfter;
      RowNext(ledger, i - 1);
      if Scanned(ledger, i) {
        var k :| 0 <= k < i && k < |ledger| && !ledger[k].statement.Decrement?;
        assert k < i - 1 ==> Scanned(ledger, i - 1);
      }
      if Scanned(ledger, i - 1) {
        var k :| 0 <= k < i - 1 && k < |ledger| && !ledger[k].statement.Decrement?;
        assert Scanned(ledger, i);
      }
    }
  }

  lemma RowNext(ledger: seq<Entry>, i: nat)
    requires i < |ledger|
    ensures RowAfter(ledger[..i + 1]) == Execute(RowAfter(ledger[..i]), ledger[i].statement, ledger[i].now).0
    ensures RowAfter(ledger[..i + 1]).None? <==> RowAfter(ledger[..i]).None? && ledger[i].statement.Decrement?
  {
    assert ledger[..i + 1][..i] == ledger[..i];
  }

  /** At any point the row carries the time of the last statement that wrote it, and counts the
      decrements since the last scan value, which it started from. */
  ghost predicate RowSays(ledger: seq<Entry>, j: nat, touch: nat, scan: nat)
    requires j <= |ledger|
  {
    && LastTouch(ledger, touch, j) && LastScan(ledger, scan, j)
    && var n := Decrements(ledger, scan + 1, j);
       RowAfter(ledger[..j]) == Some(Row(AtLeastZero(ScannedValue(ledger[scan].statement) - n), n, ledger[touch].now))
  }

  /** Whatever statements committed, the row says exactly this. */
  lemma {:induction false} RowSaysAll(ledger: seq<Entry>, j: nat) returns (touch: nat, scan: nat)
    requires j <= |ledger| && Scanned(ledger, j)
    ensures RowSays(ledger, j, touch, scan)
  {
    var i := j - 1;
    RowNext(ledger, i);
    RowExists(ledger, i);
    if Touches(ledger, i) && !ledger[i].statement.Decrement? {
      return i, i;
    }
    assert Scanned(ledger, i) by {
      var k :| 0 <= k < j && k < |ledger| && !ledger[k].statement.Decrement?;
      assert k < i || Scanned(ledger, i);
    }
    touch, scan := RowSaysAll(ledger, i);
    if Touches(ledger, i) { touch := i; }
  }

  lemma LastTouchUnique(ledger: seq<Entry>, a: nat, b: nat, j: nat)
    requires LastTouch(ledger, a, j) && LastTouch(ledger, b, j)
    ensures a == b
  {
  }

  lemma LastScanUnique(ledger: seq<Entry>, a: nat, b: nat, j: nat)
    requires LastScan(ledger, a, j) && LastScan(ledger, b, j)
    ensures a == b
  {
  }

  /** A decrement hands back what is left of the last scan value, the decrements since, itself
      included, and the time of the last statement before it that wrote the row; without a row it
      hands back nothing. */
  lemma DecrementReturns(ledger: seq<Entry>, j: nat, touch: nat, scan: nat)
    requires j < |ledger| && ledger[j].statement.Decrement?
    ensures ResultOf(ledger, j).Some? <==> Scanned(ledger, j)
    ensures LastTouch(ledger, touch, j) && LastScan(ledger, scan, j) ==>
              var n := Decrements(ledger, scan + 1, j + 1);
              ResultOf(ledger, j)
              == Some(Result(AtLeastZero(ScannedValue(ledger[scan].statement) - n), n, ledger[touch].now))
  {
    RowExists(ledger, j);
    if LastTouch(ledger, touch, j) && LastScan(ledger, scan, j) {
      assert Scanned(ledger, j) by { assert !ledger[scan].statement.Decrement?; }
      var t, c := RowSaysAll(ledger, j);
      LastTouchUnique(ledger, touch, t, j);
      LastScanUnique(ledger, scan, c, j);
    }
  }

  // ---- One process ----------------------------------------------------------------------

  /** A sale in `getAndDecrementSellerHolding`. `Done` names the ledger entry its value came
      from, if it has one; the sales of one reconciliation share the entry of its overwrite. */
  datatype Sale =
    | Arrived
    | Decremented(at: nat)
    | AwaitsLink(link: nat)
    | AwaitsFlight(flight: nat)
    | Done(value: Option<int>, entry: Option<nat>)

  /** A link of the FIFO chain: runs once the link it was chained to has settled. */
  datatype LinkState =
    | Queued
    | ReChecking
    | Scanning
    | Seeding(scanned: nat)
    | LostSeed
    | Settled(value: Option<int>, entry: Option<nat>)

  datatype Link = Link(sale: nat, prior: Option<nat>, state: LinkState)

  datatype Flight = FlightScanning | FlightWriting(scanned: nat) | FlightSettled(value: Option<int>, entry: Option<nat>)

  /** `scans` counts the first-sight scans that succeeded, and `lost` the restarts that came
      between such a scan and its seed; both outlive a restart, like the ledger. */
  datatype State = State(ledger: seq<Entry>, sales: seq<Sale>, links: seq<Link>, tail: Option<nat>,
                         flights: seq<Flight>, live: Option<nat>, scans: nat, lost: nat)

  const INITIAL: State := State([], [], [], None, [], None, 0, 0)

  predicate SeedPending(s: State) { exists l :: 0 <= l < |s.links| && s.links[l].state.Seeding? }

  predicate IsRunning(l: LinkState) { !l.Queued? && !l.Settled? }

  datatype Event =
    | Arrive
    | TopDecrement(sale: nat, now: int)
    | Resume(sale: nat, now: int)
    | LinkStarts(link: nat)
    | LinkReChecks(link: nat, now: int)
    | LinkScanReturns(link: nat, scanned: Option<nat>)
    | LinkSeeds(link: nat, now: int)
    | LinkDecrementsAfterLoss(link: nat, now: int)
    | LinkClears(link: nat)
    | LinkAnswers(sale: nat)
    | FlightScanReturns(flight: nat, scanned: Option<nat>)
    | FlightWrites(flight: nat, now: int)
    | FlightClears(flight: nat)
    | FlightAnswers(sale: nat)
    | OtherProcess(statement: Statement, now: int)
    | Restart

  predicate LinkIs(s: State, l: int) { 0 <= l < |s.links| }

  predicate Enabled(s: State, e: Event) {
    match e
    case Arrive => true
    case TopDecrement(c, _) => c < |s.sales| && s.sales[c].Arrived?
    case Resume(c, _) => c < |s.sales| && s.sales[c].Decremented? && s.sales[c].at < |s.ledger|
    case LinkStarts(l) =>
      LinkIs(s, l) && s.links[l].state.Queued?
      && match s.links[l].prior { case None => true case Some(p) => LinkIs(s, p) && s.links[p].state.Settled? }
    case LinkReChecks(l, _) => LinkIs(s, l) && s.links[l].state.ReChecking?
    case LinkScanReturns(l, _) => LinkIs(s, l) && s.links[l].state.Scanning?
    case LinkSeeds(l, _) => LinkIs(s, l) && s.links[l].state.Seeding?
    case LinkDecrementsAfterLoss(l, _) => LinkIs(s, l) && s.links[l].state.LostSeed?
    case LinkClears(l) => LinkIs(s, l) && s.links[l].state.Settled?
    case LinkAnswers(c) =>
      c < |s.sales| && s.sales[c].AwaitsLink? && LinkIs(s, s.sales[c].link) && s.links[s.sales[c].link].state.Settled?
    case FlightScanReturns(f, _) => f < |s.flights| && s.flights[f].FlightScanning?
    case FlightWrites(f, _) => f < |s.flights| && s.flights[f].FlightWriting?
    case FlightClears(f) => f < |s.flights| && s.flights[f].FlightSettled? && s.live == Some(f)
    case FlightAnswers(c) =>
      c < |s.sales| && s.sales[c].AwaitsFlight? && s.sales[c].flight < |s.flights|
      && s.flights[s.sales[c].flight].FlightSettled?
    case OtherProcess(_, _) => true
    case Restart => true
  }

  function Log(s: State, statement: Statement, owner: Option<nat>, now: int): State {
    s.(ledger := s.ledger + [Entry(statement, owner, now)])
  }

  function SetLink(s: State, l: nat, state: LinkState): State
    requires LinkIs(s, l)
  {
    s.(links := s.links[l := s.links[l].(state := state)])
  }

  function SetSale(s: State, c: nat, sale: Sale): State
    requires c < |s.sales|
  {
    s.(sales := s.sales[c := sale])
  }

  function CountOf(r: Option<Result>): Option<int> { if r.Some? then Some(r.value.count) else None }

  /** A link sends a statement and settles with its count, or goes on to `otherwise`. */
  function LinkExecutes(s: State, l: nat, statement: Statement, now: int, otherwise: LinkState): State
    requires LinkIs(s, l)
  {
    var t := Log(s, statement, Some(s.links[l].sale), now);
    var r := ResultOf(t.ledger, |s.ledger|);
    SetLink(t, l, if r.Some? then Settled(CountOf(r), Some(|s.ledger|)) else otherwise)
  }

  /** The answer of the first decrement has arrived. */
  function ResumeStep(s: State, c: nat, now: int): State
    requires Enabled(s, Resume(c, now))
  {
    var entry := s.sales[c].at;
    var r := ResultOf(s.ledger, entry);
    if r.None? then
      SetSale(s, c, AwaitsLink(|s.links|)).(links := s.links + [Link(c, s.tail, Queued)], tail := Some(|s.links|))
    else if !ReconciliationDue(r.value, now) then SetSale(s, c, Done(CountOf(r), Some(entry)))
    else if s.live.Some? then SetSale(s, c, AwaitsFlight(s.live.value))
    else
      SetSale(s, c, AwaitsFlight(|s.flights|))
        .(flights := s.flights + [FlightScanning], live := Some(|s.flights|))
  }

  /** The database outlives the process. */
  function Restarted(s: State): State {
    INITIAL.(ledger := s.ledger, scans := s.scans, lost := s.lost + if SeedPending(s) then 1 else 0)
  }

  function Step(s: State, e: Event): State
    requires Enabled(s, e)
  {
    match e
    case Arrive => s.(sales := s.sales + [Arrived])
    case TopDecrement(c, now) => SetSale(Log(s, Decrement, Some(c), now), c, Decremented(|s.ledger|))
    case Resume(c, now) => ResumeStep(s, c, now)
    case LinkStarts(l) => SetLink(s, l, ReChecking)
    case LinkReChecks(l, now) => LinkExecutes(s, l, Decrement, now, Scanning)
    case LinkScanReturns(l, scanned) =>
      if scanned.Some? then SetLink(s, l, Seeding(scanned.value)).(scans := s.scans + 1)
      else SetLink(s, l, Settled(None, None))
    case LinkSeeds(l, now) => LinkExecutes(s, l, Seed(s.links[l].state.scanned), now, LostSeed)
    case LinkDecrementsAfterLoss(l, now) => LinkExecutes(s, l, Decrement, now, Settled(None, None))
    case LinkClears(l) => if s.tail == Some(l) then s.(tail := None) else s
    case LinkAnswers(c) =>
      var settled := s.links[s.sales[c].link].state;
      SetSale(s, c, Done(settled.value, settled.entry))
    case FlightScanReturns(f, scanned) =>
      s.(flights := s.flights[f := if scanned.Some? then FlightWriting(scanned.value) else FlightSettled(None, None)])
    case FlightWrites(f, now) =>
      Log(s, Overwrite(s.flights[f].scanned), None, now)
        .(flights := s.flights[f := FlightSettled(Some(s.flights[f].scanned), Some(|s.ledger|))])
    case FlightClears(f) => s.(live := None)
    case FlightAnswers(c) =>
      var settled := s.flights[s.sales[c].flight];
      SetSale(s, c, Done(settled.value, settled.entry))
    case OtherProcess(statement, now) => Log(s, statement, None, now)
    case Restart => Restarted(s)
  }

  // ---- The invariant --------------------------------------------------------------------

  ghost predicate AllSettledBefore(links: seq<Link>, n: nat)
    requires n <= |links|
  {
    forall i :: 0 <= i < n ==> links[i].state.Settled?
  }

  /** A link waits for the one before it, or found every earlier one settled and cleared. */
  ghost predicate ChainOrdered(s: State) {
    && (match s.tail
        case Some(t) => t == |s.links| - 1
        case None => AllSettledBefore(s.links, |s.links|))
    && forall i {:trigger s.links[i]} :: 0 <= i < |s.links| ==>
         && (s.links[i].prior.Some? ==> i > 0 && s.links[i].prior.value == i - 1)
         && (s.links[i].prior.None? || !s.links[i].state.Queued? ==> AllSettledBefore(s.links, i))
  }

  ghost predicate HasRow(s: State) { RowAfter(s.ledger).Some? }

  /** A successful first-sight scan leads to a row before the next link starts, or its seed is
      lost with the process. */
  ghost predicate ScansCounted(s: State) {
    && s.lost <= s.scans <= s.lost + 1
    && (s.scans > s.lost ==> HasRow(s) || SeedPending(s))
    && (SeedPending(s) ==> s.scans > s.lost)
    && (forall l :: LinkIs(s, l) && s.links[l].state.Scanning? ==> s.scans == s.lost)
    && (forall l :: LinkIs(s, l) && s.links[l].state.LostSeed? ==> HasRow(s))
  }

  /** A value came from a statement of its own sale, or from the overwrite of a reconciliation. */
  ghost predicate CameFrom(s: State, sale: nat, value: Option<int>, entry: Option<nat>) {
    && (value.Some? <==> entry.Some?)
    && (entry.Some? ==>
          && entry.value < |s.ledger| && value == CountOf(ResultOf(s.ledger, entry.value))
          && if s.ledger[entry.value].statement.Overwrite? then s.ledger[entry.value].owner == None
             else s.ledger[entry.value].owner == Some(sale))
  }

  /** The value of a reconciliation is that of its overwrite. */
  ghost predicate FlightTraced(s: State, f: Flight) {
    f.FlightSettled? ==>
      && (f.value.Some? <==> f.entry.Some?)
      && (f.entry.Some? ==>
            && f.entry.value < |s.ledger| && f.value == CountOf(ResultOf(s.ledger, f.entry.value))
            && s.ledger[f.entry.value].statement.Overwrite? && s.ledger[f.entry.value].owner == None)
  }

  ghost predicate SaleTraced(s: State, c: nat, sale: Sale) {
    match sale
    case Arrived => true
    case Decremented(e) => e < |s.ledger| && s.ledger[e].owner == Some(c) && s.ledger[e].statement.Decrement?
    case AwaitsLink(l) => LinkIs(s, l) && s.links[l].sale == c
    case AwaitsFlight(f) => f < |s.flights|
    case Done(v, e) => CameFrom(s, c, v, e)
  }

  ghost predicate ValuesTraced(s: State) {
    && (forall l :: LinkIs(s, l) && s.links[l].state.Settled? ==>
          CameFrom(s, s.links[l].sale, s.links[l].state.value, s.links[l].state.entry))
    && (forall c :: 0 <= c < |s.sales| ==> SaleTraced(s, c, s.sales[c]))
    && (forall f :: 0 <= f < |s.flights| ==> FlightTraced(s, s.flights[f]))
  }

  ghost predicate OneFlight(s: State) {
    && (s.live.Some? ==> s.live.value == |s.flights| - 1)
    && forall f :: 0 <= f < |s.flights| && s.live != Some(f) ==> s.flights[f].FlightSettled?
  }

  ghost predicate Inv(s: State) {
    ChainOrdered(s) && ScansCounted(s) && ValuesTraced(s) && OneFlight(s)
  }

  // ---- Every step keeps the invariant ---------------------------------------------------

  lemma Appended(ledger: seq<Entry>, e: Entry)
    ensures RowAfter(ledger + [e]) == Execute(RowAfter(ledger), e.statement, e.now).0
    ensures ResultOf(ledger + [e], |ledger|) == Execute(RowAfter(ledger), e.statement, e.now).1
    ensures forall i :: 0 <= i < |ledger| ==> ResultOf(ledger + [e], i) == ResultOf(ledger, i)
  {
    assert (ledger + [e])[..|ledger|] == ledger;
    forall i | 0 <= i < |ledger| ensures ResultOf(ledger + [e], i) == ResultOf(ledger, i) {
      assert (ledger + [e])[..i] == ledger[..i];
    }
  }

  lemma StartedInTurn(s: State, l: nat)
    requires ChainOrdered(s) && Enabled(s, LinkStarts(l))
    ensures AllSettledBefore(s.links, l)
  {
    if s.links[l].prior.Some? {
      assert s.links[l - 1].state.Settled? && AllSettledBefore(s.links, l - 1);
    }
  }

  /** At most one link of the chain runs at any time. */
  lemma OneRunningLink(s: State, i: nat, j: nat)
    requires ChainOrdered(s) && LinkIs(s, i) && LinkIs(s, j)
    requires IsRunning(s.links[i].state) && IsRunning(s.links[j].state)
    ensures i == j
  {
    assert AllSettledBefore(s.links, i) && AllSettledBefore(s.links, j);
  }

  lemma LinkStepKeepsChain(s: State, l: nat, state: LinkState)
    requires ChainOrdered(s) && LinkIs(s, l) && !state.Queued?
    requires s.links[l].state.Queued? ==> AllSettledBefore(s.links, l)
    requires !s.links[l].state.Settled?
    ensures ChainOrdered(SetLink(s, l, state))
  {
    var t := SetLink(s, l, state);
    forall i {:trigger t.links[i]} | 0 <= i < |t.links|
      ensures t.links[i].prior.Some? ==> i > 0 && t.links[i].prior.value == i - 1
      ensures t.links[i].prior.None? || !t.links[i].state.Queued? ==> AllSettledBefore(t.links, i)
    {
      assert t.links[i].prior == s.links[i].prior;
      assert i != l ==> t.links[i] == s.links[i];
      if s.links[i].prior.None? || !t.links[i].state.Queued? {
        assert AllSettledBefore(s.links, i);
      }
    }
  }

  lemma NewLinkKeepsChain(s: State, t: State, l: Link)
    requires ChainOrdered(s) && l.state.Queued? && l.prior == s.tail
    requires t.links == s.links + [l] && t.tail == Some(|s.links|)
    ensures ChainOrdered(t)
  {
    forall i {:trigger t.links[i]} | 0 <= i < |s.links| ensures t.links[i] == s.links[i] {}
    assert t.links[|s.links|] == l;
  }

  lemma StepKeepsChain(s: State, e: Event)
    requires ChainOrdered(s) && Enabled(s, e)
    ensures ChainOrdered(Step(s, e))
  {
    hide ResultOf, RowAfter, ReconciliationDue;
    var t := Step(s, e);
    match e
    case Resume(c, now) =>
      if |t.links| > |s.links| { NewLinkKeepsChain(s, t, t.links[|s.links|]); }
    case LinkStarts(l) =>
      StartedInTurn(s, l);
      LinkStepKeepsChain(s, l, ReChecking);
    case LinkReChecks(l, _) => LinkStepKeepsChain(s, l, t.links[l].state);
    case LinkScanReturns(l, _) => LinkStepKeepsChain(s, l, t.links[l].state);
    case LinkSeeds(l, _) => LinkStepKeepsChain(s, l, t.links[l].state);
    case LinkDecrementsAfterLoss(l, _) => LinkStepKeepsChain(s, l, t.links[l].state);
    case LinkClears(l) => assert !s.links[l].state.Queued?;
    case _ =>
  }

  ghost predicate MovesLink(e: Event, l: nat) {
    match e
    case LinkStarts(k) => k == l
    case LinkReChecks(k, _) => k == l
    case LinkScanReturns(k, _) => k == l
    case LinkSeeds(k, _) => k == l
    case LinkDecrementsAfterLoss(k, _) => k == l
    case _ => false
  }

  lemma LinkStepKeepsScans(s: State, l: nat, e: Event)
    requires ChainOrdered(s) && ScansCounted(s) && Enabled(s, e)
    requires MovesLink(e, l)
    ensures ScansCounted(Step(s, e))
  {
    var t := Step(s, e);
    hide ResultOf, RowAfter;
    if e.LinkReChecks? { Appended(s.ledger, Entry(Decrement, Some(s.links[l].sale), e.now)); }
    if e.LinkSeeds? { Appended(s.ledger, Entry(Seed(s.links[l].state.scanned), Some(s.links[l].sale), e.now)); }
    if e.LinkDecrementsAfterLoss? { Appended(s.ledger, Entry(Decrement, Some(s.links[l].sale), e.now)); }
    if !e.LinkStarts? {
      forall k | LinkIs(s, k) && k != l ensures !IsRunning(s.links[k].state) {
        if IsRunning(s.links[k].state) { OneRunningLink(s, k, l); }
      }
    }
    assert forall k :: LinkIs(s, k) && k != l ==> t.links[k] == s.links[k];
    if e.LinkScanReturns? && e.scanned.Some? { assert t.links[l].state.Seeding?; }
  }

  lemma StepKeepsScans(s: State, e: Event)
    requires ChainOrdered(s) && ScansCounted(s) && Enabled(s, e)
    ensures ScansCounted(Step(s, e))
  {
    match e
    case LinkStarts(l) => LinkStepKeepsScans(s, l, e);
    case LinkReChecks(l, _) => LinkStepKeepsScans(s, l, e);
    case LinkScanReturns(l, _) => LinkStepKeepsScans(s, l, e);
    case LinkSeeds(l, _) => LinkStepKeepsScans(s, l, e);
    case LinkDecrementsAfterLoss(l, _) => LinkStepKeepsScans(s, l, e);
    case TopDecrement(c, now) => QuietKeepsScans(s, Log(s, Decrement, Some(c), now), Step(s, e));
    case FlightWrites(f, now) => QuietKeepsScans(s, Log(s, Overwrite(s.flights[f].scanned), None, now), Step(s, e));
    case OtherProcess(statement, now) => QuietKeepsScans(s, Log(s, statement, None, now), Step(s, e));
    case Restart =>
    case Resume(_, _) => KeepsLinks(s, Step(s, e));
    case _ => KeepsLinks(s, Step(s, e));
  }

  /** Statements from elsewhere, and new queued links, leave the scan count alone. */
  lemma QuietKeepsScans(s: State, logged: State, t: State)
    requires ScansCounted(s) && |logged.ledger| == |s.ledger| + 1 && logged.ledger[..|s.ledger|] == s.ledger
    requires t.ledger == logged.ledger && t.links == s.links && t.scans == s.scans && t.lost == s.lost
    ensures ScansCounted(t)
  {
    Appended(s.ledger, logged.ledger[|s.ledger|]);
    assert logged.ledger == s.ledger + [logged.ledger[|s.ledger|]];
    SameLinks(s, t);
  }

  lemma KeepsLinks(s: State, t: State)
    requires ScansCounted(s) && t.ledger == s.ledger && t.scans == s.scans && t.lost == s.lost
    requires t.links == s.links || (|t.links| == |s.links| + 1 && t.links[..|s.links|] == s.links
                                    && t.links[|s.links|].state.Queued?)
    ensures ScansCounted(t)
  {
    forall l | LinkIs(s, l) ensures t.links[l] == s.links[l] {
      assert t.links[..|s.links|][l] == s.links[l];
    }
    SameLinks(s, t);
  }

  lemma SameLinks(s: State, t: State)
    requires forall l :: LinkIs(s, l) ==> LinkIs(t, l) && t.links[l] == s.links[l]
    requires forall l :: LinkIs(t, l) && !LinkIs(s, l) ==> t.links[l].state.Queued?
    ensures SeedPending(s) <==> SeedPending(t)
  {
    if SeedPending(s) {
      var l :| 0 <= l < |s.links| && s.links[l].state.Seeding?;
      assert LinkIs(s, l) && t.links[l].state.Seeding?;
    }
    if SeedPending(t) {
      var l :| 0 <= l < |t.links| && t.links[l].state.Seeding?;
      assert LinkIs(t, l) && s.links[l].state.Seeding?;
    }
  }

  lemma StepKeepsFlight(s: State, e: Event)
    requires OneFlight(s) && Enabled(s, e)
    ensures OneFlight(Step(s, e))
  {
  }

  // ---- Values are traced to statements --------------------------------------------------

  lemma StillCameFrom(s: State, t: State, sale: nat, value: Option<int>, entry: Option<nat>)
    requires CameFrom(s, sale, value, entry)
    requires t.ledger == s.ledger || (|t.ledger| == |s.ledger| + 1 && t.ledger[..|s.ledger|] == s.ledger)
    ensures CameFrom(t, sale, value, entry)
  {
    if t.ledger != s.ledger {
      assert t.ledger == s.ledger + [t.ledger[|s.ledger|]];
      Appended(s.ledger, t.ledger[|s.ledger|]);
    }
  }

  ghost predicate Extends(s: State, t: State) {
    && (t.ledger == s.ledger || (|t.ledger| == |s.ledger| + 1 && t.ledger[..|s.ledger|] == s.ledger))
    && |s.links| <= |t.links| && |s.flights| <= |t.flights|
    && forall l :: LinkIs(s, l) ==> t.links[l].sale == s.links[l].sale
  }

  lemma StillTraced(s: State, t: State, c: nat, sale: Sale)
    requires SaleTraced(s, c, sale) && Extends(s, t)
    ensures SaleTraced(t, c, sale)
  {
    match sale
    case Done(v, e) => StillCameFrom(s, t, c, v, e);
    case Decremented(e) => assert t.ledger[..|s.ledger|][e] == s.ledger[e];
    case _ =>
  }

  lemma LinkExecutesTraced(s: State, l: nat, statement: Statement, now: int, otherwise: LinkState)
    requires LinkIs(s, l) && !statement.Overwrite?
    ensures var t := LinkExecutes(s, l, statement, now, otherwise);
            && Extends(s, t)
            && (t.links[l].state == otherwise
                || (t.links[l].state.Settled? && CameFrom(t, t.links[l].sale, t.links[l].state.value, t.links[l].state.entry)))
  {
    Appended(s.ledger, Entry(statement, Some(s.links[l].sale), now));
  }

  lemma StepExtends(s: State, e: Event)
    requires Enabled(s, e) && !e.Restart?
    ensures Extends(s, Step(s, e))
  {
  }

  lemma StepKeepsTraced(s: State, e: Event)
    requires ValuesTraced(s) && OneFlight(s) && Enabled(s, e)
    ensures ValuesTraced(Step(s, e))
  {
    hide RowAfter, ResultOf, ReconciliationDue;
    if !e.Restart? {
      var t := Step(s, e);
      StepExtends(s, e);
      NewLinkTraced(s, e);
      NewSaleTraced(s, e);
      FlightsTraced(s, e);
      forall l | LinkIs(t, l) && t.links[l].state.Settled?
        ensures CameFrom(t, t.links[l].sale, t.links[l].state.value, t.links[l].state.entry)
      {
        if LinkIs(s, l) && t.links[l] == s.links[l] {
          StillCameFrom(s, t, s.links[l].sale, s.links[l].state.value, s.links[l].state.entry);
        }
      }
      forall c | 0 <= c < |t.sales| ensures SaleTraced(t, c, t.sales[c]) {
        if c < |s.sales| && t.sales[c] == s.sales[c] { StillTraced(s, t, c, s.sales[c]); }
      }
    }
  }

  lemma StillFlightTraced(s: State, t: State, f: Flight)
    requires FlightTraced(s, f) && Extends(s, t)
    ensures FlightTraced(t, f)
  {
    if t.ledger != s.ledger {
      assert t.ledger == s.ledger + [t.ledger[|s.ledger|]];
      Appended(s.ledger, t.ledger[|s.ledger|]);
    }
  }

  lemma FlightsTraced(s: State, e: Event)
    requires ValuesTraced(s) && Enabled(s, e) && !e.Restart?
    ensures var t := Step(s, e); forall f :: 0 <= f < |t.flights| ==> FlightTraced(t, t.flights[f])
  {
    var t := Step(s, e);
    StepExtends(s, e);
    if e.FlightWrites? { Appended(s.ledger, Entry(Overwrite(s.flights[e.flight].scanned), None, e.now)); }
    hide RowAfter, ResultOf, ReconciliationDue, Extends;
    forall f | 0 <= f < |t.flights| ensures FlightTraced(t, t.flights[f]) {
      if f < |s.flights| && t.flights[f] == s.flights[f] { StillFlightTraced(s, t, s.flights[f]); }
    }
  }

  lemma NewLinkTraced(s: State, e: Event)
    requires ValuesTraced(s) && Enabled(s, e) && !e.Restart?
    ensures var t := Step(s, e);
            forall l :: LinkIs(t, l) && t.links[l].state.Settled? && !(LinkIs(s, l) && t.links[l] == s.links[l]) ==>
              CameFrom(t, t.links[l].sale, t.links[l].state.value, t.links[l].state.entry)
  {
    match e
    case LinkReChecks(l, now) => LinkExecutesTraced(s, l, Decrement, now, Scanning);
    case LinkSeeds(l, now) => LinkExecutesTraced(s, l, Seed(s.links[l].state.scanned), now, LostSeed);
    case LinkDecrementsAfterLoss(l, now) => LinkExecutesTraced(s, l, Decrement, now, Settled(None, None));
    case _ =>
  }

  lemma NewSaleTraced(s: State, e: Event)
    requires ValuesTraced(s) && OneFlight(s) && Enabled(s, e) && !e.Restart?
    ensures var t := Step(s, e);
            forall c :: 0 <= c < |t.sales| && !(c < |s.sales| && t.sales[c] == s.sales[c]) ==> SaleTraced(t, c, t.sales[c])
  {
    hide RowAfter, ResultOf, ReconciliationDue;
    match e
    case Resume(c, now) => assert SaleTraced(s, c, s.sales[c]);
    case LinkAnswers(c) => assert SaleTraced(s, c, s.sales[c]);
    case _ =>
  }

  // ---- Runs -----------------------------------------------------------------------------

  ghost predicate IsRun(s: State, events: seq<Event>, final: State)
    decreases |events|
  {
    if |events| == 0 then s == final
    else Enabled(s, events[0]) && IsRun(Step(s, events[0]), events[1..], final)
  }

  lemma {:induction false} RunKeepsInv(s: State, events: seq<Event>, final: State)
    requires Inv(s) && IsRun(s, events, final)
    ensures Inv(final)
    decreases |events|
  {
    if |events| > 0 {
      StepKeepsChain(s, events[0]);
      StepKeepsScans(s, events[0]);
      StepKeepsFlight(s, events[0]);
      StepKeepsTraced(s, events[0]);
      RunKeepsInv(Step(s, events[0]), events[1..], final);
    }
  }

  /** In every interleaving, with clears and restarts: never two links at work, never two
      reconciliation scans, and at most one successful first-sight scan more than restarts that
      lost a seed. */
  lemma FirstSightIsExclusive(events: seq<Event>, s: State)
    requires IsRun(INITIAL, events, s)
    ensures forall i, j ::
              (LinkIs(s, i) && LinkIs(s, j) && IsRunning(s.links[i].state) && IsRunning(s.links[j].state)) ==> i == j
    ensures forall f, g :: 0 <= f < |s.flights| && 0 <= g < |s.flights| ==>
              s.flights[f].FlightSettled? || s.flights[g].FlightSettled? || f == g
    ensures s.lost <= s.scans <= s.lost + 1
  {
    RunKeepsInv(INITIAL, events, s);
    forall i, j | LinkIs(s, i) && LinkIs(s, j) && IsRunning(s.links[i].state) && IsRunning(s.links[j].state)
      ensures i == j
    {
      OneRunningLink(s, i, j);
    }
  }

  /** The row exists, and no link is past its re-check without having seen it. */
  ghost predicate Known(s: State) {
    HasRow(s) && forall l :: LinkIs(s, l) ==> !s.links[l].state.Scanning? && !s.links[l].state.Seeding?
  }

  lemma StepKeepsRow(s: State, e: Event)
    requires HasRow(s) && Enabled(s, e)
    ensures HasRow(Step(s, e))
  {
    hide RowAfter, ResultOf, ReconciliationDue;
    if !e.Restart? {
      StepExtends(s, e);
      LongerKeepsRow(s, Step(s, e));
    }
  }

  lemma LongerKeepsRow(s: State, t: State)
    requires HasRow(s) && Extends(s, t)
    ensures HasRow(t)
  {
    if t.ledger != s.ledger {
      assert t.ledger == s.ledger + [t.ledger[|s.ledger|]];
      Appended(s.ledger, t.ledger[|s.ledger|]);
    }
    hide RowAfter;
  }

  lemma FindsRow(s: State, l: nat, now: int, otherwise: LinkState)
    requires HasRow(s) && LinkIs(s, l)
    ensures LinkExecutes(s, l, Decrement, now, otherwise).links[l].state.Settled?
  {
    Appended(s.ledger, Entry(Decrement, Some(s.links[l].sale), now));
  }

  lemma StepKeepsKnown(s: State, e: Event)
    requires Known(s) && Enabled(s, e)
    ensures Known(Step(s, e)) && Step(s, e).scans == s.scans && Step(s, e).lost == s.lost
  {
    StepKeepsRow(s, e);
    match e
    case LinkReChecks(l, now) => FindsRow(s, l, now, Scanning); hide ResultOf, RowAfter;
    case LinkDecrementsAfterLoss(l, now) => FindsRow(s, l, now, Settled(None, None)); hide ResultOf, RowAfter;
    case _ => hide ResultOf, RowAfter;
  }

  /** A process that starts when there is a row never scans at first sight, and neither does any
      later one. */
  lemma KnownNeverScans(s: State, events: seq<Event>, final: State)
    requires HasRow(s) && IsRun(Restarted(s), events, final)
    ensures HasRow(final) && final.scans == s.scans
  {
    KnownRun(Restarted(s), events, final);
  }

  lemma {:induction false} KnownRun(s: State, events: seq<Event>, final: State)
    requires Known(s) && IsRun(s, events, final)
    ensures Known(final) && final.scans == s.scans
    decreases |events|
  {
    if |events| > 0 {
      StepKeepsKnown(s, events[0]);
      hide Known, Step, Enabled;
      KnownRun(Step(s, events[0]), events[1..], final);
    }
  }

  /** A sale scans at first sight, and the process stops before the seed. */
  const LOSING: seq<Event> := [Arrive, TopDecrement(0, 0), Resume(0, 0), LinkStarts(0), LinkReChecks(0, 0),
                               LinkScanReturns(0, Some(1)), Restart]

  /** A process has started, and the pair has no row. */
  ghost predicate Blank(s: State) { !HasRow(s) && s == INITIAL.(ledger := s.ledger, scans := s.scans, lost := s.lost) }

  function Losings(n: nat): seq<Event> { if n == 0 then [] else Losings(n - 1) + LOSING }

  /** What such a process leaves behind. */
  function Lost(s: State): State {
    INITIAL.(ledger := s.ledger + seq(2, _ => MISS), scans := s.scans + 1, lost := s.lost + 1)
  }

  function AfterLosings(n: nat): (s: State)
    ensures s.scans == n && s.lost == n
  {
    if n == 0 then INITIAL else Lost(AfterLosings(n - 1))
  }

  /** So after `n` such processes there have been `n` scans, and there is still no row: the
      number of scans has no bound of its own. */
  lemma {:induction false} ScansPileUp(n: nat)
    ensures var s := AfterLosings(n); IsRun(INITIAL, Losings(n), s) && s.scans == n && s.lost == n && Blank(s)
  {
    hide IsRun, RowAfter, Lost;
    if n == 0 {
      NoRun(INITIAL);
      NoRow();
    } else {
      ScansPileUp(n - 1);
      hide Blank;
      LosesOne(AfterLosings(n - 1));
      RunsJoin(INITIAL, Losings(n - 1), AfterLosings(n - 1), LOSING, AfterLosings(n));
    }
  }

  lemma {:induction false} RunsJoin(s: State, a: seq<Event>, t: State, b: seq<Event>, final: State)
    requires IsRun(s, a, t) && IsRun(t, b, final)
    ensures IsRun(s, a + b, final)
    decreases |a|
  {
    hide Step, Enabled;
    if |a| == 0 {
      assert a + b == b;
    } else {
      RunsJoin(Step(s, a[0]), a[1..], t, b, final);
      assert (a + b)[1..] == a[1..] + b;
    }
  }

  lemma RunOne(s: State, events: seq<Event>, t: State, e: Event)
    requires IsRun(s, events, t) && Enabled(t, e)
    ensures IsRun(s, events + [e], Step(t, e))
  {
    assert IsRun(t, [e], Step(t, e)) by { assert [e][1..] == []; }
    RunsJoin(s, events, t, [e], Step(t, e));
  }

  const MISS := Entry(Decrement, Some(0), 0)

  /** The state of the process while the only sale awaits the only link, after `n` misses. */
  function Missed(s: State, n: nat, state: LinkState): State {
    s.(ledger := s.ledger + seq(n, _ => MISS), sales := [AwaitsLink(0)], links := [Link(0, None, state)], tail := Some(0))
  }

  lemma MissesOne(s: State)
    requires Blank(s)
    ensures IsRun(s, [Arrive, TopDecrement(0, 0), Resume(0, 0)], Missed(s, 1, Queued))
  {
    Appended(s.ledger, MISS);
    hide RowAfter, ResultOf, IsRun;
    var a := Step(s, Arrive);
    var b := Step(a, TopDecrement(0, 0));
    var c := Step(b, Resume(0, 0));
    assert a.sales == [Arrived] && b.sales == [Decremented(|s.ledger|)] && b.ledger == s.ledger + [MISS];
    assert seq(1, _ => MISS) == [MISS];
    assert c == Missed(s, 1, Queued);
    NoRun(s);
    RunOne(s, [], s, Arrive);
    RunOne(s, [] + [Arrive], a, TopDecrement(0, 0));
    RunOne(s, [] + [Arrive] + [TopDecrement(0, 0)], b, Resume(0, 0));
    assert [] + [Arrive] + [TopDecrement(0, 0)] + [Resume(0, 0)] == [Arrive, TopDecrement(0, 0), Resume(0, 0)];
  }

  lemma NoRow()
    ensures RowAfter([]).None?
  {
  }

  lemma NoRun(s: State)
    ensures IsRun(s, [], s)
  {
  }

  lemma MissesAgain(s: State)
    requires Blank(s)
    ensures IsRun(Missed(s, 1, Queued), [LinkStarts(0), LinkReChecks(0, 0)], Missed(s, 2, Scanning))
    ensures RowAfter(Missed(s, 2, Scanning).ledger).None?
  {
    Appended(s.ledger, MISS);
    Appended(s.ledger + [MISS], MISS);
    hide RowAfter, ResultOf, IsRun;
    assert seq(1, _ => MISS) == [MISS] && s.ledger + [MISS] + [MISS] == s.ledger + seq(2, _ => MISS);
    var c := Missed(s, 1, Queued);
    var d := Step(c, LinkStarts(0));
    assert d == Missed(s, 1, ReChecking);
    assert Step(d, LinkReChecks(0, 0)) == Missed(s, 2, Scanning);
    NoRun(c);
    RunOne(c, [], c, LinkStarts(0));
    RunOne(c, [] + [LinkStarts(0)], d, LinkReChecks(0, 0));
    assert [] + [LinkStarts(0)] + [LinkReChecks(0, 0)] == [LinkStarts(0), LinkReChecks(0, 0)];
  }

  lemma LosesSeed(s: State)
    requires Blank(s) && RowAfter(Missed(s, 2, Scanning).ledger).None?
    ensures IsRun(Missed(s, 2, Scanning), [LinkScanReturns(0, Some(1)), Restart], Lost(s)) && Blank(Lost(s))
  {
    hide RowAfter, IsRun;
    var e := Missed(s, 2, Scanning);
    var f := Step(e, LinkScanReturns(0, Some(1)));
    assert f.links[0].state.Seeding?;
    assert Step(f, Restart) == Lost(s);
    NoRun(e);
    RunOne(e, [], e, LinkScanReturns(0, Some(1)));
    RunOne(e, [] + [LinkScanReturns(0, Some(1))], f, Restart);
    assert [] + [LinkScanReturns(0, Some(1))] + [Restart] == [LinkScanReturns(0, Some(1)), Restart];
  }

  lemma LosesOne(s: State)
    requires Blank(s)
    ensures IsRun(s, LOSING, Lost(s)) && Blank(Lost(s))
  {
    var a, b, c := [Arrive, TopDecrement(0, 0), Resume(0, 0)], [LinkStarts(0), LinkReChecks(0, 0)],
                   [LinkScanReturns(0, Some(1)), Restart];
    MissesOne(s);
    MissesAgain(s);
    LosesSeed(s);
    hide Blank, IsRun, Missed, RowAfter, Lost;
    RunsJoin(s, a, Missed(s, 1, Queued), b, Missed(s, 2, Scanning));
    RunsJoin(s, a + b, Missed(s, 2, Scanning), c, Lost(s));
    assert a + b + c == LOSING;
  }

  /** Where a sale goes once its decrement, at `at`, has returned what was left since the scan
      value at `scan` of a row last written at `touch`. */
  ghost predicate GoesOn(s: State, t: State, c: nat, now: int, at: nat, touch: nat, scan: nat)
    requires at < |s.ledger| && c < |t.sales|
  {
    && LastTouch(s.ledger, touch, at) && LastScan(s.ledger, scan, at)
    && var n := Decrements(s.ledger, scan + 1, at + 1);
       var left := ScannedValue(s.ledger[scan].statement) - n;
       if now - s.ledger[touch].now > 21600000 || left <= 3 || n >= 25
       then
         && t.live.Some? && t.sales[c] == AwaitsFlight(t.live.value)
         && t.live == (if s.live.Some? then s.live else Some(|s.flights|))
         && t.flights == s.flights + if s.live.Some? then [] else [FlightScanning]
       else t.sales[c] == Done(Some(left), Some(at)) && t.flights == s.flights && t.live == s.live
  }

  /** In every run a sale waits for a reconciliation if and only if the row had not been written for
      more than six hours, or at most three are left, or there were 25 decrements since the scan;
      it joins the scan that is under way, if there is one. Otherwise it is answered with what is
      left. When no scan value was ever written it queues for the first scan. */
  lemma ReconcilesExactly(events: seq<Event>, s: State, c: nat, now: int)
    requires IsRun(INITIAL, events, s) && Enabled(s, Resume(c, now))
    ensures var t, at := Step(s, Resume(c, now)), s.sales[c].at;
            && t.ledger == s.ledger && at < |s.ledger|
            && if Scanned(s.ledger, at) then exists touch, scan :: GoesOn(s, t, c, now, at, touch, scan)
               else t.sales[c] == AwaitsLink(|s.links|) && t.links == s.links + [Link(c, s.tail, Queued)]
                    && t.flights == s.flights && t.live == s.live
  {
    RunKeepsInv(INITIAL, events, s);
    var at := s.sales[c].at;
    assert SaleTraced(s, c, s.sales[c]);
    hide Inv, IsRun, ResultOf, RowAfter, Scanned, LastTouch, LastScan, Decrements, GoesOn;
    DecrementReturns(s.ledger, at, 0, 0);
    if Scanned(s.ledger, at) {
      var touch, scan := RowSaysAll(s.ledger, at);
      ResumeGoesOn(s, c, now, touch, scan);
    }
  }

  lemma ResumeGoesOn(s: State, c: nat, now: int, touch: nat, scan: nat)
    requires Enabled(s, Resume(c, now)) && s.ledger[s.sales[c].at].statement.Decrement?
    requires LastTouch(s.ledger, touch, s.sales[c].at) && LastScan(s.ledger, scan, s.sales[c].at)
    ensures GoesOn(s, ResumeStep(s, c, now), c, now, s.sales[c].at, touch, scan)
  {
    hide ResultOf, RowAfter, LastTouch, LastScan, Decrements;
    DecrementReturns(s.ledger, s.sales[c].at, touch, scan);
    assert s.flights + [] == s.flights;
  }

  /** An event that brings a scan value: a scan that returned it, or a statement from elsewhere. */
  ghost predicate Brings(e: Event, n: nat) {
    match e
    case LinkScanReturns(_, scanned) => scanned == Some(n)
    case FlightScanReturns(_, scanned) => scanned == Some(n)
    case OtherProcess(statement, _) => !statement.Decrement? && ScannedValue(statement) == n
    case _ => false
  }

  ghost predicate Brought(events: seq<Event>, n: nat) { exists k :: 0 <= k < |events| && Brings(events[k], n) }

  /** Every scan value that was written, or is about to be, was brought. */
  ghost predicate ScansHonest(s: State, past: seq<Event>) {
    && (forall i :: 0 <= i < |s.ledger| && !s.ledger[i].statement.Decrement? ==> Brought(past, ScannedValue(s.ledger[i].statement)))
    && (forall l :: LinkIs(s, l) && s.links[l].state.Seeding? ==> Brought(past, s.links[l].state.scanned))
    && (forall f :: 0 <= f < |s.flights| && s.flights[f].FlightWriting? ==> Brought(past, s.flights[f].scanned))
  }

  lemma BroughtLater(past: seq<Event>, e: Event, n: nat)
    ensures Brought(past, n) || Brings(e, n) ==> Brought(past + [e], n)
  {
    if k :| 0 <= k < |past| && Brings(past[k], n) { assert Brings((past + [e])[k], n); }
    if Brings(e, n) { assert Brings((past + [e])[|past|], n); }
  }

  lemma StepKeepsHonest(s: State, e: Event, past: seq<Event>)
    requires ScansHonest(s, past) && Enabled(s, e)
    ensures ScansHonest(Step(s, e), past + [e])
  {
    hide RowAfter, ResultOf, ReconciliationDue, Brought, Brings;
    forall n: nat ensures Brought(past, n) ==> Brought(past + [e], n) { BroughtLater(past, e, n); }
    match e
    case LinkScanReturns(_, scanned) => if scanned.Some? { BringsNow(past, e, scanned.value); }
    case FlightScanReturns(_, scanned) => if scanned.Some? { BringsNow(past, e, scanned.value); }
    case OtherProcess(statement, _) => if !statement.Decrement? { BringsNow(past, e, ScannedValue(statement)); }
    case _ =>
  }

  lemma BringsNow(past: seq<Event>, e: Event, n: nat)
    requires Brings(e, n)
    ensures Brought(past + [e], n)
  {
    BroughtLater(past, e, n);
  }

  lemma {:induction false} RunKeepsHonest(s: State, events: seq<Event>, final: State, past: seq<Event>)
    requires ScansHonest(s, past) && IsRun(s, events, final)
    ensures ScansHonest(final, past + events)
    decreases |events|
  {
    if |events| == 0 {
      assert past + events == past;
    } else {
      StepKeepsHonest(s, events[0], past);
      hide Step, Enabled, ScansHonest;
      RunKeepsHonest(Step(s, events[0]), events[1..], final, past + [events[0]]);
      assert past + [events[0]] + events[1..] == past + events;
    }
  }

  /** In every run, each scan value that a statement installs was returned by a scan, or came from
      another process. */
  lemma OnlyScansAreWritten(events: seq<Event>, s: State, i: nat)
    requires IsRun(INITIAL, events, s) && i < |s.ledger| && !s.ledger[i].statement.Decrement?
    ensures Brought(events, ScannedValue(s.ledger[i].statement))
  {
    RunKeepsHonest(INITIAL, events, s, []);
    assert [] + events == events;
  }

  /** Two sales share a statement only when one reconciliation answered both. Of two values
      handed out between the same two scan writes, the value of that write included, the later
      one is smaller, unless both are zero. */
  lemma HandedOutValuesDiffer(events: seq<Event>, s: State, c: nat, d: nat, scan: nat)
    requires IsRun(INITIAL, events, s) && c < |s.sales| && d < |s.sales| && c != d
    requires s.sales[c].Done? && s.sales[c].value.Some? && s.sales[d].Done? && s.sales[d].value.Some?
    ensures s.sales[c].entry.Some? && s.sales[d].entry.Some? && s.sales[d].entry.value < |s.ledger|
    ensures var i, j, a, b := s.sales[c].entry.value, s.sales[d].entry.value, s.sales[c].value.value, s.sales[d].value.value;
            && (i == j ==> s.ledger[i].statement.Overwrite? && a == b)
            && (scan <= i < j && IsScanWrite(s.ledger, scan) && SameEra(s.ledger, scan + 1, j + 1) ==>
                  0 <= b <= a && (a > 0 ==> b < a))
  {
    RunKeepsInv(INITIAL, events, s);
    assert SaleTraced(s, c, s.sales[c]) && SaleTraced(s, d, s.sales[d]);
    hide ResultOf, Inv, IsRun;
    var i, j := s.sales[c].entry.value, s.sales[d].entry.value;
    if scan <= i < j && IsScanWrite(s.ledger, scan) && SameEra(s.ledger, scan + 1, j + 1) {
      NotAScan(s.ledger, scan + 1, j + 1, j);
      if i > scan { NotAScan(s.ledger, scan + 1, j + 1, i); }
      HandedOutDecrease(s.ledger, scan, i, j);
    }
  }

  /** A statement that had a result and installed nothing is a decrement. */
  lemma NotAScan(ledger: seq<Entry>, from: nat, to: nat, i: nat)
    requires from <= i < to <= |ledger| && SameEra(ledger, from, to) && ResultOf(ledger, i).Some?
    ensures ledger[i].statement.Decrement?
  {
    assert !IsScanWrite(ledger, i);
  }

  // ---- The row of one pair, updated in place ----------------------------------------------

  class HoldingsRow {
    var row: Option<Row>
    ghost var ledger: seq<Entry>

    ghost predicate Valid()
      reads this
    {
      row == RowAfter(ledger)
    }

    constructor ()
      ensures Valid() && ledger == []
    {
      row, ledger := None, [];
    }

    /** Decrements a row that exists, and returns it with the time it carried before. */
    method AtomicDecrement(ghost owner: Option<nat>, now: int) returns (r: Option<Result>)
      requires Valid()
      modifies this
      ensures Valid() && ledger == old(ledger) + [Entry(Decrement, owner, now)]
      ensures r == ResultOf(ledger, |old(ledger)|) && (r.None? <==> old(row).None?)
      ensures old(row).None? ==> row.None?
      ensures old(row).Some? ==>
                var was := old(row).value;
                && row == Some(Row(if was.count > 1 then was.count - 1 else 0, was.decrementsSinceScan + 1, now))
                && r == Some(Result(row.value.count, row.value.decrementsSinceScan, was.updatedAt))
    {
      Appended(ledger, Entry(Decrement, owner, now));
      ledger := ledger + [Entry(Decrement, owner, now)];
      if row.None? { return None; }
      var was := row.value;
      var count := was.count - 1;
      if count < 0 { count := 0; }
      row := Some(Row(count, was.decrementsSinceScan + 1, now));
      return Some(Result(count, was.decrementsSinceScan + 1, was.updatedAt));
    }

    /** Inserts a row unless there is one; the count tells who won. */
    method Seed(ghost owner: Option<nat>, scanned: nat, now: int) returns (count: Option<int>)
      requires Valid()
      modifies this
      ensures Valid() && ledger == old(ledger) + [Entry(Statement.Seed(scanned), owner, now)]
      ensures count == CountOf(ResultOf(ledger, |old(ledger)|))
      ensures if old(row).Some? then row == old(row) && count.None?
              else row == Some(Row(scanned, 0, now)) && count == Some(scanned)
    {
      Appended(ledger, Entry(Statement.Seed(scanned), owner, now));
      ledger := ledger + [Entry(Statement.Seed(scanned), owner, now)];
      if row.Some? { return None; }
      row := Some(Row(scanned, 0, now));
      return Some(scanned);
    }

    method Overwrite(ghost owner: Option<nat>, scanned: nat, now: int)
      requires Valid()
      modifies this
      ensures Valid() && ledger == old(ledger) + [Entry(Statement.Overwrite(scanned), owner, now)]
      ensures row == Some(Row(scanned, 0, now))
    {
      Appended(ledger, Entry(Statement.Overwrite(scanned), owner, now));
      ledger := ledger + [Entry(Statement.Overwrite(scanned), owner, now)];
      row := Some(Row(scanned, 0, now));
    }
  }
}
