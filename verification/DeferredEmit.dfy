/** The first frame of a sale against its enrichment (the end of insertSaleEvent in
    src/db/insert.ts). Every sale is one small process, all of them share one counter and one
    event bus, and every callback is one atomic step. */
module DeferredEmit {

  datatype Kind = Frame | Meta | Remove
  datatype Emission = Emission(sale: nat, kind: Kind)

  /** What the blacklist says about a resolved identity; the look-up itself may throw. */
  datatype Blacklist = Clean | Blocked | Threw

  /** `emitted` says whether the frame of the sale went out before its enrichment is applied,
      `awaited` whether the race waits for the application. */
  datatype Phase =
    | Racing
    | Background
    | Applying(emitted: bool, verdict: Blacklist, awaited: bool)
    | Finished

  datatype Sale = Sale(phase: Phase, slot: bool, applied: nat)

  datatype State = State(sales: seq<Sale>, deferInflight: int, log: seq<Emission>)

  datatype Event =
    | Arrive(hasMint: bool, needsDeferral: bool)
    | Enriched(i: nat, verdict: Blacklist)
    | EnrichFailed(i: nat)
    | TimedOut(i: nat)
    | Stored(i: nat, ok: bool)                 // the DELETE or UPDATE of an application ends
    | Settled(i: nat)                          // the race is over and gives its slot back

  // ---- Steps --------------------------------------------------------------------------------

  predicate Enabled(s: State, e: Event) {
    match e
    case Arrive(_, _) => true
    case Enriched(i, _) => i < |s.sales| && (s.sales[i].phase.Racing? || s.sales[i].phase.Background?)
    case EnrichFailed(i) => i < |s.sales| && (s.sales[i].phase.Racing? || s.sales[i].phase.Background?)
    case TimedOut(i) => i < |s.sales| && s.sales[i].phase.Racing?
    case Stored(i, _) => i < |s.sales| && s.sales[i].phase.Applying?
    case Settled(i) =>
      && i < |s.sales| && s.sales[i].slot && !s.sales[i].phase.Racing?
      && !(s.sales[i].phase.Applying? && s.sales[i].phase.awaited)
  }

  function Emit(s: State, i: nat, kind: Kind): State { s.(log := s.log + [Emission(i, kind)]) }

  function Put(s: State, i: nat, sale: Sale): State
    requires i < |s.sales|
  {
    s.(sales := s.sales[i := sale])
  }

  function ArriveStep(s: State, cap: nat, hasMint: bool, needsDeferral: bool): State {
    var i := |s.sales|;
    if !hasMint then Emit(s.(sales := s.sales + [Sale(Finished, false, 0)]), i, Frame)
    else if !needsDeferral || s.deferInflight >= cap then
      Emit(s.(sales := s.sales + [Sale(Background, false, 0)]), i, Frame)
    else s.(sales := s.sales + [Sale(Racing, true, 0)], deferInflight := s.deferInflight + 1)
  }

  /** The enrichment wins the race, or resolves in the background. A look-up that throws in the
      race falls back to a frame and a background application. */
  function EnrichedStep(s: State, i: nat, verdict: Blacklist): State
    requires Enabled(s, Enriched(i, verdict))
  {
    var sale := s.sales[i];
    if sale.phase.Racing? then
      match verdict
      case Blocked => Put(s, i, sale.(phase := Applying(false, Blocked, true), applied := sale.applied + 1))
      case Clean => Put(Emit(s, i, Frame), i, sale.(phase := Applying(true, Clean, true), applied := sale.applied + 1))
      case Threw => Put(Emit(s, i, Frame), i, sale.(phase := Background))
    else if verdict == Threw then Put(s, i, sale.(phase := Finished, applied := sale.applied + 1))
    else Put(s, i, sale.(phase := Applying(true, verdict, false), applied := sale.applied + 1))
  }

  function FailedStep(s: State, i: nat): State
    requires Enabled(s, EnrichFailed(i))
  {
    var sale := s.sales[i];
    var s' := if sale.phase.Racing? then Emit(s, i, Frame) else s;
    Put(s', i, sale.(phase := Finished))
  }

  function StoredStep(s: State, i: nat, ok: bool): State
    requires Enabled(s, Stored(i, ok))
  {
    var sale := s.sales[i];
    var s' := if !ok then s
              else if sale.phase.verdict.Clean? then Emit(s, i, Meta)
              else if sale.phase.emitted then Emit(s, i, Remove)
              else s;
    Put(s', i, sale.(phase := Finished))
  }

  function Step(s: State, cap: nat, e: Event): State
    requires Enabled(s, e)
  {
    match e
    case Arrive(hasMint, needsDeferral) => ArriveStep(s, cap, hasMint, needsDeferral)
    case Enriched(i, verdict) => EnrichedStep(s, i, verdict)
    case EnrichFailed(i) => FailedStep(s, i)
    case TimedOut(i) => Put(Emit(s, i, Frame), i, s.sales[i].(phase := Background))
    case Stored(i, ok) => StoredStep(s, i, ok)
    case Settled(i) => Put(s, i, s.sales[i].(slot := false)).(deferInflight := s.deferInflight - 1)
  }

  const START := State([], 0, [])

  ghost predicate Possible(cap: nat, events: seq<Event>)
    decreases |events|, 0
  {
    |events| > 0 ==>
      && Possible(cap, events[..|events| - 1])
      && Enabled(Run(cap, events[..|events| - 1]), events[|events| - 1])
  }

  ghost function Run(cap: nat, events: seq<Event>): State
    requires Possible(cap, events)
    decreases |events|, 1
  {
    if |events| == 0 then START
    else Step(Run(cap, events[..|events| - 1]), cap, events[|events| - 1])
  }

  // ---- What clients see of one sale ---------------------------------------------------------

  ghost function Trace(log: seq<Emission>, i: nat): seq<Kind>
    decreases |log|
  {
    if |log| == 0 then []
    else Trace(log[..|log| - 1], i) + if log[|log| - 1].sale == i then [log[|log| - 1].kind] else []
  }

  lemma TraceEmit(s: State, i: nat, kind: Kind, j: nat)
    ensures Trace(Emit(s, i, kind).log, j) == Trace(s.log, j) + if i == j then [kind] else []
  {
    assert (s.log + [Emission(i, kind)])[..|s.log|] == s.log;
  }

  /** The trace a sale may have shown in each phase. */
  ghost predicate SaleOk(sale: Sale, trace: seq<Kind>) {
    match sale.phase
    case Racing => trace == [] && sale.applied == 0 && sale.slot
    case Background => trace == [Frame] && sale.applied == 0
    case Applying(emitted, verdict, awaited) =>
      && trace == (if emitted then [Frame] else []) && sale.applied == 1
      && verdict != Threw && (awaited ==> sale.slot) && (awaited ==> (emitted <==> verdict == Clean))
      && (!emitted ==> awaited)
    case Finished =>
      sale.applied <= 1 && (trace == [] || trace == [Frame] || trace == [Frame, Meta] || trace == [Frame, Remove])
      && (sale.applied == 0 ==> trace == [Frame])
  }

  ghost function Slots(sales: seq<Sale>): nat {
    if |sales| == 0 then 0 else Slots(sales[..|sales| - 1]) + if sales[|sales| - 1].slot then 1 else 0
  }

  lemma {:induction false} SlotsPut(sales: seq<Sale>, i: nat, sale: Sale)
    requires i < |sales|
    ensures Slots(sales[i := sale]) == Slots(sales) - (if sales[i].slot then 1 else 0) + if sale.slot then 1 else 0
    decreases |sales|
  {
    var n, put := |sales| - 1, sales[i := sale];
    if i < n {
      SlotsPut(sales[..n], i, sale);
      assert put[..n] == sales[..n][i := sale];
    } else {
      assert put[..n] == sales[..n];
    }
  }

  ghost predicate Inv(s: State, cap: nat) {
    && (forall i: nat :: i < |s.sales| ==> SaleOk(s.sales[i], Trace(s.log, i)))
    && (forall i: nat :: i >= |s.sales| ==> Trace(s.log, i) == [])
    && s.deferInflight == Slots(s.sales) && s.deferInflight <= cap
  }

  /** A step that only touches sale `i` keeps the invariant if it keeps it there. */
  lemma Touches(s: State, s': State, i: nat, cap: nat)
    requires Inv(s, cap) && i < |s.sales| == |s'.sales| && s'.sales == s.sales[i := s'.sales[i]]
    requires forall j: nat :: j != i ==> Trace(s'.log, j) == Trace(s.log, j)
    requires SaleOk(s'.sales[i], Trace(s'.log, i))
    requires s'.deferInflight - s.deferInflight
             == (if s'.sales[i].slot then 1 else 0) - (if s.sales[i].slot then 1 else 0) <= 0
    ensures Inv(s', cap)
  {
    hide SaleOk, Trace, Slots;
    SlotsPut(s.sales, i, s'.sales[i]);
    forall j: nat | j < |s'.sales| ensures SaleOk(s'.sales[j], Trace(s'.log, j)) {
      if j != i { assert s'.sales[j] == s.sales[j]; }
    }
  }

  lemma Arrives(s: State, cap: nat, hasMint: bool, needsDeferral: bool)
    requires Inv(s, cap)
    ensures Inv(ArriveStep(s, cap, hasMint, needsDeferral), cap)
  {
    hide Trace;
    var s', n := ArriveStep(s, cap, hasMint, needsDeferral), |s.sales|;
    forall j: nat ensures Trace(Emit(s, n, Frame).log, j) == Trace(s.log, j) + if n == j then [Frame] else [] {
      TraceEmit(s, n, Frame, j);
    }
    assert s'.sales[..n] == s.sales;
    assert Trace(s.log, n) == [];
    forall j: nat | j < |s'.sales| ensures SaleOk(s'.sales[j], Trace(s'.log, j)) {
      if j < n { assert s'.sales[j] == s.sales[j]; }
    }
  }

  lemma StepKeepsInv(s: State, cap: nat, e: Event)
    requires Inv(s, cap) && Enabled(s, e)
    ensures Inv(Step(s, cap, e), cap)
  {
    hide Trace, Inv, Slots;
    match e
    case Arrive(hasMint, needsDeferral) => Arrives(s, cap, hasMint, needsDeferral);
    case Enriched(i, verdict) => OwnCallback(s, cap, i, EnrichedStep(s, i, verdict), Frame);
    case EnrichFailed(i) => OwnCallback(s, cap, i, FailedStep(s, i), Frame);
    case TimedOut(i) => OwnCallback(s, cap, i, Step(s, cap, e), Frame);
    case Stored(i, ok) => OwnCallback(s, cap, i, StoredStep(s, i, ok), if s.sales[i].phase.verdict.Clean? then Meta else Remove);
    case Settled(i) => OwnCallback(s, cap, i, Step(s, cap, e), Frame);
  }

  /** A callback changes its own sale and emits at most once, for that sale. */
  lemma OwnCallback(s: State, cap: nat, i: nat, s': State, kind: Kind)
    requires Inv(s, cap) && i < |s.sales| == |s'.sales| && s'.sales == s.sales[i := s'.sales[i]]
    requires s'.log == s.log || s'.log == Emit(s, i, kind).log
    requires var trace := Trace(s.log, i);
             SaleOk(s.sales[i], trace) ==> SaleOk(s'.sales[i], if s'.log == s.log then trace else trace + [kind])
    requires s'.deferInflight - s.deferInflight
             == (if s'.sales[i].slot then 1 else 0) - (if s.sales[i].slot then 1 else 0) <= 0
    ensures Inv(s', cap)
  {
    hide SaleOk, Trace, Slots, Inv;
    SaleAt(s, cap, i);
    forall j: nat ensures Trace(Emit(s, i, kind).log, j) == Trace(s.log, j) + if i == j then [kind] else [] {
      TraceEmit(s, i, kind, j);
    }
    Touches(s, s', i, cap);
  }

  lemma SaleAt(s: State, cap: nat, i: nat)
    requires Inv(s, cap) && i < |s.sales|
    ensures SaleOk(s.sales[i], Trace(s.log, i))
  {
  }

  /** In every run every sale shows nothing, its frame, or its frame and then one patch or one
      removal; its enrichment is applied at most once; and the deferrals in flight are exactly
      the slots held, at least 0 and at most the cap. */
  lemma {:induction false} EmitProtocol(cap: nat, events: seq<Event>)
    requires Possible(cap, events)
    ensures var s := Run(cap, events);
            && Inv(s, cap) && 0 <= s.deferInflight <= cap
            && forall i: nat :: i < |s.sales| ==>
                 && s.sales[i].applied <= 1
                 && (Trace(s.log, i) == [] || Trace(s.log, i) == [Frame]
                     || Trace(s.log, i) == [Frame, Meta] || Trace(s.log, i) == [Frame, Remove])
    decreases |events|
  {
    if |events| > 0 {
      hide Trace, Step, Enabled;
      var before := events[..|events| - 1];
      EmitProtocol(cap, before);
      StepKeepsInv(Run(cap, before), cap, events[|events| - 1]);
    }
  }

  // ---- Which sales are deferred -------------------------------------------------------------

  /** The sales whose race holds a slot. */
  ghost function Holding(sales: seq<Sale>): set<nat> { set i: nat | i < |sales| && sales[i].slot }

  lemma {:induction false} SlotsCount(sales: seq<Sale>)
    ensures Slots(sales) == |Holding(sales)|
  {
    if |sales| > 0 {
      var n := |sales| - 1;
      SlotsCount(sales[..n]);
      assert Holding(sales) == Holding(sales[..n]) + if sales[n].slot then {n as nat} else {};
      assert n !in Holding(sales[..n]);
    } else {
      assert Holding(sales) == {};
    }
  }

  /** In every run, the frame of a new sale is held back exactly when the sale has a mint, is to be
      deferred, and fewer races than the cap hold a slot; its own race then holds one. Every other
      sale shows its frame at once, and one without a mint is never enriched. */
  lemma DeferredExactly(cap: nat, events: seq<Event>, hasMint: bool, needsDeferral: bool)
    requires Possible(cap, events)
    ensures var s := Run(cap, events);
            var t, i := Step(s, cap, Arrive(hasMint, needsDeferral)), |s.sales|;
            var deferred := hasMint && needsDeferral && |Holding(s.sales)| < cap;
            && |t.sales| == i + 1 && t.sales[..i] == s.sales
            && Trace(t.log, i) == (if deferred then [] else [Frame])
            && (t.sales[i].phase.Racing? <==> deferred) && (t.sales[i].phase.Finished? <==> !hasMint)
            && Holding(t.sales) == Holding(s.sales) + if deferred then {i} else {}
  {
    var s := Run(cap, events);
    EmitProtocol(cap, events);
    SlotsCount(s.sales);
    NoTraceYet(s, cap, |s.sales|);
    TraceEmit(s, |s.sales|, Frame, |s.sales|);
    hide Trace, Slots, Run;
    ArriveShape(s, cap, hasMint, needsDeferral);
  }

  lemma ArriveShape(s: State, cap: nat, hasMint: bool, needsDeferral: bool)
    ensures var t := ArriveStep(s, cap, hasMint, needsDeferral);
            && |t.sales| == |s.sales| + 1 && t.sales[..|s.sales|] == s.sales
            && Holding(t.sales) == Holding(s.sales) + if t.sales[|s.sales|].slot then {|s.sales|} else {}
  {
    var t := ArriveStep(s, cap, hasMint, needsDeferral);
    forall i: nat | i < |s.sales| ensures t.sales[i] == s.sales[i] {}
  }

  // ---- Which sales are suppressed -----------------------------------------------------------

  /** The enrichment won the race of sale `i` and its identity was blocked. */
  ghost predicate LostToBlacklist(cap: nat, events: seq<Event>, i: nat)
    requires Possible(cap, events)
    decreases |events|
  {
    |events| > 0 &&
      var before, e := events[..|events| - 1], events[|events| - 1];
      || LostToBlacklist(cap, before, i)
      || (e == Enriched(i, Blocked) && Run(cap, before).sales[i].phase.Racing?)
  }

  ghost predicate Silent(sale: Sale) {
    sale.phase.Finished? || (sale.phase.Applying? && !sale.phase.emitted)
  }

  lemma NoTraceYet(s: State, cap: nat, i: nat)
    requires Inv(s, cap) && i >= |s.sales|
    ensures Trace(s.log, i) == []
  {
  }

  lemma InvOk(s: State, cap: nat, i: nat)
    requires Inv(s, cap) && i < |s.sales|
    ensures SaleOk(s.sales[i], Trace(s.log, i))
  {
  }

  lemma StepSuppresses(s: State, cap: nat, e: Event, i: nat, lost: bool)
    requires Inv(s, cap) && Enabled(s, e)
    requires i < |s.sales| ==> (Trace(s.log, i) == [] <==> s.sales[i].phase.Racing? || lost)
    requires lost ==> i < |s.sales| && Silent(s.sales[i])
    ensures var s' := Step(s, cap, e);
            var lost' := lost || (e == Enriched(i, Blocked) && s.sales[i].phase.Racing?);
            && (i < |s'.sales| ==> (Trace(s'.log, i) == [] <==> s'.sales[i].phase.Racing? || lost'))
            && (lost' ==> i < |s'.sales| && Silent(s'.sales[i]))
  {
    hide Trace, Slots, Inv;
    if e.Arrive? {
      NoTraceYet(s, cap, |s.sales|);
      TraceEmit(s, |s.sales|, Frame, i);
    } else {
      InvOk(s, cap, e.i);
      TraceEmit(s, e.i, Frame, i);
      TraceEmit(s, e.i, Meta, i);
      TraceEmit(s, e.i, Remove, i);
    }
  }

  /** A sale whose race is over shows nothing if and only if its enrichment won the race with a
      blocked identity: every other sale gets exactly one frame, whatever fails. */
  lemma {:induction false} SuppressedExactly(cap: nat, events: seq<Event>, i: nat)
    requires Possible(cap, events)
    ensures var s := Run(cap, events);
            && (i < |s.sales| ==>
                  (Trace(s.log, i) == [] <==> s.sales[i].phase.Racing? || LostToBlacklist(cap, events, i)))
            && (LostToBlacklist(cap, events, i) ==> i < |s.sales| && Silent(s.sales[i]))
    decreases |events|
  {
    hide Trace, Step, Enabled, Silent, Inv;
    if |events| > 0 {
      var before := events[..|events| - 1];
      SuppressedExactly(cap, before, i);
      EmitProtocol(cap, before);
      StepSuppresses(Run(cap, before), cap, events[|events| - 1], i, LostToBlacklist(cap, before, i));
    }
  }

  // ---- The end of a sale ----------------------------------------------------------------------

  ghost predicate Ended(events: seq<Event>, i: nat) {
    EnrichFailed(i) in events || Stored(i, true) in events || Stored(i, false) in events
  }

  lemma StepEnds(s: State, cap: nat, e: Event, i: nat)
    requires Enabled(s, e)
    ensures var t := Step(s, cap, e);
            && |s.sales| <= |t.sales|
            && (i < |s.sales| && s.sales[i].phase.Finished? ==> t.sales[i].phase.Finished?)
            && (Ended([e], i) ==> i < |t.sales| && t.sales[i].phase.Finished?)
  {
  }

  /** In every run, a sale whose enrichment failed, or was stored, is finished for good: no callback
      but the return of its slot is left to it. */
  lemma {:induction false} EndedIsFinal(cap: nat, events: seq<Event>, i: nat)
    requires Possible(cap, events) && Ended(events, i)
    ensures var s := Run(cap, events);
            && i < |s.sales| && s.sales[i].phase.Finished?
            && forall e :: Enabled(s, e) && !e.Arrive? && e.i == i ==> e.Settled?
    decreases |events|
  {
    var before, e := events[..|events| - 1], events[|events| - 1];
    hide Step, Enabled;
    StepEnds(Run(cap, before), cap, e, i);
    if Ended(before, i) {
      EndedIsFinal(cap, before, i);
    } else {
      assert events == before + [e];
      assert Ended([e], i);
    }
    OnlySettles(Run(cap, events), i);
  }

  lemma OnlySettles(s: State, i: nat)
    requires i < |s.sales| && s.sales[i].phase.Finished?
    ensures forall e :: Enabled(s, e) && !e.Arrive? && e.i == i ==> e.Settled?
  {
  }

  // ---- Which sales are patched and which removed ----------------------------------------------

  /** What the events so far say about a sale in each phase. */
  ghost predicate Explained(sale: Sale, trace: seq<Kind>, events: seq<Event>, i: nat) {
    match sale.phase
    case Racing => Unresolved(events, i) && !WasStored(events, i)
    case Background => Unresolved(events, i) && !WasStored(events, i)
    case Applying(_, verdict, _) =>
      && Enriched(i, verdict) in events && !WasStored(events, i)
      && (Enriched(i, Blocked) in events ==> verdict == Blocked) && (Enriched(i, Clean) in events ==> verdict == Clean)
    case Finished =>
      && (trace == [Frame, Meta] <==> Stored(i, true) in events && Enriched(i, Clean) in events)
      && (trace == [Frame, Remove] <==> Stored(i, true) in events && Enriched(i, Blocked) in events && trace != [])
      && !(Enriched(i, Clean) in events && Enriched(i, Blocked) in events)
  }

  ghost predicate Unresolved(events: seq<Event>, i: nat) {
    Enriched(i, Clean) !in events && Enriched(i, Blocked) !in events
  }

  ghost predicate WasStored(events: seq<Event>, i: nat) { Stored(i, true) in events }

  ghost predicate AllEarlier(events: seq<Event>, n: nat) {
    forall i: nat :: i >= n ==> Unresolved(events, i) && !WasStored(events, i)
  }

  lemma StepExplains(s: State, cap: nat, events: seq<Event>, e: Event, i: nat)
    requires Inv(s, cap) && Enabled(s, e) && i < |Step(s, cap, e).sales|
    requires i < |s.sales| ==> Explained(s.sales[i], Trace(s.log, i), events, i)
    requires AllEarlier(events, |s.sales|)
    ensures Explained(Step(s, cap, e).sales[i], Trace(Step(s, cap, e).log, i), events + [e], i)
  {
    hide Trace, Slots, Inv, Explained, SaleOk, AllEarlier;
    if e.Arrive? {
      TraceEmit(s, |s.sales|, Frame, i);
      if i < |s.sales| {
        OtherExplained(s.sales[i], Trace(s.log, i), events, e, i);
        assert Step(s, cap, e).sales[i] == s.sales[i] && Trace(Step(s, cap, e).log, i) == Trace(s.log, i);
      } else {
        ArrivalExplained(s, cap, events, e);
        assert i == |s.sales|;
      }
    } else {
      SaleAt(s, cap, e.i);
      forall kind ensures Trace(Emit(s, e.i, kind).log, i) == Trace(s.log, i) + if e.i == i then [kind] else [] {
        TraceEmit(s, e.i, kind, i);
      }
      if i == e.i {
        OwnExplained(s, cap, events, e);
      } else {
        OtherExplained(s.sales[i], Trace(s.log, i), events, e, i);
        var s' := Step(s, cap, e);
        assert s'.sales[i] == s.sales[i];
        assert exists kind :: s'.log == s.log || s'.log == Emit(s, e.i, kind).log;
        assert Trace(s'.log, i) == Trace(s.log, i);
      }
    }
  }

  lemma OtherExplained(sale: Sale, trace: seq<Kind>, events: seq<Event>, e: Event, i: nat)
    requires Explained(sale, trace, events, i) && (e.Arrive? || e.i != i)
    ensures Explained(sale, trace, events + [e], i)
  {
    Recorded(events, e);
  }

  lemma ArrivalExplained(s: State, cap: nat, events: seq<Event>, e: Event)
    requires Inv(s, cap) && e.Arrive? && AllEarlier(events, |s.sales|)
    ensures Explained(Step(s, cap, e).sales[|s.sales|], Trace(Step(s, cap, e).log, |s.sales|), events + [e], |s.sales|)
  {
    hide Trace, Slots, Inv;
    assert Unresolved(events, |s.sales|) && !WasStored(events, |s.sales|);
    Recorded(events, e);
    TraceEmit(s, |s.sales|, Frame, |s.sales|);
    BlankAt(s, cap);
  }

  lemma OwnExplained(s: State, cap: nat, events: seq<Event>, e: Event)
    requires Enabled(s, e) && !e.Arrive? && SaleOk(s.sales[e.i], Trace(s.log, e.i))
    requires Explained(s.sales[e.i], Trace(s.log, e.i), events, e.i)
    requires forall kind :: Trace(Emit(s, e.i, kind).log, e.i) == Trace(s.log, e.i) + [kind]
    ensures Explained(Step(s, cap, e).sales[e.i], Trace(Step(s, cap, e).log, e.i), events + [e], e.i)
  {
    hide Trace;
    Recorded(events, e);
    var s', sale := Step(s, cap, e), s.sales[e.i];
    match e
    case Enriched(i, verdict) =>
      if sale.phase.Racing? && verdict != Blocked { assert s'.log == Emit(s, i, Frame).log; }
    case EnrichFailed(i) =>
      if sale.phase.Racing? { assert s'.log == Emit(s, i, Frame).log; }
    case TimedOut(i) => assert s'.log == Emit(s, i, Frame).log;
    case Stored(i, ok) =>
      assert [Frame] + [Meta] == [Frame, Meta] && [Frame] + [Remove] == [Frame, Remove];
      assert |[Frame, Meta]| == 2 && |[Frame, Remove]| == 2 && [Frame, Meta][1] != [Frame, Remove][1];
      if ok && sale.phase.verdict.Clean? { assert s'.log == Emit(s, i, Meta).log; }
      if ok && sale.phase.verdict.Blocked? && sale.phase.emitted { assert s'.log == Emit(s, i, Remove).log; }
    case Settled(i) =>
  }

  lemma Recorded(events: seq<Event>, e: Event)
    ensures forall x :: x in events + [e] <==> x in events || x == e
  {
  }

  lemma BlankAt(s: State, cap: nat)
    requires Inv(s, cap)
    ensures Trace(s.log, |s.sales|) == []
  {
  }

  lemma StepEarlier(s: State, cap: nat, events: seq<Event>, e: Event)
    requires Enabled(s, e) && AllEarlier(events, |s.sales|)
    ensures |s.sales| <= |Step(s, cap, e).sales| && AllEarlier(events + [e], |Step(s, cap, e).sales|)
  {
    Recorded(events, e);
    forall i: nat | i >= |Step(s, cap, e).sales| ensures Unresolved(events + [e], i) && !WasStored(events + [e], i) {
      assert Unresolved(events, i) && !WasStored(events, i);
    }
  }

  lemma {:induction false} RunExplains(cap: nat, events: seq<Event>, i: nat)
    requires Possible(cap, events)
    ensures AllEarlier(events, |Run(cap, events).sales|)
    ensures i < |Run(cap, events).sales| ==>
              Explained(Run(cap, events).sales[i], Trace(Run(cap, events).log, i), events, i)
    decreases |events|
  {
    if |events| > 0 {
      hide Trace, Step, Enabled, Explained, AllEarlier, Inv;
      var before, e := events[..|events| - 1], events[|events| - 1];
      assert before + [e] == events;
      RunExplains(cap, before, i);
      EmitProtocol(cap, before);
      StepEarlier(Run(cap, before), cap, before, e);
      if i < |Run(cap, events).sales| { StepExplains(Run(cap, before), cap, before, e, i); }
    }
  }

  /** A finished sale was patched if and only if it was enriched clean and stored, and removed
      if and only if it was found blocked after its frame and its row was deleted; it is never
      enriched both ways. */
  lemma PatchedExactly(cap: nat, events: seq<Event>, i: nat)
    requires Possible(cap, events) && i < |Run(cap, events).sales| && Run(cap, events).sales[i].phase.Finished?
    ensures var trace := Trace(Run(cap, events).log, i);
            && (trace == [Frame, Meta] <==> Stored(i, true) in events && Enriched(i, Clean) in events)
            && (trace == [Frame, Remove] <==>
                  Stored(i, true) in events && Enriched(i, Blocked) in events && !LostToBlacklist(cap, events, i))
            && !(Enriched(i, Clean) in events && Enriched(i, Blocked) in events)
  {
    RunExplains(cap, events, i);
    SuppressedExactly(cap, events, i);
  }

  // ---- The callbacks, on the shared counter and the bus ------------------------------------

  lemma EnrichedIs(s: State, cap: nat, i: nat, verdict: Blacklist)
    requires Enabled(s, Enriched(i, verdict))
    ensures Step(s, cap, Enriched(i, verdict)) == EnrichedStep(s, i, verdict)
  {
    hide EnrichedStep;
  }

  class SaleEmitter {
    const cap: nat
    var sales: seq<Sale>
    var deferInflight: int
    var log: seq<Emission>

    function View(): State
      reads this
    {
      State(sales, deferInflight, log)
    }

    constructor (cap: nat)
      ensures View() == START && this.cap == cap && Inv(View(), cap)
    {
      this.cap, sales, deferInflight, log := cap, [], 0, [];
      new;
      EmitProtocol(cap, []);
    }

    method EmitSale(i: nat, kind: Kind)
      modifies this`log
      ensures log == old(log) + [Emission(i, kind)]
    {
      log := log + [Emission(i, kind)];
    }

    method Insert(hasMint: bool, needsDeferral: bool) returns (i: nat)
      requires Inv(View(), cap)
      modifies this
      ensures Inv(View(), cap) && View() == Step(old(View()), cap, Arrive(hasMint, needsDeferral))
      ensures i == |old(sales)| && |sales| == i + 1 && sales[..i] == old(sales)
      ensures var deferred := hasMint && needsDeferral && old(deferInflight) < cap;
              && sales[i] == Sale(if deferred then Racing else if hasMint then Background else Finished, deferred, 0)
              && log == old(log) + (if deferred then [] else [Emission(i, Frame)])
              && deferInflight == old(deferInflight) + if deferred then 1 else 0
    {
      StepKeepsInv(View(), cap, Arrive(hasMint, needsDeferral));
      hide Inv;
      i := |sales|;
      if !hasMint {
        EmitSale(i, Frame);
        sales := sales + [Sale(Finished, false, 0)];
        return;
      }
      if !needsDeferral || deferInflight >= cap {
        EmitSale(i, Frame);
        sales := sales + [Sale(Background, false, 0)];
        return;
      }
      deferInflight := deferInflight + 1;
      sales := sales + [Sale(Racing, true, 0)];
    }

    /** The enrichment resolves, in the race or behind an emitted frame. */
    method OnEnriched(i: nat, verdict: Blacklist)
      requires Inv(View(), cap) && Enabled(View(), Enriched(i, verdict))
      modifies this
      ensures Inv(View(), cap) && View() == Step(old(View()), cap, Enriched(i, verdict))
      ensures deferInflight == old(deferInflight) && i < |sales| && sales == old(sales)[i := sales[i]]
      ensures var was, racing := old(sales)[i], old(sales)[i].phase.Racing?;
              && sales[i].slot == was.slot && sales[i].applied == was.applied + (if racing && verdict == Threw then 0 else 1)
              && sales[i].phase == (if verdict != Threw then Applying(!racing || verdict == Clean, verdict, racing)
                                    else if racing then Background else Finished)
              && log == old(log) + (if racing && verdict != Blocked then [Emission(i, Frame)] else [])
    {
      StepKeepsInv(View(), cap, Enriched(i, verdict));
      EnrichedIs(View(), cap, i, verdict);
      hide Inv, Step;
      var sale := sales[i];
      if sale.phase.Racing? {
        if verdict == Blocked {
          sale := sale.(phase := Applying(false, Blocked, true), applied := sale.applied + 1);
        } else {
          EmitSale(i, Frame);
          if verdict == Clean {
            sale := sale.(phase := Applying(true, Clean, true), applied := sale.applied + 1);
          } else {
            sale := sale.(phase := Background);
          }
        }
      } else {
        sale := sale.(phase := if verdict == Threw then Finished else Applying(true, verdict, false),
                      applied := sale.applied + 1);
      }
      sales := sales[i := sale];
    }

    method OnEnrichFailed(i: nat)
      requires Inv(View(), cap) && Enabled(View(), EnrichFailed(i))
      modifies this
      ensures Inv(View(), cap) && View() == Step(old(View()), cap, EnrichFailed(i))
      ensures deferInflight == old(deferInflight) && sales == old(sales)[i := old(sales)[i].(phase := Finished)]
      ensures log == old(log) + if old(sales)[i].phase.Racing? then [Emission(i, Frame)] else []
    {
      StepKeepsInv(View(), cap, EnrichFailed(i));
      hide Inv;
      if sales[i].phase.Racing? { EmitSale(i, Frame); }
      sales := sales[i := sales[i].(phase := Finished)];
    }

    method OnTimeout(i: nat)
      requires Inv(View(), cap) && Enabled(View(), TimedOut(i))
      modifies this
      ensures Inv(View(), cap) && View() == Step(old(View()), cap, TimedOut(i))
      ensures deferInflight == old(deferInflight) && sales == old(sales)[i := old(sales)[i].(phase := Background)]
      ensures log == old(log) + [Emission(i, Frame)]
    {
      StepKeepsInv(View(), cap, TimedOut(i));
      hide Inv;
      EmitSale(i, Frame);
      sales := sales[i := sales[i].(phase := Background)];
    }

    /** The DELETE or UPDATE of an application has ended. */
    method OnStored(i: nat, ok: bool)
      requires Inv(View(), cap) && Enabled(View(), Stored(i, ok))
      modifies this
      ensures Inv(View(), cap) && View() == Step(old(View()), cap, Stored(i, ok))
      ensures deferInflight == old(deferInflight) && sales == old(sales)[i := old(sales)[i].(phase := Finished)]
      ensures var phase := old(sales)[i].phase;
              log == old(log) + (if ok && phase.verdict == Clean then [Emission(i, Meta)]
                                 else if ok && phase.emitted then [Emission(i, Remove)] else [])
    {
      StepKeepsInv(View(), cap, Stored(i, ok));
      hide Inv;
      var phase := sales[i].phase;
      if ok {
        if phase.verdict.Clean? {
          EmitSale(i, Meta);
        } else if phase.emitted {
          EmitSale(i, Remove);
        }
      }
      sales := sales[i := sales[i].(phase := Finished)];
    }

    /** The `finally` of the race. */
    method OnSettled(i: nat)
      requires Inv(View(), cap) && Enabled(View(), Settled(i))
      modifies this
      ensures Inv(View(), cap) && View() == Step(old(View()), cap, Settled(i)) && log == old(log)
      ensures deferInflight == old(deferInflight) - 1 && sales == old(sales)[i := old(sales)[i].(slot := false)]
    {
      StepKeepsInv(View(), cap, Settled(i));
      hide Inv;
      sales := sales[i := sales[i].(slot := false)];
      deferInflight := deferInflight - 1;
    }
  }
}
