/** Recording the first listing of a mint (src/analytics/mint-lifecycle.ts): concurrent
    calls in any number of processes, each with its own cache, over one database row. A
    process that restarts is a new process. An invalid observation is `None`. */
module FirstListed {
  import opened Options

  datatype Quality = Exact | Approximate | Unknown
  datatype Row = Row(time: int, quality: Quality)

  datatype Phase =
    | Ignored                          // not a valid observation
    | Skipped                          // the cache already held one at least as early
    | Writing(known: Option<real>)     // upsert sent
    | Written(known: Option<real>)     // upsert committed, cache not yet updated
    | Recorded
    | Failed

  datatype Call = Call(process: nat, listedAt: Option<real>, quality: Quality, phase: Phase) {
    function Time(): real { if listedAt.Some? then listedAt.value else 0.0 }
  }

  /** One mint: its row, each process's cached best, and every call so far. */
  datatype State = State(row: Option<Row>, recordedBest: map<nat, real>, calls: seq<Call>)

  const INITIAL: State := State(None, map[], [])

  function Round(x: real): int { (x + 0.5).Floor }

  function Earlier(known: Option<real>, x: real): real {
    if known.Some? && known.value < x then known.value else x
  }

  /** INSERT ... ON CONFLICT DO UPDATE with LEAST: one atomic statement. */
  function Upsert(row: Option<Row>, time: int, quality: Quality): Row {
    match row
    case None => Row(time, quality)
    case Some(r) => Row(if time < r.time then time else r.time, if time <= r.time then quality else r.quality)
  }

  datatype Event =
    | Observe(process: nat, listedAt: Option<real>, quality: Quality)
    | Commit(call: nat)
    | WriteFails(call: nat)
    | Remember(call: nat)

  predicate Enabled(s: State, e: Event) {
    match e
    case Observe(_, _, _) => true
    case Commit(c) => c < |s.calls| && s.calls[c].phase.Writing?
    case WriteFails(c) => c < |s.calls| && s.calls[c].phase.Writing?
    case Remember(c) => c < |s.calls| && s.calls[c].phase.Written?
  }

  function PhaseOf(s: State, process: nat, listedAt: Option<real>): Phase {
    if listedAt.None? || listedAt.value <= 0.0 then Ignored
    else if process in s.recordedBest && listedAt.value >= s.recordedBest[process] then Skipped
    else Writing(if process in s.recordedBest then Some(s.recordedBest[process]) else None)
  }

  function SetPhase(s: State, c: nat, phase: Phase): State
    requires c < |s.calls|
  {
    s.(calls := s.calls[c := s.calls[c].(phase := phase)])
  }

  function Step(s: State, e: Event): State
    requires Enabled(s, e)
  {
    match e
    case Observe(p, listedAt, q) => s.(calls := s.calls + [Call(p, listedAt, q, PhaseOf(s, p, listedAt))])
    case Commit(c) =>
      var call := s.calls[c];
      SetPhase(s, c, Written(call.phase.known)).(row := Some(Upsert(s.row, Round(call.Time()), call.quality)))
    case WriteFails(c) => SetPhase(s, c, Failed)
    case Remember(c) =>
      var call := s.calls[c];
      var best := Earlier(call.phase.known, call.Time());
      SetPhase(s, c, Recorded).(recordedBest := s.recordedBest[call.process := best])
  }

  // ---- The invariant --------------------------------------------------------------------

  ghost predicate ReachedDb(c: Call) { c.phase.Written? || c.phase.Recorded? }

  /** The stored time is no later than x, rounded. */
  ghost predicate Covers(row: Option<Row>, x: real) { row.Some? && row.value.time <= Round(x) }

  ghost predicate Attains(c: Call, row: Row) {
    c.listedAt.Some? && ReachedDb(c) && Round(c.Time()) == row.time && c.quality == row.quality
  }

  ghost predicate CallSound(row: Option<Row>, c: Call) {
    && (c.phase.Ignored? <==> c.listedAt.None? || c.Time() <= 0.0)
    && (ReachedDb(c) || c.phase.Skipped? ==> Covers(row, c.Time()))
    && (c.phase.Writing? || c.phase.Written? ==> c.phase.known.Some? ==> Covers(row, c.phase.known.value))
  }

  ghost predicate Inv(s: State) {
    && (forall c :: 0 <= c < |s.calls| ==> CallSound(s.row, s.calls[c]))
    && (forall p :: p in s.recordedBest ==> Covers(s.row, s.recordedBest[p]))
    && (s.row.Some? ==> exists c :: 0 <= c < |s.calls| && Attains(s.calls[c], s.row.value))
  }

  lemma RoundMonotone(x: real, y: real)
    requires x <= y
    ensures Round(x) <= Round(y)
  {
  }

  lemma StepKeepsInv(s: State, e: Event)
    requires Inv(s) && Enabled(s, e)
    ensures Inv(Step(s, e))
    ensures s.row.Some? ==> Step(s, e).row.Some? && Step(s, e).row.value.time <= s.row.value.time
  {
    var t := Step(s, e);
    match e
    case Observe(p, listedAt, q) =>
      if PhaseOf(s, p, listedAt).Skipped? { RoundMonotone(s.recordedBest[p], listedAt.value); }
      KeepAttaining(s, t);
    case Commit(c) => CommitKeepsInv(s, c);
    case WriteFails(c) => KeepAttaining(s, t);
    case Remember(c) =>
      assert CallSound(s.row, s.calls[c]);
      KeepAttaining(s, t);
      forall d | 0 <= d < |t.calls| ensures CallSound(t.row, t.calls[d]) { assert CallSound(s.row, s.calls[d]); }
  }

  lemma CommitKeepsInv(s: State, c: nat)
    requires Inv(s) && Enabled(s, Commit(c))
    ensures var t := Step(s, Commit(c));
            Inv(t) && t.row.Some? && (s.row.Some? ==> t.row.value.time <= s.row.value.time)
  {
    hide Round;
    var t, call := Step(s, Commit(c)), s.calls[c];
    assert t.row == Some(Upsert(s.row, Round(call.Time()), call.quality));
    if s.row.Some? && s.row.value.time < Round(call.Time()) {
      KeepAttaining(s, t);
    } else {
      assert Attains(t.calls[c], t.row.value);
    }
    forall d | 0 <= d < |t.calls| ensures CallSound(t.row, t.calls[d]) { assert CallSound(s.row, s.calls[d]); }
  }

  lemma KeepAttaining(s: State, t: State)
    requires t.row == s.row && |t.calls| >= |s.calls|
    requires s.row.Some? ==> exists c :: 0 <= c < |s.calls| && Attains(s.calls[c], s.row.value)
    requires forall c :: 0 <= c < |s.calls| && ReachedDb(s.calls[c]) ==>
               t.calls[c].(phase := Recorded) == s.calls[c].(phase := Recorded) && ReachedDb(t.calls[c])
    ensures t.row.Some? ==> exists c :: 0 <= c < |t.calls| && Attains(t.calls[c], t.row.value)
  {
    if s.row.Some? {
      var c :| 0 <= c < |s.calls| && Attains(s.calls[c], s.row.value);
      assert Attains(t.calls[c], t.row.value);
    }
  }

  // ---- Runs -----------------------------------------------------------------------------

  ghost predicate IsRun(s: State, events: seq<Event>, final: State)
    decreases |events|
  {
    if |events| == 0 then s == final
    else Enabled(s, events[0]) && IsRun(Step(s, events[0]), events[1..], final)
  }

  lemma {:induction false} RunKeepsInv(s: State, events: seq<Event>, final: State)
    requires Inv(s) && IsRun(s, events, final)
    ensures Inv(final)
    ensures s.row.Some? ==> final.row.Some? && final.row.value.time <= s.row.value.time
    decreases |events|
  {
    if |events| > 0 {
      StepKeepsInv(s, events[0]);
      RunKeepsInv(Step(s, events[0]), events[1..], final);
    }
  }

  ghost predicate IsValid(c: Call) { c.listedAt.Some? && c.Time() > 0.0 }

  ghost predicate Settled(c: Call) { c.phase.Ignored? || c.phase.Skipped? || c.phase.Recorded? }

  /** However calls interleave, once all have ended with no failed write the row holds the
      minimum of every valid observation, and the quality of one that attains it. A call
      that was skipped has lost nothing. */
  lemma Converges(events: seq<Event>, s: State)
    requires IsRun(INITIAL, events, s) && forall c :: 0 <= c < |s.calls| ==> Settled(s.calls[c])
    ensures s.row.None? <==> forall c :: 0 <= c < |s.calls| ==> !IsValid(s.calls[c])
    ensures s.row.Some? ==>
              && (forall c :: 0 <= c < |s.calls| && IsValid(s.calls[c]) ==>
                    s.row.value.time <= Round(s.calls[c].Time()))
              && (exists c :: 0 <= c < |s.calls| && IsValid(s.calls[c])
                    && s.row.value == Row(Round(s.calls[c].Time()), s.calls[c].quality))
  {
    RunKeepsInv(INITIAL, events, s);
    forall c | 0 <= c < |s.calls| && IsValid(s.calls[c]) ensures Covers(s.row, s.calls[c].Time()) {
      assert CallSound(s.row, s.calls[c]);
    }
    if s.row.Some? {
      var c :| 0 <= c < |s.calls| && Attains(s.calls[c], s.row.value);
      assert CallSound(s.row, s.calls[c]);
    }
  }

  /** At any moment, even with failed writes, the row is the minimum of what was committed
      and no skipped observation is earlier. */
  lemma NothingSkippedIsEarlier(events: seq<Event>, s: State, c: nat)
    requires IsRun(INITIAL, events, s) && c < |s.calls| && (s.calls[c].phase.Skipped? || ReachedDb(s.calls[c]))
    ensures s.calls[c].listedAt.Some? && Covers(s.row, s.calls[c].Time())
  {
    RunKeepsInv(INITIAL, events, s);
    assert CallSound(s.row, s.calls[c]);
  }

  /** Two overlapping calls of one process can move its cached value later: the row keeps
      the minimum, the cache does not. */
  lemma CacheMayMoveLater() returns (events: seq<Event>, s: State)
    ensures IsRun(INITIAL, events, s)
    ensures s.recordedBest == map[0 := 20.0] && s.row == Some(Row(10, Exact))
  {
    var a, b := Observe(0, Some(10.0), Exact), Observe(0, Some(20.0), Exact);
    var c, d := Call(0, Some(10.0), Exact, Writing(None)), Call(0, Some(20.0), Exact, Writing(None));
    var c', d' := c.(phase := Written(None)), d.(phase := Written(None));
    var row := Some(Row(10, Exact));
    var s1, s2 := State(None, map[], [c]), State(None, map[], [c, d]);
    var s3, s4 := State(row, map[], [c', d]), State(row, map[], [c', d']);
    var s5 := State(row, map[0 := 10.0], [c'.(phase := Recorded), d']);
    s := State(row, map[0 := 20.0], [c'.(phase := Recorded), d'.(phase := Recorded)]);
    assert Step(INITIAL, a) == s1;
    assert Step(s1, b) == s2;
    assert Step(s2, Commit(0)) == s3;
    assert Step(s3, Commit(1)) == s4;
    assert Step(s4, Remember(0)) == s5;
    assert Step(s5, Remember(1)) == s;
    hide IsRun, Step;
    events := [];
    NoRun(s);
    events := Prepend(s5, Remember(1), events, s);
    events := Prepend(s4, Remember(0), events, s);
    events := Prepend(s3, Commit(1), events, s);
    events := Prepend(s2, Commit(0), events, s);
    events := Prepend(s1, b, events, s);
    events := Prepend(INITIAL, a, events, s);
  }

  lemma NoRun(s: State)
    ensures IsRun(s, [], s)
  {
  }

  lemma Prepend(s: State, e: Event, events: seq<Event>, final: State) returns (longer: seq<Event>)
    requires Enabled(s, e) && IsRun(Step(s, e), events, final)
    ensures IsRun(s, longer, final)
  {
    longer := [e] + events;
    assert longer[1..] == events;
  }

  // ---- Which observation the row is -----------------------------------------------------

  /** The nearest integer, the greater one when two are as near. */
  lemma RoundExactly(x: real, n: int)
    ensures n == Round(x) <==> -0.5 < n as real - x <= 0.5
  {
  }

  /** What a step commits. */
  ghost function Committed(s: State, e: Event): seq<Row>
    requires Enabled(s, e)
  {
    if e.Commit? then [Row(Round(s.calls[e.call].Time()), s.calls[e.call].quality)] else []
  }

  /** The committed observations of a run, in the order of their statements. */
  ghost function Commits(s: State, events: seq<Event>): seq<Row>
    decreases |events|
  {
    if |events| == 0 || !Enabled(s, events[0]) then []
    else
      Committed(s, events[0]) + Commits(Step(s, events[0]), events[1..])
  }

  /** The last one of the earliest. */
  ghost predicate LastEarliest(rows: seq<Row>, i: nat) {
    && i < |rows|
    && forall j :: 0 <= j < |rows| ==> rows[i].time <= rows[j].time && (j > i ==> rows[i].time < rows[j].time)
  }

  ghost predicate Holds(row: Option<Row>, rows: seq<Row>) {
    if |rows| == 0 then row.None? else row.Some? && exists i: nat :: LastEarliest(rows, i) && rows[i] == row.value
  }

  lemma UpsertHolds(row: Option<Row>, rows: seq<Row>, time: int, quality: Quality)
    requires Holds(row, rows)
    ensures Holds(Some(Upsert(row, time, quality)), rows + [Row(time, quality)])
  {
    var all := rows + [Row(time, quality)];
    if |rows| == 0 || time <= row.value.time {
      assert LastEarliest(all, |rows|);
    } else {
      var i: nat :| LastEarliest(rows, i) && rows[i] == row.value;
      assert LastEarliest(all, i) && all[i] == rows[i];
    }
  }

  lemma {:induction false} RunHolds(s: State, events: seq<Event>, final: State, past: seq<Row>)
    requires IsRun(s, events, final) && Holds(s.row, past)
    ensures Holds(final.row, past + Commits(s, events))
    decreases |events|
  {
    hide *;
    if |events| == 0 {
      NoneCommitted(s, events, final);
      assert past + [] == past;
    } else {
      RunNext(s, events, final);
      StepRow(s, events[0], past);
      RunHolds(Step(s, events[0]), events[1..], final, past + Committed(s, events[0]));
      assert past + (Committed(s, events[0]) + Commits(Step(s, events[0]), events[1..]))
          == past + Committed(s, events[0]) + Commits(Step(s, events[0]), events[1..]);
    }
  }

  lemma NoneCommitted(s: State, events: seq<Event>, final: State)
    requires IsRun(s, events, final) && |events| == 0
    ensures final == s && Commits(s, events) == []
  {
  }

  lemma RunNext(s: State, events: seq<Event>, final: State)
    requires IsRun(s, events, final) && |events| > 0
    ensures Enabled(s, events[0]) && IsRun(Step(s, events[0]), events[1..], final)
    ensures Commits(s, events) == Committed(s, events[0]) + Commits(Step(s, events[0]), events[1..])
  {
    hide Step, Enabled, Committed;
  }

  lemma StepRow(s: State, e: Event, past: seq<Row>)
    requires Enabled(s, e) && Holds(s.row, past)
    ensures Holds(Step(s, e).row, past + Committed(s, e))
  {
    hide Round, Holds;
    if e.Commit? {
      UpsertHolds(s.row, past, Round(s.calls[e.call].Time()), s.calls[e.call].quality);
    } else {
      assert past + [] == past;
    }
  }

  /** At the end of any run the row is the last committed of the earliest observations, with its
      quality, and there is none when nothing was committed. */
  lemma RowIsLastEarliest(events: seq<Event>, s: State)
    requires IsRun(INITIAL, events, s)
    ensures Holds(s.row, Commits(INITIAL, events))
  {
    RunHolds(INITIAL, events, s, []);
    assert [] + Commits(INITIAL, events) == Commits(INITIAL, events);
  }

  // ---- The row and the caches, updated in place -------------------------------------------

  class FirstListedStore {
    var row: Option<Row>
    var recordedBest: map<nat, real>
    var calls: seq<Call>

    function View(): State
      reads this
    {
      State(row, recordedBest, calls)
    }

    constructor ()
      ensures View() == INITIAL && Inv(View())
    {
      row, recordedBest, calls := None, map[], [];
    }

    /** A call up to its statement. */
    method Arrive(process: nat, listedAt: Option<real>, quality: Quality) returns (c: nat)
      requires Inv(View())
      modifies this
      ensures Inv(View()) && View() == Step(old(View()), Observe(process, listedAt, quality))
      ensures c == |old(calls)| && row == old(row) && recordedBest == old(recordedBest)
      ensures calls == old(calls) + [calls[c]] && calls[c] == Call(process, listedAt, quality, calls[c].phase)
      ensures var valid := listedAt.Some? && listedAt.value > 0.0;
              && (calls[c].phase.Ignored? <==> !valid)
              && (calls[c].phase.Skipped? <==> valid && process in recordedBest && recordedBest[process] <= listedAt.value)
              && (valid && process !in recordedBest ==> calls[c].phase == Writing(None))
              && (valid && process in recordedBest && listedAt.value < recordedBest[process] ==>
                    calls[c].phase == Writing(Some(recordedBest[process])))
    {
      StepKeepsInv(View(), Observe(process, listedAt, quality));
      c := |calls|;
      var phase := Ignored;
      if listedAt.Some? && listedAt.value > 0.0 {
        var known := if process in recordedBest then Some(recordedBest[process]) else None;
        if known.Some? && listedAt.value >= known.value {
          phase := Skipped;
        } else {
          phase := Writing(known);
        }
      }
      calls := calls + [Call(process, listedAt, quality, phase)];
    }

    /** The upsert, as the database applies it. */
    method Upserted(c: nat)
      requires Inv(View()) && Enabled(View(), Commit(c))
      modifies this
      ensures Inv(View()) && View() == Step(old(View()), Commit(c)) && recordedBest == old(recordedBest)
      ensures var time, quality := Round(old(calls)[c].Time()), old(calls)[c].quality;
              row == if old(row).Some? && old(row).value.time < time then old(row) else Some(Row(time, quality))
    {
      StepKeepsInv(View(), Commit(c));
      var time, quality := Round(calls[c].Time()), calls[c].quality;
      if row.None? {
        row := Some(Row(time, quality));
      } else if time < row.value.time {
        row := Some(Row(time, quality));
      } else if time == row.value.time {
        row := Some(row.value.(quality := quality));
      }
      calls := calls[c := calls[c].(phase := Written(calls[c].phase.known))];
    }

    /** The write of the cache after the statement. */
    method RememberBest(c: nat)
      requires Inv(View()) && Enabled(View(), Remember(c))
      modifies this
      ensures Inv(View()) && View() == Step(old(View()), Remember(c)) && row == old(row)
      ensures var call := old(calls)[c];
              && recordedBest.Keys == old(recordedBest).Keys + {call.process}
              && recordedBest[call.process] <= call.Time()
              && (call.phase.known.Some? ==> recordedBest[call.process] <= call.phase.known.value)
              && (recordedBest[call.process] == call.Time() || Some(recordedBest[call.process]) == call.phase.known)
    {
      StepKeepsInv(View(), Remember(c));
      var known, time := calls[c].phase.known, calls[c].Time();
      if known.Some? && known.value < time { time := known.value; }
      recordedBest := recordedBest[calls[c].process := time];
      calls := calls[c := calls[c].(phase := Recorded)];
    }
  }
}
