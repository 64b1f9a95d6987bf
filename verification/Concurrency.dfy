/** The priority concurrency limiter (src/ingestion/concurrency.ts). Every synchronous
    stretch of the original is one event; a run is any sequence of events. The clock is
    assumed monotone. */
module Concurrency {
  import opened Options

  datatype Priority = High | Medium | Low

  /** A queued promise; `id` stands for its identity. */
  datatype Task = Task(id: nat, enqueuedAt: int)

  datatype Queues = Queues(high: seq<Task>, medium: seq<Task>, low: seq<Task>) {
    function Of(p: Priority): seq<Task> {
      match p case High => high case Medium => medium case Low => low
    }

    function With(p: Priority, q: seq<Task>): Queues {
      match p
      case High => this.(high := q)
      case Medium => this.(medium := q)
      case Low => this.(low := q)
    }

    function Depth(): nat { |high| + |medium| + |low| }

    function HighestNonEmpty(): Option<Priority> {
      if |high| > 0 then Some(High)
      else if |medium| > 0 then Some(Medium)
      else if |low| > 0 then Some(Low)
      else None
    }
  }

  /** How a promise settled: with its function's outcome, or with null and why. */
  datatype Verdict = Finished | GateClosed | Stale | Aborted

  /** In a slot, a task runs its function or waits out the delay after a closed gate. */
  datatype Place = Queued | InSlot(invoked: bool) | Settled(verdict: Verdict)

  datatype Job = Job(priority: Priority, submittedAt: int, place: Place)

  /** `jobs` is the history of all submissions, indexed by task id. */
  datatype State = State(max: nat, delayMs: nat, staleLowMs: nat, running: int, dropped: nat,
                         queues: Queues, jobs: seq<Job>)

  // ---- The steps ------------------------------------------------------------------------

  ghost function Move(jobs: seq<Job>, id: nat, place: Place): seq<Job> {
    if id < |jobs| then jobs[id := jobs[id].(place := place)] else jobs
  }

  /** Takes the head of a bucket out and puts its task in `place`. */
  ghost function PopTo(s: State, p: Priority, place: Place): State
    requires |s.queues.Of(p)| > 0
  {
    s.(queues := s.queues.With(p, s.queues.Of(p)[1..]), jobs := Move(s.jobs, s.queues.Of(p)[0].id, place))
  }

  ghost function Submit(s: State, p: Priority, now: int, gate: bool): State {
    if !gate then s.(jobs := s.jobs + [Job(p, now, Settled(GateClosed))])
    else if s.running < s.max then
      s.(jobs := s.jobs + [Job(p, now, InSlot(true))], running := s.running + 1)
    else
      s.(jobs := s.jobs + [Job(p, now, Queued)],
         queues := s.queues.With(p, s.queues.Of(p) + [Task(|s.jobs|, now)]))
  }

  ghost function Shed(s: State, cutoff: int): (r: State)
    ensures r.queues.Depth() <= s.queues.Depth()
    decreases |s.queues.low|
  {
    if |s.queues.low| > 0 && s.queues.low[0].enqueuedAt < cutoff
    then Shed(PopTo(s, Low, Settled(Stale)).(dropped := s.dropped + 1), cutoff)
    else s
  }

  ghost function ShedStale(s: State, now: int): (r: State)
    ensures r.queues.Depth() <= s.queues.Depth()
  {
    if s.staleLowMs > 0 then Shed(s, now - s.staleLowMs) else s
  }

  /** Hands a free slot to the head of the highest non-empty bucket. At a closed gate with
      no delay the slot comes straight back, for the next task in line. */
  ghost function Dispatch(s: State, now: int, gate: bool): State
    decreases s.queues.Depth()
  {
    var t := ShedStale(s, now);
    match t.queues.HighestNonEmpty()
    case None => t
    case Some(p) =>
      if gate || s.delayMs > 0 then PopTo(t, p, InSlot(gate)).(running := t.running + 1)
      else Dispatch(PopTo(t, p, Settled(GateClosed)), now, gate)
  }

  ghost function Finish(s: State, id: nat, now: int, gate: bool): State
    requires id < |s.jobs| && s.jobs[id].place.InSlot?
  {
    var verdict := if s.jobs[id].place.invoked then Finished else GateClosed;
    Dispatch(s.(jobs := Move(s.jobs, id, Settled(verdict)), running := s.running - 1), now, gate)
  }

  ghost function Drain(s: State, p: Priority): (r: State)
    ensures r.queues == s.queues.With(p, [])
    decreases |s.queues.Of(p)|
  {
    if |s.queues.Of(p)| == 0 then s else Drain(PopTo(s, p, Settled(Aborted)), p)
  }

  ghost function AbortQueued(s: State): State {
    Drain(Drain(Drain(s, High), Medium), Low)
  }

  datatype Event =
    | Submitted(priority: Priority, now: int, gate: bool)
    | Done(id: nat, now: int, gate: bool)
    | Abort

  ghost predicate Enabled(s: State, e: Event) {
    match e
    case Submitted(_, _, _) => true
    case Done(id, _, _) => id < |s.jobs| && s.jobs[id].place.InSlot?
    case Abort => true
  }

  ghost function Step(s: State, e: Event): State
    requires Enabled(s, e)
  {
    match e
    case Submitted(p, now, gate) => Submit(s, p, now, gate)
    case Done(id, now, gate) => Finish(s, id, now, gate)
    case Abort => AbortQueued(s)
  }

  // ---- The invariant --------------------------------------------------------------------

  /** The queued tasks of one priority, in submission order. */
  ghost function Waiting(jobs: seq<Job>, p: Priority): seq<Task> {
    if |jobs| == 0 then []
    else
      var last := jobs[|jobs| - 1];
      Waiting(jobs[..|jobs| - 1], p)
      + if last.priority == p && last.place.Queued? then [Task(|jobs| - 1, last.submittedAt)] else []
  }

  ghost function Holders(jobs: seq<Job>): nat {
    if |jobs| == 0 then 0
    else Holders(jobs[..|jobs| - 1]) + if jobs[|jobs| - 1].place.InSlot? then 1 else 0
  }

  ghost function Resolved(jobs: seq<Job>): nat {
    if |jobs| == 0 then 0
    else Resolved(jobs[..|jobs| - 1]) + if jobs[|jobs| - 1].place.Settled? then 1 else 0
  }

  ghost predicate Started(j: Job) { j.place == InSlot(true) || j.place == Settled(Finished) }

  /** Everything of priority p that has started is older than what still waits. */
  ghost predicate StartedFirst(jobs: seq<Job>, p: Priority) {
    var w := Waiting(jobs, p);
    |w| > 0 ==> forall b :: 0 <= b < |jobs| && jobs[b].priority == p && Started(jobs[b]) ==> b < w[0].id
  }

  ghost predicate OnlyLowIsStale(jobs: seq<Job>) {
    forall a :: 0 <= a < |jobs| && jobs[a].place == Settled(Stale) ==> jobs[a].priority == Low
  }

  /** The queues are what the history says is waiting, and the counter what it says runs. */
  ghost predicate Mirrors(s: State) {
    s.running == Holders(s.jobs) && forall p :: s.queues.Of(p) == Waiting(s.jobs, p)
  }

  ghost predicate Consistent(s: State) {
    && s.max >= 1 && s.running <= s.max
    && Mirrors(s) && OnlyLowIsStale(s.jobs) && forall p :: StartedFirst(s.jobs, p)
  }

  /** No slot is idle while a task waits. */
  ghost predicate Valid(s: State) {
    Consistent(s) && (s.queues.Depth() > 0 ==> s.running == s.max)
  }

  // ---- Counting and queue content under one move ----------------------------------------

  lemma {:induction false} MoveElsewhere(jobs: seq<Job>, id: nat, place: Place, p: Priority)
    requires id < |jobs| && (jobs[id].priority != p || !jobs[id].place.Queued?)
    requires jobs[id].priority != p || !place.Queued?
    ensures Waiting(Move(jobs, id, place), p) == Waiting(jobs, p)
  {
    var n := |jobs| - 1;
    if id < n {
      MoveElsewhere(jobs[..n], id, place, p);
      assert Move(jobs, id, place)[..n] == Move(jobs[..n], id, place);
    } else {
      assert Move(jobs, id, place)[..n] == jobs[..n];
    }
  }

  /** The head of a bucket is the oldest queued task of its priority. */
  lemma {:induction false} HeadIsOldest(jobs: seq<Job>, p: Priority)
    ensures var w := Waiting(jobs, p);
            forall a :: 0 <= a < |jobs| && jobs[a].priority == p && jobs[a].place.Queued? ==>
              |w| > 0 && w[0].id <= a
    ensures |Waiting(jobs, p)| > 0 ==> Waiting(jobs, p)[0].id < |jobs|
  {
    if |jobs| > 0 { HeadIsOldest(jobs[..|jobs| - 1], p); }
  }

  lemma {:induction false} MoveHead(jobs: seq<Job>, id: nat, place: Place, p: Priority)
    requires |Waiting(jobs, p)| > 0 && Waiting(jobs, p)[0].id == id && !place.Queued?
    ensures id < |jobs| && Waiting(Move(jobs, id, place), p) == Waiting(jobs, p)[1..]
  {
    var n := |jobs| - 1;
    HeadIsOldest(jobs, p);
    HeadIsOldest(jobs[..n], p);
    if id < n {
      assert |Waiting(jobs[..n], p)| > 0;
      MoveHead(jobs[..n], id, place, p);
      assert Move(jobs, id, place)[..n] == Move(jobs[..n], id, place);
      assert Move(jobs, id, place)[n] == jobs[n];
    } else {
      assert Waiting(jobs[..n], p) == [];
      assert Move(jobs, id, place)[..n] == jobs[..n];
    }
  }

  lemma {:induction false} MoveCounts(jobs: seq<Job>, id: nat, place: Place)
    requires id < |jobs|
    ensures Holders(Move(jobs, id, place)) ==
            Holders(jobs) - (if jobs[id].place.InSlot? then 1 else 0) + if place.InSlot? then 1 else 0
  {
    var n := |jobs| - 1;
    if id < n {
      MoveCounts(jobs[..n], id, place);
      assert Move(jobs, id, place)[..n] == Move(jobs[..n], id, place);
    } else {
      assert Move(jobs, id, place)[..n] == jobs[..n];
    }
  }

  lemma AppendJob(jobs: seq<Job>, j: Job)
    ensures Holders(jobs + [j]) == Holders(jobs) + if j.place.InSlot? then 1 else 0
    ensures forall p :: Waiting(jobs + [j], p) ==
              Waiting(jobs, p) + if j.priority == p && j.place.Queued? then [Task(|jobs|, j.submittedAt)] else []
  {
    assert (jobs + [j])[..|jobs|] == jobs;
  }

  // ---- Every step keeps the invariant ---------------------------------------------------

  lemma {:induction false} WaitingIncreases(jobs: seq<Job>, p: Priority)
    ensures |Waiting(jobs, p)| > 1 ==> Waiting(jobs, p)[0].id < Waiting(jobs, p)[1].id
    ensures |Waiting(jobs, p)| > 0 ==> Waiting(jobs, p)[|Waiting(jobs, p)| - 1].id < |jobs|
  {
    if |jobs| > 0 { WaitingIncreases(jobs[..|jobs| - 1], p); }
  }

  lemma {:induction false} HeadIsQueued(jobs: seq<Job>, p: Priority)
    requires |Waiting(jobs, p)| > 0
    ensures var head := Waiting(jobs, p)[0];
            && head.id < |jobs| && head.enqueuedAt == jobs[head.id].submittedAt
            && jobs[head.id].priority == p && jobs[head.id].place.Queued?
  {
    if |Waiting(jobs[..|jobs| - 1], p)| > 0 { HeadIsQueued(jobs[..|jobs| - 1], p); }
  }

  lemma MoveHeadKeepsStarted(jobs: seq<Job>, p: Priority, place: Place, q: Priority)
    requires |Waiting(jobs, p)| > 0 && !place.Queued? && StartedFirst(jobs, p) && StartedFirst(jobs, q)
    ensures StartedFirst(Move(jobs, Waiting(jobs, p)[0].id, place), q)
  {
    var id := Waiting(jobs, p)[0].id;
    HeadIsQueued(jobs, p);
    if q == p {
      MoveHead(jobs, id, place, p);
      WaitingIncreases(jobs, p);
    } else {
      MoveElsewhere(jobs, id, place, q);
    }
  }

  lemma MoveHeadMirrors(s: State, p: Priority, place: Place)
    requires Mirrors(s) && |s.queues.Of(p)| > 0 && !place.Queued?
    ensures Mirrors(PopTo(s, p, place).(running := s.running + if place.InSlot? then 1 else 0))
  {
    var id := s.queues.Of(p)[0].id;
    HeadIsQueued(s.jobs, p);
    MoveHead(s.jobs, id, place, p);
    MoveCounts(s.jobs, id, place);
    var t := PopTo(s, p, place);
    forall q ensures t.queues.Of(q) == Waiting(t.jobs, q) {
      if q != p { MoveElsewhere(s.jobs, id, place, q); }
    }
  }

  /** Taking the head of a bucket out keeps consistency, given a slot if it needs one. */
  lemma PopKeeps(s: State, p: Priority, place: Place)
    requires Consistent(s) && |s.queues.Of(p)| > 0 && !place.Queued?
    requires place == Settled(Stale) ==> p == Low
    requires place.InSlot? ==> s.running < s.max
    ensures Consistent(PopTo(s, p, place).(running := s.running + if place.InSlot? then 1 else 0))
  {
    HeadIsQueued(s.jobs, p);
    MoveHeadMirrors(s, p, place);
    forall q ensures StartedFirst(PopTo(s, p, place).jobs, q) { MoveHeadKeepsStarted(s.jobs, p, place, q); }
  }

  lemma {:induction false} ShedKeeps(s: State, cutoff: int)
    requires Consistent(s)
    ensures Consistent(Shed(s, cutoff))
    ensures Shed(s, cutoff).running == s.running && Shed(s, cutoff).max == s.max
    ensures Shed(s, cutoff).delayMs == s.delayMs && Shed(s, cutoff).staleLowMs == s.staleLowMs
    decreases |s.queues.low|
  {
    if |s.queues.low| > 0 && s.queues.low[0].enqueuedAt < cutoff {
      PopKeeps(s, Low, Settled(Stale));
      ShedKeeps(PopTo(s, Low, Settled(Stale)).(dropped := s.dropped + 1), cutoff);
    }
  }

  lemma {:induction false} DispatchKeeps(s: State, now: int, gate: bool)
    requires Consistent(s) && s.running < s.max && (s.queues.Depth() > 0 ==> s.running == s.max - 1)
    ensures Valid(Dispatch(s, now, gate))
    decreases s.queues.Depth()
  {
    var t := ShedStale(s, now);
    if s.staleLowMs > 0 { ShedKeeps(s, now - s.staleLowMs); }
    match t.queues.HighestNonEmpty()
    case None =>
    case Some(p) =>
      if gate || s.delayMs > 0 {
        PopKeeps(t, p, InSlot(gate));
      } else {
        PopKeeps(t, p, Settled(GateClosed));
        DispatchKeeps(PopTo(t, p, Settled(GateClosed)), now, gate);
      }
  }

  lemma SubmitMirrors(s: State, p: Priority, now: int, gate: bool)
    requires Mirrors(s)
    ensures Mirrors(Submit(s, p, now, gate))
  {
    var j := Job(p, now, if !gate then Settled(GateClosed) else if s.running < s.max then InSlot(true) else Queued);
    AppendJob(s.jobs, j);
    hide Waiting, Holders;
    var t := Submit(s, p, now, gate);
    assert t.jobs == s.jobs + [j];
    forall q ensures t.queues.Of(q) == Waiting(t.jobs, q) {
      assert s.queues.Of(q) == Waiting(s.jobs, q);
      assert t.queues.Of(q) == s.queues.Of(q) + if q == p && j.place.Queued? then [Task(|s.jobs|, now)] else [];
    }
  }

  lemma SubmitKeeps(s: State, p: Priority, now: int, gate: bool)
    requires Valid(s)
    ensures Valid(Submit(s, p, now, gate))
  {
    hide Mirrors, StartedFirst, Waiting, Holders, OnlyLowIsStale;
    SubmitMirrors(s, p, now, gate);
    SubmitOnlyLow(s, p, now, gate);
    forall q ensures StartedFirst(Submit(s, p, now, gate).jobs, q) { SubmitKeepsStarted(s, p, now, gate, q); }
  }

  lemma SubmitOnlyLow(s: State, p: Priority, now: int, gate: bool)
    requires OnlyLowIsStale(s.jobs)
    ensures OnlyLowIsStale(Submit(s, p, now, gate).jobs)
  {
  }

  lemma SubmitKeepsStarted(s: State, p: Priority, now: int, gate: bool, q: Priority)
    requires Valid(s)
    ensures StartedFirst(Submit(s, p, now, gate).jobs, q)
  {
    var j := Job(p, now, if !gate then Settled(GateClosed) else if s.running < s.max then InSlot(true) else Queued);
    assert s.queues.Of(q) == Waiting(s.jobs, q) && StartedFirst(s.jobs, q);
    assert Started(j) ==> |s.queues.Of(p)| == 0;
    hide Waiting, Holders, StartedFirst, Mirrors, Consistent, Valid;
    AppendKeepsStarted(s.jobs, j, q);
  }

  lemma AppendKeepsStarted(jobs: seq<Job>, j: Job, p: Priority)
    requires StartedFirst(jobs, p) && (Started(j) && j.priority == p ==> |Waiting(jobs, p)| == 0)
    ensures StartedFirst(jobs + [j], p)
  {
    AppendJob(jobs, j);
  }

  lemma FinishMirrors(s: State, id: nat, verdict: Verdict)
    requires Consistent(s) && id < |s.jobs| && s.jobs[id].place.InSlot? && verdict != Stale
    requires verdict == Finished ==> s.jobs[id].place.invoked
    ensures Consistent(s.(jobs := Move(s.jobs, id, Settled(verdict)), running := s.running - 1))
  {
    MoveCounts(s.jobs, id, Settled(verdict));
    forall q ensures Waiting(Move(s.jobs, id, Settled(verdict)), q) == Waiting(s.jobs, q)
                     && StartedFirst(Move(s.jobs, id, Settled(verdict)), q) {
      MoveElsewhere(s.jobs, id, Settled(verdict), q);
      assert StartedFirst(s.jobs, q);
    }
  }

  lemma FinishKeeps(s: State, id: nat, now: int, gate: bool)
    requires Valid(s) && id < |s.jobs| && s.jobs[id].place.InSlot?
    ensures Valid(Finish(s, id, now, gate))
  {
    var verdict := if s.jobs[id].place.invoked then Finished else GateClosed;
    FinishMirrors(s, id, verdict);
    DispatchKeeps(s.(jobs := Move(s.jobs, id, Settled(verdict)), running := s.running - 1), now, gate);
  }

  lemma {:induction false} DrainKeeps(s: State, p: Priority)
    requires Consistent(s)
    ensures Consistent(Drain(s, p))
    decreases |s.queues.Of(p)|
  {
    if |s.queues.Of(p)| > 0 {
      PopKeeps(s, p, Settled(Aborted));
      DrainKeeps(PopTo(s, p, Settled(Aborted)), p);
    }
  }

  lemma StepKeepsValid(s: State, e: Event)
    requires Valid(s) && Enabled(s, e)
    ensures Valid(Step(s, e))
  {
    match e
    case Submitted(p, now, gate) => SubmitKeeps(s, p, now, gate);
    case Done(id, now, gate) => FinishKeeps(s, id, now, gate);
    case Abort =>
      DrainKeeps(s, High);
      DrainKeeps(Drain(s, High), Medium);
      DrainKeeps(Drain(Drain(s, High), Medium), Low);
  }

  ghost function Initial(max: nat, delayMs: nat, staleLowMs: nat): State {
    State(max, delayMs, staleLowMs, 0, 0, Queues([], [], []), [])
  }

  ghost predicate IsRun(s: State, events: seq<Event>, final: State)
    decreases |events|
  {
    if |events| == 0 then s == final
    else Enabled(s, events[0]) && IsRun(Step(s, events[0]), events[1..], final)
  }

  /** No started task overtook an older one of its own priority. */
  ghost predicate FirstInFirstOut(jobs: seq<Job>) {
    forall a, b :: 0 <= a < b < |jobs| && jobs[a].priority == jobs[b].priority && Started(jobs[b]) ==>
      !jobs[a].place.Queued?
  }

  /** Submissions are running, queued or settled, and nothing is lost or counted twice. */
  lemma {:induction false} Conservation(jobs: seq<Job>)
    ensures |jobs| == Holders(jobs) + Resolved(jobs)
                      + |Waiting(jobs, High)| + |Waiting(jobs, Medium)| + |Waiting(jobs, Low)|
  {
    if |jobs| > 0 { Conservation(jobs[..|jobs| - 1]); }
  }

  lemma {:induction false} RunKeepsValid(s: State, events: seq<Event>, final: State)
    requires Valid(s) && IsRun(s, events, final)
    ensures Valid(final)
    decreases |events|
  {
    if |events| > 0 {
      StepKeepsValid(s, events[0]);
      RunKeepsValid(Step(s, events[0]), events[1..], final);
    }
  }

  /** Every run with max >= 1: the slot bound, no idle slot while a task waits, every
      submission in exactly one place, first in first out within each priority, and only
      low tasks shed as stale. */
  lemma LimiterSafety(max: nat, delayMs: nat, staleLowMs: nat, events: seq<Event>, s: State)
    requires max >= 1 && IsRun(Initial(max, delayMs, staleLowMs), events, s)
    ensures s.running <= s.max && (s.queues.Depth() > 0 ==> s.running == s.max)
    ensures |s.jobs| == s.running + s.queues.Depth() + Resolved(s.jobs)
    ensures FirstInFirstOut(s.jobs) && OnlyLowIsStale(s.jobs)
  {
    RunKeepsValid(Initial(max, delayMs, staleLowMs), events, s);
    Conservation(s.jobs);
    forall a, b | 0 <= a < b < |s.jobs| && s.jobs[a].priority == s.jobs[b].priority && Started(s.jobs[b])
      ensures !s.jobs[a].place.Queued? {
      HeadIsOldest(s.jobs, s.jobs[a].priority);
      assert StartedFirst(s.jobs, s.jobs[a].priority);
    }
    assert s.queues.Of(High) == Waiting(s.jobs, High);
    assert s.queues.Of(Medium) == Waiting(s.jobs, Medium);
    assert s.queues.Of(Low) == Waiting(s.jobs, Low);
  }

  // ---- What one dispatch does -----------------------------------------------------------

  ghost predicate InTimeOrder(q: seq<Task>) {
    forall i, j :: 0 <= i < j < |q| ==> q[i].enqueuedAt <= q[j].enqueuedAt
  }

  /** Shedding settles queued low tasks older than the cutoff and nothing else; with the
      queue in time order, none of those is left behind. */
  lemma {:induction false} ShedExact(s: State, cutoff: int)
    requires Consistent(s)
    ensures ShedsOnly(s.jobs, Shed(s, cutoff).jobs, cutoff)
    ensures InTimeOrder(s.queues.low) ==>
              forall i :: 0 <= i < |Shed(s, cutoff).queues.low| ==> Shed(s, cutoff).queues.low[i].enqueuedAt >= cutoff
    decreases |s.queues.low|
  {
    if |s.queues.low| > 0 && s.queues.low[0].enqueuedAt < cutoff {
      assert s.queues.Of(Low) == Waiting(s.jobs, Low);
      HeadIsQueued(s.jobs, Low);
      PopKeeps(s, Low, Settled(Stale));
      ShedExact(PopTo(s, Low, Settled(Stale)).(dropped := s.dropped + 1), cutoff);
    }
  }

  ghost predicate ShedsOnly(earlier: seq<Job>, later: seq<Job>, cutoff: int) {
    && |later| == |earlier|
    && forall a :: 0 <= a < |earlier| ==>
         || later[a] == earlier[a]
         || (later[a] == earlier[a].(place := Settled(Stale)) && earlier[a].place.Queued?
             && earlier[a].priority == Low && earlier[a].submittedAt < cutoff)
  }

  // ---- Queues in time order, under a monotone clock -------------------------------------

  ghost predicate TimeOrdered(q: seq<Task>, clock: int) {
    InTimeOrder(q) && forall i :: 0 <= i < |q| ==> q[i].enqueuedAt <= clock
  }

  ghost predicate AllTimeOrdered(q: Queues, clock: int) {
    TimeOrdered(q.high, clock) && TimeOrdered(q.medium, clock) && TimeOrdered(q.low, clock)
  }

  lemma DropFirstKeepsTime(q: seq<Task>, clock: int)
    requires TimeOrdered(q, clock) && |q| > 0
    ensures TimeOrdered(q[1..], clock)
  {
  }

  lemma PopKeepsTime(s: State, p: Priority, place: Place, clock: int)
    requires AllTimeOrdered(s.queues, clock) && |s.queues.Of(p)| > 0
    ensures AllTimeOrdered(PopTo(s, p, place).queues, clock)
  {
    DropFirstKeepsTime(s.queues.Of(p), clock);
  }

  lemma {:induction false} ShedKeepsTime(s: State, cutoff: int, clock: int)
    requires AllTimeOrdered(s.queues, clock)
    ensures AllTimeOrdered(Shed(s, cutoff).queues, clock)
    decreases |s.queues.low|
  {
    if |s.queues.low| > 0 && s.queues.low[0].enqueuedAt < cutoff {
      PopKeepsTime(s, Low, Settled(Stale), clock);
      ShedKeepsTime(PopTo(s, Low, Settled(Stale)).(dropped := s.dropped + 1), cutoff, clock);
    }
  }

  lemma {:induction false} DispatchKeepsTime(s: State, now: int, gate: bool, clock: int)
    requires AllTimeOrdered(s.queues, clock)
    ensures AllTimeOrdered(Dispatch(s, now, gate).queues, clock)
    decreases s.queues.Depth()
  {
    var t := ShedStale(s, now);
    if s.staleLowMs > 0 { ShedKeepsTime(s, now - s.staleLowMs, clock); }
    match t.queues.HighestNonEmpty()
    case None =>
    case Some(p) =>
      var open := gate || s.delayMs > 0;
      PopKeepsTime(t, p, if open then InSlot(gate) else Settled(GateClosed), clock);
      if !open { DispatchKeepsTime(PopTo(t, p, Settled(GateClosed)), now, gate, clock); }
  }

  function TimeOf(e: Event, clock: int): int {
    match e
    case Submitted(_, now, _) => now
    case Done(_, now, _) => now
    case Abort => clock
  }

  lemma StepKeepsTimeOrder(s: State, e: Event, clock: int)
    requires AllTimeOrdered(s.queues, clock) && Enabled(s, e) && TimeOf(e, clock) >= clock
    ensures AllTimeOrdered(Step(s, e).queues, TimeOf(e, clock))
  {
    hide Dispatch, Shed, Drain, Move;
    match e
    case Submitted(_, _, _) =>
    case Done(id, now, gate) =>
      var verdict := if s.jobs[id].place.invoked then Finished else GateClosed;
      var t := s.(jobs := Move(s.jobs, id, Settled(verdict)), running := s.running - 1);
      DispatchKeepsTime(t, now, gate, now);
    case Abort =>
  }

  ghost predicate MonotoneFrom(events: seq<Event>, clock: int)
    decreases |events|
  {
    |events| == 0 || (TimeOf(events[0], clock) >= clock && MonotoneFrom(events[1..], TimeOf(events[0], clock)))
  }

  /** Under a monotone clock every bucket stays in time order, over every run. */
  lemma {:induction false} RunKeepsTimeOrder(s: State, events: seq<Event>, final: State, clock: int)
    requires AllTimeOrdered(s.queues, clock) && MonotoneFrom(events, clock) && IsRun(s, events, final)
    ensures exists c :: AllTimeOrdered(final.queues, c)
    decreases |events|
  {
    if |events| > 0 {
      StepKeepsTimeOrder(s, events[0], clock);
      RunKeepsTimeOrder(Step(s, events[0]), events[1..], final, TimeOf(events[0], clock));
    }
  }

  // ---- What one dispatch admits ---------------------------------------------------------

  /** The oldest queued task of p, with no higher priority waiting. */
  ghost predicate NextInLine(t: State, p: Priority, id: nat) {
    && |t.queues.Of(p)| > 0
    && (p == Low ==> |t.queues.medium| == 0) && (p != High ==> |t.queues.high| == 0)
    && id < |t.jobs| && t.jobs[id].priority == p && t.jobs[id].place.Queued?
    && (forall a :: 0 <= a < id && t.jobs[a].priority == p ==> !t.jobs[a].place.Queued?)
  }

  lemma HeadIsNext(t: State, p: Priority)
    requires Consistent(t) && t.queues.HighestNonEmpty() == Some(p)
    ensures NextInLine(t, p, t.queues.Of(p)[0].id)
  {
    assert t.queues.Of(p) == Waiting(t.jobs, p);
    HeadIsOldest(t.jobs, p);
    HeadIsQueued(t.jobs, p);
  }

  /** A low task that has waited longer than it may, if there is such a limit. */
  ghost predicate Overdue(j: Job, staleLowMs: nat, now: int) {
    j.priority == Low && j.place.Queued? && staleLowMs > 0 && now - j.submittedAt > staleLowMs
  }

  /** The jobs once those that are overdue have been given up. */
  ghost predicate GivenUp(earlier: seq<Job>, later: seq<Job>, staleLowMs: nat, now: int) {
    && |later| == |earlier|
    && forall a :: 0 <= a < |earlier| ==>
         later[a] == if Overdue(earlier[a], staleLowMs, now) then earlier[a].(place := Settled(Stale)) else earlier[a]
  }

  /** A queued task is in the queue of its priority. */
  lemma {:induction false} QueuedWaits(jobs: seq<Job>, a: nat, p: Priority)
    requires a < |jobs| && jobs[a].priority == p && jobs[a].place.Queued?
    ensures exists k :: 0 <= k < |Waiting(jobs, p)| && Waiting(jobs, p)[k] == Task(a, jobs[a].submittedAt)
  {
    var n := |jobs| - 1;
    var w := Waiting(jobs[..n], p);
    if a < n {
      QueuedWaits(jobs[..n], a, p);
      var k :| 0 <= k < |w| && w[k] == Task(a, jobs[..n][a].submittedAt);
      assert Waiting(jobs, p)[k] == w[k];
    } else {
      assert Waiting(jobs, p)[|w|] == Task(a, jobs[a].submittedAt);
    }
  }

  lemma NothingQueued(s: State, a: nat)
    requires Consistent(s) && a < |s.jobs| && s.jobs[a].place.Queued?
    ensures s.queues.Depth() > 0 && |s.queues.Of(s.jobs[a].priority)| > 0
  {
    QueuedWaits(s.jobs, a, s.jobs[a].priority);
    assert s.queues.Of(s.jobs[a].priority) == Waiting(s.jobs, s.jobs[a].priority);
  }

  /** Shedding at a moment gives up exactly the overdue tasks of that moment. */
  lemma ShedStaleExactly(s: State, now: int)
    requires Consistent(s) && InTimeOrder(s.queues.low)
    ensures var t := ShedStale(s, now);
            && Consistent(t) && InTimeOrder(t.queues.low) && GivenUp(s.jobs, t.jobs, s.staleLowMs, now)
            && t.running == s.running && t.max == s.max && t.delayMs == s.delayMs && t.staleLowMs == s.staleLowMs
  {
    if s.staleLowMs > 0 {
      var cutoff := now - s.staleLowMs;
      var t := Shed(s, cutoff);
      ShedKeeps(s, cutoff);
      ShedExact(s, cutoff);
      ShedKeepsOrder(s, cutoff);
      hide Shed, Consistent;
      forall a | 0 <= a < |s.jobs| && Overdue(s.jobs[a], s.staleLowMs, now)
        ensures t.jobs[a] == s.jobs[a].(place := Settled(Stale))
      {
        if t.jobs[a] == s.jobs[a] { StillWaits(t, a, cutoff); }
      }
    }
  }

  lemma StillWaits(t: State, a: nat, cutoff: int)
    requires Consistent(t) && a < |t.jobs| && t.jobs[a].place.Queued? && t.jobs[a].priority == Low
    ensures exists k :: 0 <= k < |t.queues.low| && t.queues.low[k].enqueuedAt == t.jobs[a].submittedAt
  {
    QueuedWaits(t.jobs, a, Low);
    assert t.queues.Of(Low) == Waiting(t.jobs, Low);
    var k :| 0 <= k < |t.queues.low| && t.queues.low[k] == Task(a, t.jobs[a].submittedAt);
  }

  lemma {:induction false} ShedKeepsOrder(s: State, cutoff: int)
    requires InTimeOrder(s.queues.low)
    ensures var t := Shed(s, cutoff);
            && InTimeOrder(t.queues.low) && t.max == s.max && t.delayMs == s.delayMs && t.staleLowMs == s.staleLowMs
            && t.running == s.running
    decreases |s.queues.low|
  {
    if |s.queues.low| > 0 && s.queues.low[0].enqueuedAt < cutoff {
      ShedKeepsOrder(PopTo(s, Low, Settled(Stale)).(dropped := s.dropped + 1), cutoff);
    }
  }

  /** Queued and not overdue. */
  ghost predicate Eligible(j: Job, staleLowMs: nat, now: int) { j.place.Queued? && !Overdue(j, staleLowMs, now) }

  function Rank(p: Priority): nat { match p case High => 0 case Medium => 1 case Low => 2 }

  /** The task is eligible, and so is none of a higher priority, nor an older one of its own. */
  ghost predicate FirstChoice(jobs: seq<Job>, id: nat, staleLowMs: nat, now: int) {
    && id < |jobs| && Eligible(jobs[id], staleLowMs, now)
    && forall a :: 0 <= a < |jobs| && Eligible(jobs[a], staleLowMs, now) ==>
         Rank(jobs[a].priority) > Rank(jobs[id].priority) || (jobs[a].priority == jobs[id].priority && a >= id)
  }

  /** The jobs after a dispatch that may use the slot: the overdue tasks are given up, and the
      first choice among the others, if there is one, is in a slot. */
  ghost predicate Admitted(earlier: seq<Job>, later: seq<Job>, staleLowMs: nat, now: int, gate: bool, id: nat) {
    && FirstChoice(earlier, id, staleLowMs, now) && |later| == |earlier|
    && later[id] == earlier[id].(place := InSlot(gate))
    && forall a :: 0 <= a < |earlier| && a != id ==>
         later[a] == if Overdue(earlier[a], staleLowMs, now) then earlier[a].(place := Settled(Stale)) else earlier[a]
  }

  ghost predicate NoneEligible(jobs: seq<Job>, staleLowMs: nat, now: int) {
    forall a :: 0 <= a < |jobs| ==> !Eligible(jobs[a], staleLowMs, now)
  }

  /** With the gate open, or a delay to wait out, a dispatch gives up the overdue tasks and puts
      one other in the slot and no more: the oldest of the highest priority. */
  lemma DispatchAdmits(s: State, now: int, gate: bool)
    requires Consistent(s) && InTimeOrder(s.queues.low) && (gate || s.delayMs > 0)
    ensures var r := Dispatch(s, now, gate);
            if NoneEligible(s.jobs, s.staleLowMs, now)
            then r.running == s.running && GivenUp(s.jobs, r.jobs, s.staleLowMs, now)
            else r.running == s.running + 1 && exists id: nat :: Admitted(s.jobs, r.jobs, s.staleLowMs, now, gate, id)
  {
    var t := ShedStale(s, now);
    ShedStaleExactly(s, now);
    hide ShedStale, Consistent, InTimeOrder;
    if t.queues.HighestNonEmpty().Some? {
      var p := t.queues.HighestNonEmpty().value;
      var id := t.queues.Of(p)[0].id;
      HeadIsChoice(s, t, p, now);
      assert Admitted(s.jobs, Dispatch(s, now, gate).jobs, s.staleLowMs, now, gate, id);
    } else {
      EmptyMeansNone(s, t, now);
    }
  }

  lemma EmptyMeansNone(s: State, t: State, now: int)
    requires Consistent(t) && GivenUp(s.jobs, t.jobs, s.staleLowMs, now) && t.queues.Depth() == 0
    ensures NoneEligible(s.jobs, s.staleLowMs, now)
  {
    forall a | 0 <= a < |s.jobs| ensures !Eligible(s.jobs[a], s.staleLowMs, now) {
      if Eligible(s.jobs[a], s.staleLowMs, now) { NothingQueued(t, a); }
    }
  }

  lemma HeadIsChoice(s: State, t: State, p: Priority, now: int)
    requires Consistent(t) && GivenUp(s.jobs, t.jobs, s.staleLowMs, now) && t.queues.HighestNonEmpty() == Some(p)
    ensures FirstChoice(s.jobs, t.queues.Of(p)[0].id, s.staleLowMs, now)
  {
    HeadIsNext(t, p);
    var id := t.queues.Of(p)[0].id;
    hide Consistent;
    forall a | 0 <= a < |s.jobs| && Eligible(s.jobs[a], s.staleLowMs, now)
      ensures Rank(s.jobs[a].priority) > Rank(s.jobs[id].priority) || (s.jobs[a].priority == s.jobs[id].priority && a >= id)
    {
      NothingQueued(t, a);
    }
  }

  ghost predicate StartsNothing(earlier: seq<Job>, later: seq<Job>) {
    && |later| == |earlier|
    && forall a :: 0 <= a < |earlier| ==> Started(later[a]) == Started(earlier[a])
  }

  lemma ShedStaleIsQuiet(s: State, now: int)
    requires Consistent(s)
    ensures var t := ShedStale(s, now);
            && Consistent(t) && t.running == s.running && t.max == s.max && t.delayMs == s.delayMs
            && StartsNothing(s.jobs, t.jobs) && KeepsSettled(s.jobs, t.jobs)
  {
    if s.staleLowMs > 0 {
      ShedKeeps(s, now - s.staleLowMs);
      ShedExact(s, now - s.staleLowMs);
    }
  }

  /** A closed gate with no delay empties every queue without starting anything. */
  lemma {:induction false} ClosedGateDrains(s: State, now: int)
    requires Consistent(s) && s.delayMs == 0
    ensures var r := Dispatch(s, now, false);
            r.queues.Depth() == 0 && r.running == s.running && StartsNothing(s.jobs, r.jobs)
    decreases s.queues.Depth()
  {
    ShedStaleIsQuiet(s, now);
    var t := ShedStale(s, now);
    if t.queues.HighestNonEmpty().Some? {
      var p := t.queues.HighestNonEmpty().value;
      HeadIsNext(t, p);
      PopKeeps(t, p, Settled(GateClosed));
      var u := PopTo(t, p, Settled(GateClosed));
      assert u == u.(running := t.running) && StartsNothing(t.jobs, u.jobs);
      ClosedGateDrains(u, now);
    }
  }

  // ---- Settled once ---------------------------------------------------------------------

  ghost predicate KeepsSettled(earlier: seq<Job>, later: seq<Job>) {
    && |earlier| <= |later|
    && forall a :: 0 <= a < |earlier| && earlier[a].place.Settled? ==> later[a] == earlier[a]
  }

  lemma PopKeepsSettled(s: State, p: Priority, place: Place)
    requires Consistent(s) && |s.queues.Of(p)| > 0
    ensures KeepsSettled(s.jobs, PopTo(s, p, place).jobs)
  {
    assert s.queues.Of(p) == Waiting(s.jobs, p);
    HeadIsQueued(s.jobs, p);
  }

  lemma {:induction false} DispatchKeepsSettled(s: State, now: int, gate: bool)
    requires Consistent(s) && s.running < s.max
    ensures KeepsSettled(s.jobs, Dispatch(s, now, gate).jobs)
    decreases s.queues.Depth()
  {
    ShedStaleIsQuiet(s, now);
    var t := ShedStale(s, now);
    if t.queues.HighestNonEmpty().Some? {
      var p := t.queues.HighestNonEmpty().value;
      PopKeepsSettled(t, p, if gate || s.delayMs > 0 then InSlot(gate) else Settled(GateClosed));
      if !gate && s.delayMs == 0 {
        PopKeeps(t, p, Settled(GateClosed));
        DispatchKeepsSettled(PopTo(t, p, Settled(GateClosed)), now, gate);
      }
    }
  }

  lemma {:induction false} DrainKeepsSettled(s: State, p: Priority)
    requires Consistent(s)
    ensures KeepsSettled(s.jobs, Drain(s, p).jobs)
    decreases |s.queues.Of(p)|
  {
    if |s.queues.Of(p)| > 0 {
      PopKeepsSettled(s, p, Settled(Aborted));
      PopKeeps(s, p, Settled(Aborted));
      DrainKeepsSettled(PopTo(s, p, Settled(Aborted)), p);
    }
  }

  lemma StepKeepsSettled(s: State, e: Event)
    requires Valid(s) && Enabled(s, e)
    ensures KeepsSettled(s.jobs, Step(s, e).jobs)
  {
    match e
    case Submitted(_, _, _) =>
    case Done(id, now, gate) =>
      var verdict := if s.jobs[id].place.invoked then Finished else GateClosed;
      var t := s.(jobs := Move(s.jobs, id, Settled(verdict)), running := s.running - 1);
      FinishMirrors(s, id, verdict);
      DispatchKeepsSettled(t, now, gate);
    case Abort => AbortKeepsSettled(s);
  }

  lemma AbortKeepsSettled(s: State)
    requires Consistent(s)
    ensures KeepsSettled(s.jobs, AbortQueued(s).jobs)
  {
    var t := Drain(s, High);
    DrainKeeps(s, High);
    DrainKeepsSettled(s, High);
    DrainKeeps(t, Medium);
    DrainKeepsSettled(t, Medium);
    DrainKeepsSettled(Drain(t, Medium), Low);
  }

  /** A promise settles once: over any run, a settled task never changes again. */
  lemma {:induction false} SettledOnce(s: State, events: seq<Event>, final: State)
    requires Valid(s) && IsRun(s, events, final)
    ensures KeepsSettled(s.jobs, final.jobs)
    decreases |events|
  {
    if |events| > 0 {
      StepKeepsValid(s, events[0]);
      StepKeepsSettled(s, events[0]);
      SettledOnce(Step(s, events[0]), events[1..], final);
    }
  }

  // ---- What becomes of each job -----------------------------------------------------------

  /** Whatever was given up as stale since was overdue. */
  ghost predicate ShedsOverdue(earlier: seq<Job>, later: seq<Job>, staleLowMs: nat, now: int) {
    && |later| == |earlier|
    && forall a :: 0 <= a < |earlier| && later[a].place == Settled(Stale) && earlier[a].place != Settled(Stale) ==>
         Overdue(earlier[a], staleLowMs, now)
  }

  ghost predicate ShedsAllOverdue(earlier: seq<Job>, later: seq<Job>, staleLowMs: nat, now: int) {
    && |later| == |earlier|
    && forall a :: 0 <= a < |earlier| && Overdue(earlier[a], staleLowMs, now) ==>
         later[a] == earlier[a].(place := Settled(Stale))
  }

  lemma ShedStaleSheds(s: State, now: int)
    requires Consistent(s)
    ensures var t := ShedStale(s, now);
            && ShedsOverdue(s.jobs, t.jobs, s.staleLowMs, now)
            && (InTimeOrder(s.queues.low) ==> ShedsAllOverdue(s.jobs, t.jobs, s.staleLowMs, now))
            && t.delayMs == s.delayMs && t.staleLowMs == s.staleLowMs
            && forall a :: 0 <= a < |t.jobs| && t.jobs[a].place.Queued? ==> s.jobs[a] == t.jobs[a]
  {
    if s.staleLowMs > 0 {
      ShedExact(s, now - s.staleLowMs);
      ShedKeepsRest(s, now - s.staleLowMs);
    }
    if InTimeOrder(s.queues.low) { ShedStaleExactly(s, now); }
    hide Shed, Consistent;
  }

  lemma {:induction false} ShedKeepsRest(s: State, cutoff: int)
    ensures var t := Shed(s, cutoff); t.delayMs == s.delayMs && t.staleLowMs == s.staleLowMs
    decreases |s.queues.low|
  {
    if |s.queues.low| > 0 && s.queues.low[0].enqueuedAt < cutoff {
      ShedKeepsRest(PopTo(s, Low, Settled(Stale)).(dropped := s.dropped + 1), cutoff);
    }
  }

  /** A dispatch gives up only tasks that are overdue at that moment, and with the low queue in
      time order it gives up all of them; without a limit it gives up nothing. */
  lemma {:induction false} DispatchSheds(s: State, now: int, gate: bool)
    requires Consistent(s)
    ensures var r := Dispatch(s, now, gate);
            && KeepsSettled(s.jobs, r.jobs) && ShedsOverdue(s.jobs, r.jobs, s.staleLowMs, now)
            && (InTimeOrder(s.queues.low) ==> ShedsAllOverdue(s.jobs, r.jobs, s.staleLowMs, now))
    decreases s.queues.Depth()
  {
    ShedStaleSheds(s, now);
    ShedStaleIsQuiet(s, now);
    var t := ShedStale(s, now);
    if t.queues.HighestNonEmpty().Some? {
      var p := t.queues.HighestNonEmpty().value;
      var place := if gate || s.delayMs > 0 then InSlot(gate) else Settled(GateClosed);
      PopKeepsSettled(t, p, place);
      var u := PopTo(t, p, place);
      PopSheds(t, p, place, s.staleLowMs, now);
      if !gate && s.delayMs == 0 {
        PopKeeps(t, p, place);
        assert u == u.(running := t.running);
        DispatchSheds(u, now, gate);
      }
      hide Dispatch, ShedStale, Consistent, InTimeOrder, PopTo;
      ShedsThen(s.jobs, t.jobs, u.jobs, s.staleLowMs, now);
      if !gate && s.delayMs == 0 { ShedsThen(s.jobs, u.jobs, Dispatch(u, now, gate).jobs, s.staleLowMs, now); }
    }
  }

  lemma PopSheds(t: State, p: Priority, place: Place, staleLowMs: nat, now: int)
    requires Consistent(t) && |t.queues.Of(p)| > 0 && place != Settled(Stale) && !place.Queued?
    ensures var u := PopTo(t, p, place);
            && ShedsOverdue(t.jobs, u.jobs, staleLowMs, now)
            && forall a :: 0 <= a < |u.jobs| && u.jobs[a].place.Queued? ==> t.jobs[a] == u.jobs[a]
  {
  }

  /** One shedding after the other, when what is queued in between was queued before. */
  lemma ShedsThen(a: seq<Job>, b: seq<Job>, c: seq<Job>, staleLowMs: nat, now: int)
    requires ShedsOverdue(a, b, staleLowMs, now) && ShedsOverdue(b, c, staleLowMs, now)
    requires KeepsSettled(a, b) && KeepsSettled(b, c)
    requires forall i :: 0 <= i < |b| && b[i].place.Queued? ==> i < |a| && a[i] == b[i]
    ensures ShedsOverdue(a, c, staleLowMs, now) && KeepsSettled(a, c)
    ensures ShedsAllOverdue(a, b, staleLowMs, now) ==> ShedsAllOverdue(a, c, staleLowMs, now)
  {
  }

  /** At a closed gate: the overdue tasks are given up, and every other queued one is refused. */
  ghost predicate Refused(earlier: seq<Job>, later: seq<Job>, staleLowMs: nat, now: int) {
    && |later| == |earlier|
    && forall a :: 0 <= a < |earlier| ==>
         later[a] == if Overdue(earlier[a], staleLowMs, now) then earlier[a].(place := Settled(Stale))
                     else if earlier[a].place.Queued? then earlier[a].(place := Settled(GateClosed))
                     else earlier[a]
  }

  lemma {:induction false} ClosedGateRefuses(s: State, now: int)
    requires Consistent(s) && InTimeOrder(s.queues.low) && s.delayMs == 0
    ensures Refused(s.jobs, Dispatch(s, now, false).jobs, s.staleLowMs, now)
    decreases s.queues.Depth()
  {
    var t := ShedStale(s, now);
    ShedStaleExactly(s, now);
    if t.queues.HighestNonEmpty().Some? {
      var p := t.queues.HighestNonEmpty().value;
      HeadIsNext(t, p);
      PopKeeps(t, p, Settled(GateClosed));
      var u := PopTo(t, p, Settled(GateClosed));
      assert u == u.(running := t.running) && InTimeOrder(u.queues.low);
      ClosedGateRefuses(u, now);
      hide Dispatch, ShedStale, Consistent, InTimeOrder;
    } else {
      EmptyMeansNone(s, t, now);
      hide Dispatch, ShedStale, Consistent, InTimeOrder;
    }
  }

  /** Every queued task of the priority is aborted, and nothing else changes. */
  ghost predicate AbortedOf(earlier: seq<Job>, later: seq<Job>, p: Priority) {
    && |later| == |earlier|
    && forall a :: 0 <= a < |earlier| ==>
         later[a] == if earlier[a].place.Queued? && earlier[a].priority == p then earlier[a].(place := Settled(Aborted))
                     else earlier[a]
  }

  lemma {:induction false} DrainAborts(s: State, p: Priority)
    requires Consistent(s)
    ensures AbortedOf(s.jobs, Drain(s, p).jobs, p) && Drain(s, p).running == s.running
    decreases |s.queues.Of(p)|
  {
    if |s.queues.Of(p)| > 0 {
      var u := PopTo(s, p, Settled(Aborted));
      assert s.queues.Of(p) == Waiting(s.jobs, p);
      HeadIsQueued(s.jobs, p);
      PopKeeps(s, p, Settled(Aborted));
      assert u == u.(running := s.running);
      DrainAborts(u, p);
    } else {
      forall a | 0 <= a < |s.jobs| && s.jobs[a].place.Queued? ensures s.jobs[a].priority != p {
        NothingQueued(s, a);
      }
    }
  }

  ghost predicate AllAborted(earlier: seq<Job>, later: seq<Job>) {
    && |later| == |earlier|
    && forall a :: 0 <= a < |earlier| ==>
         later[a] == if earlier[a].place.Queued? then earlier[a].(place := Settled(Aborted)) else earlier[a]
  }

  /** An abort settles every queued task as aborted, and leaves what runs alone. */
  lemma AbortExactly(s: State)
    requires Consistent(s)
    ensures var r := AbortQueued(s);
            r.running == s.running && r.queues.Depth() == 0 && AllAborted(s.jobs, r.jobs)
  {
    hide Consistent, Drain, AbortedOf, AllAborted;
    var t := Drain(s, High);
    var u := Drain(t, Medium);
    DrainKeeps(s, High);
    DrainKeeps(t, Medium);
    DrainAborts(s, High);
    DrainAborts(t, Medium);
    DrainAborts(u, Low);
    ThreeAborts(s.jobs, t.jobs, u.jobs, Drain(u, Low).jobs);
  }

  lemma ThreeAborts(a: seq<Job>, b: seq<Job>, c: seq<Job>, d: seq<Job>)
    requires AbortedOf(a, b, High) && AbortedOf(b, c, Medium) && AbortedOf(c, d, Low)
    ensures AllAborted(a, d)
  {
    forall i | 0 <= i < |a|
      ensures d[i] == if a[i].place.Queued? then a[i].(place := Settled(Aborted)) else a[i]
    {
    }
  }

  // ---- The count of drops ---------------------------------------------------------------

  /** How many tasks were ever given up as stale. */
  ghost function StaleJobs(jobs: seq<Job>): nat {
    if |jobs| == 0 then 0
    else StaleJobs(jobs[..|jobs| - 1]) + if jobs[|jobs| - 1].place == Settled(Stale) then 1 else 0
  }

  lemma {:induction false} MoveStale(jobs: seq<Job>, id: nat, place: Place)
    requires id < |jobs|
    ensures StaleJobs(Move(jobs, id, place)) ==
            StaleJobs(jobs) - (if jobs[id].place == Settled(Stale) then 1 else 0) + if place == Settled(Stale) then 1 else 0
  {
    var n := |jobs| - 1;
    if id < n {
      MoveStale(jobs[..n], id, place);
      assert Move(jobs, id, place)[..n] == Move(jobs[..n], id, place);
    } else {
      assert Move(jobs, id, place)[..n] == jobs[..n];
    }
  }

  ghost predicate DropsCounted(s: State) { s.dropped == StaleJobs(s.jobs) }

  lemma PopCounts(s: State, p: Priority, place: Place)
    requires Consistent(s) && |s.queues.Of(p)| > 0
    ensures StaleJobs(PopTo(s, p, place).jobs) == StaleJobs(s.jobs) + if place == Settled(Stale) then 1 else 0
  {
    assert s.queues.Of(p) == Waiting(s.jobs, p);
    HeadIsQueued(s.jobs, p);
    MoveStale(s.jobs, s.queues.Of(p)[0].id, place);
  }

  lemma {:induction false} ShedCounts(s: State, cutoff: int)
    requires Consistent(s) && DropsCounted(s)
    ensures DropsCounted(Shed(s, cutoff))
    decreases |s.queues.low|
  {
    if |s.queues.low| > 0 && s.queues.low[0].enqueuedAt < cutoff {
      PopCounts(s, Low, Settled(Stale));
      PopKeeps(s, Low, Settled(Stale));
      ShedCounts(PopTo(s, Low, Settled(Stale)).(dropped := s.dropped + 1), cutoff);
    }
  }

  lemma {:induction false} DispatchCounts(s: State, now: int, gate: bool)
    requires Consistent(s) && DropsCounted(s)
    ensures DropsCounted(Dispatch(s, now, gate))
    decreases s.queues.Depth()
  {
    if s.staleLowMs > 0 {
      ShedKeeps(s, now - s.staleLowMs);
      ShedCounts(s, now - s.staleLowMs);
    }
    var t := ShedStale(s, now);
    if t.queues.HighestNonEmpty().Some? {
      var p := t.queues.HighestNonEmpty().value;
      PopCounts(t, p, if gate || s.delayMs > 0 then InSlot(gate) else Settled(GateClosed));
      if !gate && s.delayMs == 0 {
        PopCounts(t, p, Settled(GateClosed));
        PopKeeps(t, p, Settled(GateClosed));
        var u := PopTo(t, p, Settled(GateClosed));
        assert u == u.(running := t.running);
        DispatchCounts(u, now, gate);
      }
    }
  }

  lemma {:induction false} DrainCounts(s: State, p: Priority)
    requires Consistent(s) && DropsCounted(s)
    ensures DropsCounted(Drain(s, p))
    decreases |s.queues.Of(p)|
  {
    if |s.queues.Of(p)| > 0 {
      PopCounts(s, p, Settled(Aborted));
      PopKeeps(s, p, Settled(Aborted));
      DrainCounts(PopTo(s, p, Settled(Aborted)), p);
    }
  }

  lemma StepCounts(s: State, e: Event)
    requires Valid(s) && Enabled(s, e) && DropsCounted(s)
    ensures DropsCounted(Step(s, e))
  {
    match e
    case Submitted(p, now, gate) =>
      var j := Job(p, now, if !gate then Settled(GateClosed) else if s.running < s.max then InSlot(true) else Queued);
      assert Step(s, e).jobs == s.jobs + [j] && (s.jobs + [j])[..|s.jobs|] == s.jobs;
    case Done(id, now, gate) =>
      var verdict := if s.jobs[id].place.invoked then Finished else GateClosed;
      MoveStale(s.jobs, id, Settled(verdict));
      FinishMirrors(s, id, verdict);
      DispatchCounts(s.(jobs := Move(s.jobs, id, Settled(verdict)), running := s.running - 1), now, gate);
    case Abort =>
      DrainKeeps(s, High);
      DrainKeeps(Drain(s, High), Medium);
      DrainCounts(s, High);
      DrainCounts(Drain(s, High), Medium);
      DrainCounts(Drain(Drain(s, High), Medium), Low);
  }

  /** Over every run, the counter of drops is the number of tasks given up as stale. */
  lemma {:induction false} RunCounts(s: State, events: seq<Event>, final: State)
    requires Valid(s) && DropsCounted(s) && IsRun(s, events, final)
    ensures DropsCounted(final)
    decreases |events|
  {
    if |events| > 0 {
      StepKeepsValid(s, events[0]);
      StepCounts(s, events[0]);
      hide Valid, DropsCounted, Step;
      RunCounts(Step(s, events[0]), events[1..], final);
    }
  }

  // ---- The class ------------------------------------------------------------------------

  const PRIORITY_ORDER: seq<Priority> := [High, Medium, Low]

  class Limiter {
    const max: nat
    const delayMs: nat
    const staleLowMs: nat
    var running: int
    var staleDropCount: nat
    var queues: Queues

    var submissions: nat         // stands for promise identity
    ghost var jobs: seq<Job>
    ghost var taken: nat         // drops already reported

    ghost function View(): State
      reads this
    {
      State(max, delayMs, staleLowMs, running, taken + staleDropCount, queues, jobs)
    }

    ghost predicate Ready()
      reads this
    {
      Valid(View()) && submissions == |jobs|
    }

    constructor (max: nat, delayMs: nat, staleLowMs: nat)
      requires max >= 1
      ensures Ready() && View() == Initial(max, delayMs, staleLowMs)
    {
      this.max, this.delayMs, this.staleLowMs := max, delayMs, staleLowMs;
      running, staleDropCount, queues, submissions := 0, 0, Queues([], [], []), 0;
      jobs, taken := [], 0;
    }

    lemma ReadyConsistent()
      requires Ready()
      ensures Consistent(View())
    {
    }

    method TakeStaleDropCount() returns (n: nat)
      requires Ready()
      modifies this
      ensures Ready() && View() == old(View()) && staleDropCount == 0 && taken == old(taken) + n
    {
      n := staleDropCount;
      taken := taken + staleDropCount;
      staleDropCount := 0;
    }

    method Run(priority: Priority, now: int, gate: bool)
      requires Ready() && Enabled(View(), Submitted(priority, now, gate))
      modifies this
      ensures Ready() && View() == Step(old(View()), Submitted(priority, now, gate))
      ensures jobs == old(jobs) + [Job(priority, now, if !gate then Settled(GateClosed)
                                                      else if old(running) < max then InSlot(true) else Queued)]
      ensures running == old(running) + if gate && old(running) < max then 1 else 0
      ensures queues == if gate && old(running) >= max
                        then old(queues).With(priority, old(queues).Of(priority) + [Task(|old(jobs)|, now)])
                        else old(queues)
    {
      hide Valid, Submit;
      StepKeepsValid(View(), Submitted(priority, now, gate));
      ghost var s := View();
      SubmitIs(s, priority, now, gate);
      var id := submissions;
      submissions := submissions + 1;
      if !gate {
        jobs := jobs + [Job(priority, now, Settled(GateClosed))];
      } else if running < max {
        jobs := jobs + [Job(priority, now, Queued)];
        MoveLast(old(jobs), Job(priority, now, Queued), InSlot(true));
        Exec(id, gate, now);
      } else {
        jobs := jobs + [Job(priority, now, Queued)];
        queues := queues.With(priority, queues.Of(priority) + [Task(id, now)]);
      }
    }

    /** Starts a task, or refuses it at a closed gate. */
    method Exec(id: nat, gate: bool, now: int)
      modifies this
      ensures submissions == old(submissions) && |jobs| == old(|jobs|)
      ensures var s := old(View());
              View() == if gate || delayMs > 0 then s.(running := s.running + 1, jobs := Move(s.jobs, id, InSlot(gate)))
                        else Dispatch(s.(jobs := Move(s.jobs, id, Settled(GateClosed))), now, gate)
      decreases queues.Depth(), 1
    {
      running := running + 1;
      if !gate && delayMs == 0 {
        jobs := Move(jobs, id, Settled(GateClosed));
        running := running - 1;
        DispatchNext(now, gate);
      } else {
        jobs := Move(jobs, id, InSlot(gate));
      }
    }

    method ShedStaleLow(now: int)
      modifies this
      ensures submissions == old(submissions) && |jobs| == old(|jobs|)
      ensures View() == ShedStale(old(View()), now)
      ensures Consistent(old(View())) ==> ShedsOverdue(old(jobs), jobs, staleLowMs, now)
      ensures Consistent(old(View())) && InTimeOrder(old(queues.low)) ==> GivenUp(old(jobs), jobs, staleLowMs, now)
    {
      hide Valid, Shed, Move, Consistent, InTimeOrder, GivenUp, ShedsOverdue;
      if Consistent(View()) { ShedStaleSheds(View(), now); }
      if Consistent(View()) && InTimeOrder(queues.low) { ShedStaleExactly(View(), now); }
      ShedDone(View(), now - staleLowMs);
      if staleLowMs > 0 && |queues.low| > 0 {
        var cutoff := now - staleLowMs;
        while |queues.low| > 0 && queues.low[0].enqueuedAt < cutoff
          invariant Shed(old(View()), cutoff) == Shed(View(), cutoff)
          invariant submissions == old(submissions) && |jobs| == old(|jobs|)
          decreases |queues.low|
        {
          ShedStep(View(), cutoff);
          MoveLength(jobs, queues.low[0].id, Settled(Stale));
          jobs := Move(jobs, queues.low[0].id, Settled(Stale));
          queues := queues.With(Low, queues.low[1..]);
          staleDropCount := staleDropCount + 1;
        }
        ShedDone(View(), cutoff);
      }
    }

    method DispatchNext(now: int, gate: bool)
      modifies this
      ensures submissions == old(submissions) && |jobs| == old(|jobs|)
      ensures View() == Dispatch(old(View()), now, gate)
      ensures Consistent(old(View())) ==> ShedsOverdue(old(jobs), jobs, staleLowMs, now)
      ensures Consistent(old(View())) && InTimeOrder(old(queues.low)) ==> ShedsAllOverdue(old(jobs), jobs, staleLowMs, now)
      decreases queues.Depth(), 0
    {
      hide ShedStale, Shed, Move, Valid, Consistent, InTimeOrder, ShedsOverdue, ShedsAllOverdue;
      if Consistent(View()) { DispatchSheds(View(), now, gate); }
      ShedStaleLow(now);
      var k := 0;
      while k < 3 && |queues.Of(PRIORITY_ORDER[k])| == 0
        invariant 0 <= k <= 3
        invariant (k >= 1 ==> |queues.high| == 0) && (k >= 2 ==> |queues.medium| == 0) && (k == 3 ==> |queues.low| == 0)
      {
        assert PRIORITY_ORDER[0] == High && PRIORITY_ORDER[1] == Medium && PRIORITY_ORDER[2] == Low;
        k := k + 1;
      }
      if k < 3 {
        assert PRIORITY_ORDER[0] == High && PRIORITY_ORDER[1] == Medium && PRIORITY_ORDER[2] == Low;
        var p := PRIORITY_ORDER[k];
        assert queues.HighestNonEmpty() == Some(p);
        var task := queues.Of(p)[0];
        queues := queues.With(p, queues.Of(p)[1..]);
        Exec(task.id, gate, now);
      }
    }

    /** The task's function has settled and its delay has passed. */
    method TaskDone(id: nat, now: int, gate: bool)
      requires Ready() && Enabled(View(), Done(id, now, gate))
      modifies this
      ensures Ready() && View() == Step(old(View()), Done(id, now, gate))
      ensures FinishedAt(old(jobs), jobs, id)
    {
      hide Valid, Dispatch, FinishedAt;
      FinishSettles(View(), id, now, gate);
      ghost var final := Finish(View(), id, now, gate);
      FinishKeeps(View(), id, now, gate);
      MoveLength(jobs, id, Settled(if jobs[id].place.invoked then Finished else GateClosed));
      jobs := Move(jobs, id, Settled(if jobs[id].place.invoked then Finished else GateClosed));
      running := running - 1;
      DispatchNext(now, gate);
      assert View() == final;
    }

    method DrainBucket(p: Priority) returns (n: nat)
      modifies this
      ensures submissions == old(submissions) && |jobs| == old(|jobs|)
      ensures View() == Drain(old(View()), p) && n == old(|queues.Of(p)|)
    {
      hide Valid, Drain, Move;
      DrainedAlready(View(), p);
      n := 0;
      while |queues.Of(p)| > 0
        invariant Drain(View(), p) == Drain(old(View()), p)
        invariant n + |queues.Of(p)| == old(|queues.Of(p)|)
        invariant submissions == old(submissions) && |jobs| == old(|jobs|)
        decreases |queues.Of(p)|
      {
        DrainStep(View(), p);
        MoveLength(jobs, queues.Of(p)[0].id, Settled(Aborted));
        jobs := Move(jobs, queues.Of(p)[0].id, Settled(Aborted));
        queues := queues.With(p, queues.Of(p)[1..]);
        n := n + 1;
      }
      DrainedAlready(View(), p);
    }

    method AbortQueued() returns (n: nat)
      requires Ready()
      modifies this
      ensures Ready() && View() == Step(old(View()), Abort) && n == old(queues.Depth())
      ensures running == old(running) && queues.Depth() == 0 && AllAborted(old(jobs), jobs)
    {
      hide Valid, Consistent, Drain, AllAborted;
      ReadyConsistent();
      AbortExactly(View());
      StepKeepsValid(View(), Abort);
      n := 0;
      for k := 0 to 3
        invariant View() == DrainFirst(old(View()), k)
        invariant n + queues.Depth() == old(queues.Depth())
        invariant submissions == old(submissions) && |jobs| == old(|jobs|)
      {
        var drained := DrainBucket(PRIORITY_ORDER[k]);
        n := n + drained;
      }
      assert DrainFirst(old(View()), 1) == Drain(old(View()), High);
    }
  }

  /** The three ways of a submission. */
  lemma SubmitIs(s: State, p: Priority, now: int, gate: bool)
    ensures var t := Step(s, Submitted(p, now, gate));
            && (!gate ==> t == s.(jobs := s.jobs + [Job(p, now, Settled(GateClosed))]))
            && (gate && s.running < s.max ==>
                  t == s.(jobs := s.jobs + [Job(p, now, InSlot(true))], running := s.running + 1))
            && (gate && s.running >= s.max ==>
                  t == s.(jobs := s.jobs + [Job(p, now, Queued)],
                          queues := s.queues.With(p, s.queues.Of(p) + [Task(|s.jobs|, now)])))
  {
  }

  lemma MoveLast(jobs: seq<Job>, j: Job, place: Place)
    ensures Move(jobs + [j], |jobs|, place) == jobs + [j.(place := place)]
  {
  }

  lemma ShedStep(s: State, cutoff: int)
    requires |s.queues.low| > 0 && s.queues.low[0].enqueuedAt < cutoff
    ensures Shed(s, cutoff) == Shed(PopTo(s, Low, Settled(Stale)).(dropped := s.dropped + 1), cutoff)
  {
  }

  lemma ShedDone(s: State, cutoff: int)
    ensures |s.queues.low| == 0 || s.queues.low[0].enqueuedAt >= cutoff ==> Shed(s, cutoff) == s
  {
  }

  /** The task settled with what its function did, or because the gate was closed. */
  ghost predicate FinishedAt(earlier: seq<Job>, later: seq<Job>, id: nat) {
    && id < |earlier| == |later| && earlier[id].place.InSlot?
    && later[id] == earlier[id].(place := Settled(if earlier[id].place.invoked then Finished else GateClosed))
  }

  lemma FinishSettles(s: State, id: nat, now: int, gate: bool)
    requires Valid(s) && id < |s.jobs| && s.jobs[id].place.InSlot?
    ensures var r := Finish(s, id, now, gate);
            FinishedAt(s.jobs, r.jobs, id)
  {
    var verdict := if s.jobs[id].place.invoked then Finished else GateClosed;
    FinishMirrors(s, id, verdict);
    DispatchSheds(s.(jobs := Move(s.jobs, id, Settled(verdict)), running := s.running - 1), now, gate);
    hide Dispatch, Consistent;
  }

  lemma DrainStep(s: State, p: Priority)
    requires |s.queues.Of(p)| > 0
    ensures Drain(s, p) == Drain(PopTo(s, p, Settled(Aborted)), p)
  {
  }

  lemma DrainedAlready(s: State, p: Priority)
    ensures |s.queues.Of(p)| == 0 ==> Drain(s, p) == s
  {
  }

  lemma MoveLength(jobs: seq<Job>, id: nat, place: Place)
    ensures |Move(jobs, id, place)| == |jobs|
  {
  }

  /** The buckets drained so far, in priority order. */
  ghost function DrainFirst(s: State, k: nat): State
    requires k <= 3
  {
    if k == 0 then s else Drain(DrainFirst(s, k - 1), PRIORITY_ORDER[k - 1])
  }
}
