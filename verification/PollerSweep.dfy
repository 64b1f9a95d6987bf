/** One sweep of a poll target (src/ingestion/amm-poller.ts): what it reads from the bounded
    memories, what it dispatches, and how far its page is safe. */
module PollerSweep {
  import opened Options
  import opened InsertionOrder
  import opened IngestOutcomes
  import opened PollerPaging
  import opened PollerBacklog

  // ---- Bounded memories ---------------------------------------------------------------------

  const LOCAL_SEEN_MAX: nat := 5000
  const SIGNATURE_OUTCOME_MAX: nat := 10000

  function MarkSeen(seen: seq<string>, sig: string): seq<string> {
    if sig in seen then seen
    else if |seen| < LOCAL_SEEN_MAX then seen + [sig]
    else (seen + [sig])[1..]
  }

  /** Outcomes by signature, and the signatures in the order they were first remembered. */
  datatype Memory = Memory(seen: seq<string>, outcomes: map<string, IngestOutcome>, order: seq<string>)

  const NOTHING := Memory([], map[], [])

  /** Drops the `n` keys remembered first. */
  function Forget(outcomes: map<string, IngestOutcome>, order: seq<string>, n: nat): (r: map<string, IngestOutcome>)
    requires n <= |order|
    ensures forall s :: s in r ==> s in outcomes && r[s] == outcomes[s]
    decreases n
  {
    if n == 0 then outcomes else Forget(outcomes - {order[0]}, order[1..], n - 1)
  }

  function Remember(m: Memory, sig: string, outcome: IngestOutcome): Memory {
    var order := if sig in m.outcomes then m.order else m.order + [sig];
    var over := Max(0, |order| - SIGNATURE_OUTCOME_MAX);
    m.(outcomes := Forget(m.outcomes[sig := outcome], order, over), order := order[over..])
  }

  function Recalled(m: Memory, sig: string): Option<IngestOutcome> {
    if sig in m.outcomes then Some(m.outcomes[sig]) else None
  }

  // ---- Scanning a page ----------------------------------------------------------------------

  datatype Scanned = Scanned(seen: seq<string>, outcomes: seq<Option<IngestOutcome>>, unseen: seq<string>)

  /** Rows in page order: failed on chain, already seen (with what is remembered), or new. */
  function ScanPage(page: seq<Row>, m: Memory): (r: Scanned)
    ensures |r.outcomes| == |page| && |r.unseen| <= |page|
    decreases |page|
  {
    if |page| == 0 then Scanned(m.seen, [], [])
    else
      var r, row := ScanPage(page[..|page| - 1], m), page[|page| - 1];
      if row.failed then r.(outcomes := r.outcomes + [Some(ConfirmedIrrelevant)])
      else if row.sig in r.seen then r.(outcomes := r.outcomes + [Recalled(m, row.sig)])
      else Scanned(MarkSeen(r.seen, row.sig), r.outcomes + [None], r.unseen + [row.sig])
  }

  function FreshItems(sigs: seq<string>, now: int): (r: seq<Item>)
    ensures |r| == |sigs| && forall i :: 0 <= i < |r| ==> r[i] == Item(sigs[i], now)
  {
    seq(|sigs|, i requires 0 <= i < |sigs| => Item(sigs[i], now))
  }

  datatype Dispatch = Dispatch(scanned: Scanned, items: seq<Item>, backlog: seq<Item>)

  /** The whole synchronous part of a sweep: what is dispatched, oldest backlog first, and what
      stays queued behind it. */
  function Planned(mmm: bool, page: seq<Row>, m: Memory, backlog: seq<Item>, now: int): Dispatch {
    var scanned := ScanPage(page, m);
    var reserve := BacklogBudget(mmm, backlog, now, |page|);
    var cap := Min(FreshBudget(mmm, backlog, now, |page|), |scanned.unseen|);
    Dispatch(scanned, backlog[..reserve] + FreshItems(scanned.unseen[..cap], now),
             backlog[reserve..] + Enqueued(scanned.unseen[cap..], now))
  }

  /** Oldest first from the backlog, then the newest of the new rows; what does not fit waits
      behind the rest of the backlog, the oldest of it first. */
  lemma PlanMeans(mmm: bool, page: seq<Row>, m: Memory, backlog: seq<Item>, now: int)
    ensures var d, unseen := Planned(mmm, page, m, backlog, now), ScanPage(page, m).unseen;
            var r, n := BacklogBudget(mmm, backlog, now, |page|), Min(FreshBudget(mmm, backlog, now, |page|), |unseen|);
            && 0 <= n && |d.items| == r + n && |d.backlog| == |backlog| - r + |unseen| - n
            && (forall k :: 0 <= k < r ==> d.items[k] == backlog[k])
            && (forall k :: 0 <= k < n ==> d.items[r + k] == Item(unseen[k], now))
            && (forall k :: 0 <= k < |backlog| - r ==> d.backlog[k] == backlog[r + k])
            && (forall k :: |backlog| - r <= k < |d.backlog| ==> d.backlog[k] == Item(unseen[|unseen| - 1 - (k - (|backlog| - r))], now))
  {
    hide BacklogBudget, FreshBudget, ScanPage;
  }

  /** New rows are taken in page order: what comes later on the list is older on the page. */
  lemma {:induction false} NewInPageOrder(page: seq<Row>, m: Memory, a: nat, b: nat)
    requires a < b < |ScanPage(page, m).unseen|
    ensures exists i, j :: 0 <= i < j < |page| && page[i].sig == ScanPage(page, m).unseen[a]
                           && page[j].sig == ScanPage(page, m).unseen[b]
    decreases |page|
  {
    var n := |page| - 1;
    var early := ScanPage(page[..n], m).unseen;
    if b < |early| {
      NewInPageOrder(page[..n], m, a, b);
      var i, j :| 0 <= i < j < n && page[..n][i].sig == early[a] && page[..n][j].sig == early[b];
      assert page[i].sig == early[a] && page[j].sig == early[b];
    } else {
      NewOnPage(page[..n], m, a);
      var i :| 0 <= i < n && page[..n][i].sig == early[a];
      assert page[i].sig == early[a] && page[n].sig == ScanPage(page, m).unseen[b];
    }
  }

  lemma {:induction false} NewOnPage(page: seq<Row>, m: Memory, a: nat)
    requires a < |ScanPage(page, m).unseen|
    ensures exists i :: 0 <= i < |page| && page[i].sig == ScanPage(page, m).unseen[a]
    decreases |page|
  {
    var n := |page| - 1;
    var early := ScanPage(page[..n], m).unseen;
    if a < |early| {
      NewOnPage(page[..n], m, a);
      var i :| 0 <= i < n && page[..n][i].sig == early[a];
      assert page[i].sig == early[a];
    } else {
      assert page[n].sig == ScanPage(page, m).unseen[a];
    }
  }

  /** What an answer changes: the outcome goes to memory and to the page, and a retryable item
      goes back to the queue with the age it had. */
  datatype Answered = Answered(outcomes: seq<Option<IngestOutcome>>, m: Memory, backlog: seq<Item>)

  function Answer(page: seq<Row>, outcomes: seq<Option<IngestOutcome>>, m: Memory, backlog: seq<Item>,
                  item: Item, outcome: IngestOutcome): Answered
  {
    var i := PageIndex(page, item.sig);
    Answered(if i < |outcomes| then outcomes[i := Some(outcome)] else outcomes,
             Remember(m, item.sig, outcome),
             if outcome == RetryableError then Requeued(backlog, item) else backlog)
  }

  /** On a page without repetition the answer is the outcome of its own row and of no other; an
      item to retry is back in the queue with the time it came with, and nothing else is. */
  lemma AnswerMeans(page: seq<Row>, outcomes: seq<Option<IngestOutcome>>, m: Memory, backlog: seq<Item>,
                    item: Item, outcome: IngestOutcome)
    requires Distinct(page) && |outcomes| == |page|
    ensures var a := Answer(page, outcomes, m, backlog, item, outcome);
            && |a.outcomes| == |page|
            && (forall i :: 0 <= i < |page| ==> a.outcomes[i] == if page[i].sig == item.sig then Some(outcome) else outcomes[i])
            && multiset(a.backlog) == multiset(backlog) + (if outcome == RetryableError then multiset{item} else multiset{})
            && a.m.seen == m.seen
  {
    var i := Slot(backlog, item.enqueuedAt);
    assert backlog == backlog[..i] + backlog[i..];
    hide Slot, Remember;
    RememberSeen(m, item.sig, outcome);
  }

  lemma RememberSeen(m: Memory, sig: string, outcome: IngestOutcome)
    ensures Remember(m, sig, outcome).seen == m.seen
  {
  }

  /** The last place of the signature on the page, or the length of the page. */
  function PageIndex(page: seq<Row>, sig: string): (i: nat)
    ensures i <= |page| && (i < |page| ==> page[i].sig == sig)
    ensures i == |page| ==> forall k :: 0 <= k < |page| ==> page[k].sig != sig
    decreases |page|
  {
    if |page| == 0 then 0
    else if page[|page| - 1].sig == sig then |page| - 1
    else
      var i := PageIndex(page[..|page| - 1], sig);
      if i == |page| - 1 then |page| else i
  }

  // ---- How far a page is safe ---------------------------------------------------------------

  predicate Safe(outcome: Option<IngestOutcome>) { outcome.Some? && IsTerminalSafe(outcome.value) }

  /** The start of the longest run of safe outcomes at the old end of the page. */
  function SafeFrom(outcomes: seq<Option<IngestOutcome>>): (k: nat)
    ensures k <= |outcomes|
    ensures forall i :: k <= i < |outcomes| ==> Safe(outcomes[i])
    ensures k > 0 ==> !Safe(outcomes[k - 1])
    decreases |outcomes|
  {
    if |outcomes| == 0 then 0
    else if Safe(outcomes[0]) && SafeFrom(outcomes[1..]) == 0 then 0
    else SafeFrom(outcomes[1..]) + 1
  }

  /** The newest signature that is safe together with everything older on the page. */
  method SafeAdvanceSigFromPage(page: seq<Row>, outcomes: seq<Option<IngestOutcome>>) returns (safe: Option<string>)
    requires |outcomes| == |page|
    ensures var k := SafeFrom(outcomes); safe == if k < |page| then Some(page[k].sig) else None
    ensures safe.Some? <==> |page| > 0 && Safe(outcomes[|page| - 1])
  {
    safe := None;
    var i := |page|;
    while i > 0
      invariant 0 <= i <= |page|
      invariant forall j :: i <= j < |page| ==> Safe(outcomes[j])
      invariant safe == if i < |page| then Some(page[i].sig) else None
    {
      if !Safe(outcomes[i - 1]) { break; }
      i := i - 1;
      safe := Some(page[i].sig);
    }
    SafeFromIs(outcomes, i);
  }

  lemma SafeFromIs(outcomes: seq<Option<IngestOutcome>>, k: nat)
    requires k <= |outcomes| && forall i :: k <= i < |outcomes| ==> Safe(outcomes[i])
    requires k > 0 ==> !Safe(outcomes[k - 1])
    ensures SafeFrom(outcomes) == k
  {
  }

  // ---- The module variables of the poller ---------------------------------------------------

  class AmmPoller {
    var localSeen: set<string>
    var localSeenQueue: seq<string>
    var signatureOutcomes: map<string, IngestOutcome>
    var outcomeOrder: seq<string>
    var backlogByTarget: map<string, seq<Item>>

    ghost predicate Valid()
      reads this
    {
      && Listed(localSeen, localSeenQueue)
      && |localSeenQueue| <= LOCAL_SEEN_MAX && |outcomeOrder| <= SIGNATURE_OUTCOME_MAX
      && |outcomeOrder| == |signatureOutcomes| && Listed(signatureOutcomes.Keys, outcomeOrder)
    }

    ghost function Memo(): Memory
      reads this
    {
      Memory(localSeenQueue, signatureOutcomes, outcomeOrder)
    }

    constructor ()
      ensures Valid() && Memo() == Memory([], map[], []) && backlogByTarget == map[]
    {
      localSeen, localSeenQueue, signatureOutcomes, outcomeOrder, backlogByTarget := {}, [], map[], [], map[];
    }

    method MarkLocalSeen(sig: string) returns (first: bool)
      requires Valid()
      modifies this`localSeen, this`localSeenQueue
      ensures Valid() && localSeenQueue == MarkSeen(old(localSeenQueue), sig)
      ensures first == (sig !in old(localSeenQueue))
    {
      SeenChanges(localSeen, localSeenQueue, sig);
      if sig in localSeen { return false; }
      localSeen, localSeenQueue := localSeen + {sig}, localSeenQueue + [sig];
      if |localSeenQueue| > LOCAL_SEEN_MAX {
        var evict := localSeenQueue[0];
        localSeen, localSeenQueue := localSeen - {evict}, localSeenQueue[1..];
      }
      return true;
    }

    method RememberOutcome(sig: string, outcome: IngestOutcome)
      requires Valid()
      modifies this`signatureOutcomes, this`outcomeOrder
      ensures Valid() && Memo() == Remember(old(Memo()), sig, outcome)
    {
      hide Listed, Unique, Forget;
      AddRemembered(signatureOutcomes, outcomeOrder, sig, outcome);
      if sig !in signatureOutcomes { outcomeOrder := outcomeOrder + [sig]; }
      signatureOutcomes := signatureOutcomes[sig := outcome];
      var overflow := |signatureOutcomes| - SIGNATURE_OUTCOME_MAX;
      ghost var all, order := signatureOutcomes, outcomeOrder;
      ghost var over := Max(0, overflow);
      var i := 0;
      while i < overflow
        invariant 0 <= i <= over <= |order|
        invariant outcomeOrder == order[i..]
        invariant Forget(all, order, over) == Forget(signatureOutcomes, outcomeOrder, over - i)
        invariant |outcomeOrder| == |signatureOutcomes| && Listed(signatureOutcomes.Keys, outcomeOrder)
      {
        HeadRemembered(signatureOutcomes, outcomeOrder);
        ForgetHead(signatureOutcomes, outcomeOrder, over - i);
        signatureOutcomes, outcomeOrder := signatureOutcomes - {outcomeOrder[0]}, outcomeOrder[1..];
        i := i + 1;
      }
      ForgetNothing(signatureOutcomes, outcomeOrder);
    }

    method BacklogFor(target: string) returns (q: seq<Item>)
      modifies this`backlogByTarget
      ensures target in backlogByTarget && q == backlogByTarget[target]
      ensures q == if target in old(backlogByTarget) then old(backlogByTarget)[target] else []
      ensures forall t :: t != target ==>
                (t in backlogByTarget <==> t in old(backlogByTarget))
                && (t in backlogByTarget ==> backlogByTarget[t] == old(backlogByTarget)[t])
    {
      if target !in backlogByTarget { backlogByTarget := backlogByTarget[target := []]; }
      return backlogByTarget[target];
    }

    /** The loop over the page. */
    method ScanRows(page: seq<Row>) returns (outcomes: seq<Option<IngestOutcome>>, unseen: seq<string>)
      requires Valid()
      modifies this`localSeen, this`localSeenQueue
      ensures Valid() && ScanPage(page, old(Memo())) == Scanned(localSeenQueue, outcomes, unseen)
    {
      hide Unique, Listed;
      outcomes, unseen := [], [];
      ghost var memo := Memo();
      var i := 0;
      while i < |page|
        invariant 0 <= i <= |page| && Valid() && Memo() == memo.(seen := localSeenQueue)
        invariant ScanPage(page[..i], memo) == Scanned(localSeenQueue, outcomes, unseen)
      {
        assert page[..i + 1][..i] == page[..i];
        var row := page[i];
        i := i + 1;
        if row.failed {
          outcomes := outcomes + [Some(ConfirmedIrrelevant)];
          continue;
        }
        var first := MarkLocalSeen(row.sig);
        if !first {
          outcomes := outcomes + [if row.sig in signatureOutcomes then Some(signatureOutcomes[row.sig]) else None];
          continue;
        }
        outcomes, unseen := outcomes + [None], unseen + [row.sig];
      }
      assert page[..i] == page;
    }

    ghost function Queue(target: string): seq<Item>
      reads this
    {
      if target in backlogByTarget then backlogByTarget[target] else []
    }

    /** Everything a sweep does between its fetch and its first wait. */
    method PlanSweep(target: string, mmm: bool, page: seq<Row>, now: int)
      returns (outcomes: seq<Option<IngestOutcome>>, items: seq<Item>)
      requires Valid()
      modifies this
      ensures Valid()
      ensures var d := Planned(mmm, page, old(Memo()), old(Queue(target)), now);
              && Memo() == old(Memo()).(seen := d.scanned.seen)
              && outcomes == d.scanned.outcomes && items == d.items && Queue(target) == d.backlog
      ensures forall t :: t != target ==> Queue(t) == old(Queue(t))
    {
      hide Unique, Listed, ScanPage, BacklogBudget, FreshBudget, Recalled, MarkSeen;
      var queue := BacklogFor(target);
      var reserve := BacklogBudget(mmm, queue, now, |page|);
      var cap := FreshBudget(mmm, queue, now, |page|);
      var unseen;
      outcomes, unseen := ScanRows(page);
      var taken := Min(cap, |unseen|);
      ghost var was := queue;
      queue := PushOverflow(queue, unseen[taken..], now);
      var oldest;
      oldest, queue := ShiftOldest(queue, reserve);
      assert oldest == was[..reserve] && queue == was[reserve..] + Enqueued(unseen[taken..], now);
      items := oldest + FreshItems(unseen[..taken], now);
      backlogByTarget := backlogByTarget[target := queue];
    }

    /** What happens when one dispatched item has its verdict. */
    method RecordAnswer(target: string, page: seq<Row>, outcomes: seq<Option<IngestOutcome>>, item: Item,
                        e: Evidence, mmmLean: bool)
      returns (r: seq<Option<IngestOutcome>>)
      requires Valid() && |outcomes| == |page|
      requires e.known.Some? ==> IsTerminalSafe(e.known.value)
      modifies this
      ensures Valid()
      ensures Answered(r, Memo(), Queue(target))
              == Answer(page, outcomes, old(Memo()), old(Queue(target)), item, ItemOutcome(e, mmmLean))
      ensures forall t :: t != target ==> Queue(t) == old(Queue(t))
    {
      hide Unique, Listed, Requeued, Remember;
      var outcome;
      if e.wsNonSale {
        outcome := ConfirmedIrrelevant;
      } else if e.known.Some? {
        outcome := e.known.value;
      } else {
        outcome := if mmmLean then DeferredOutcome(e) else e.answer.GetOr(RetryableError);
      }
      RememberOutcome(item.sig, outcome);
      var i := PageIndex(page, item.sig);
      r := if i < |page| then outcomes[i := Some(outcome)] else outcomes;
      if outcome == RetryableError {
        var queue := BacklogFor(target);
        queue := RequeueOldestFirst(queue, item);
        backlogByTarget := backlogByTarget[target := queue];
      }
    }
  }

  /** The overflow joins the queue, oldest first. */
  method PushOverflow(queue: seq<Item>, overflow: seq<string>, now: int) returns (r: seq<Item>)
    ensures r == queue + Enqueued(overflow, now)
  {
    r := queue;
    var i := |overflow|;
    while i > 0
      invariant 0 <= i <= |overflow| && r == queue + Enqueued(overflow, now)[..|overflow| - i]
    {
      i := i - 1;
      r := r + [Item(overflow[i], now)];
    }
  }

  /** The reserve is taken from the front of the queue. */
  method ShiftOldest(queue: seq<Item>, n: nat) returns (taken: seq<Item>, rest: seq<Item>)
    ensures taken == queue[..Min(n, |queue|)] && rest == queue[Min(n, |queue|)..]
  {
    taken, rest := [], queue;
    var i := 0;
    while i < n && |rest| > 0
      invariant 0 <= i <= n && i <= |queue| && taken == queue[..i] && rest == queue[i..]
    {
      taken, rest := taken + [rest[0]], rest[1..];
      i := i + 1;
    }
  }

  lemma SeenChanges(seen: set<string>, queue: seq<string>, sig: string)
    requires Listed(seen, queue)
    ensures sig in seen <==> sig in queue
    ensures sig !in seen ==>
              && Listed(seen + {sig}, queue + [sig])
              && Listed(seen + {sig} - {(queue + [sig])[0]}, (queue + [sig])[1..])
  {
    AddLast(seen, queue, sig);
    if sig !in seen { DropFirst(seen + {sig}, queue + [sig]); }
  }

  lemma AddRemembered(m: map<string, IngestOutcome>, order: seq<string>, s: string, o: IngestOutcome)
    requires Listed(m.Keys, order) && |order| == |m|
    ensures Listed(m[s := o].Keys, if s in m then order else order + [s])
    ensures |m[s := o]| == if s in m then |order| else |order| + 1
  {
    AddLast(m.Keys, order, s);
    hide Listed;
    assert m[s := o].Keys == m.Keys + {s};
    if s in m { assert m[s := o].Keys == m.Keys; }
  }

  lemma ForgetHead(m: map<string, IngestOutcome>, order: seq<string>, n: nat)
    requires 0 < n <= |order|
    ensures Forget(m, order, n) == Forget(m - {order[0]}, order[1..], n - 1)
  {
  }

  lemma ForgetNothing(m: map<string, IngestOutcome>, order: seq<string>)
    ensures Forget(m, order, 0) == m
  {
  }

  lemma HeadRemembered(m: map<string, IngestOutcome>, order: seq<string>)
    requires Listed(m.Keys, order) && |order| == |m| > 0
    ensures Listed((m - {order[0]}).Keys, order[1..]) && |m - {order[0]}| == |order| - 1
  {
    DropFirst(m.Keys, order);
    hide Listed;
    assert (m - {order[0]}).Keys == m.Keys - {order[0]};
  }
}
