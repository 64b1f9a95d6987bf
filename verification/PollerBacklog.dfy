/** Backlog budgets and order (src/ingestion/amm-poller.ts). Shares are in tenths. */
module PollerBacklog {
  import opened PollerPaging

  const PAGE_SIZE: nat := 20
  const MMM_BASE: nat := 10
  const DEPTH_ESCALATE_1: nat := 20
  const DEPTH_ESCALATE_2: nat := 60
  const AGE_ESCALATE_1_MS: int := 30000
  const AGE_ESCALATE_2_MS: int := 120000

  datatype Item = Item(sig: string, enqueuedAt: int)

  function BaseBudget(mmm: bool): nat { if mmm then MMM_BASE else PAGE_SIZE }

  function ReserveShare(depth: nat, age: int): nat {
    if depth == 0 then 0
    else if depth >= DEPTH_ESCALATE_2 || age >= AGE_ESCALATE_2_MS then 10
    else if depth >= DEPTH_ESCALATE_1 || age >= AGE_ESCALATE_1_MS then 5
    else 3
  }

  function SyncBudget(mmm: bool, depth: nat, age: int, pageLen: nat): nat {
    var base := BaseBudget(mmm);
    if depth >= DEPTH_ESCALATE_2 || age >= AGE_ESCALATE_2_MS then pageLen
    else if depth >= DEPTH_ESCALATE_1 || age >= AGE_ESCALATE_1_MS then Min(pageLen, 2 * base)
    else Min(pageLen, base)
  }

  /** The age the scheduler sees: 0 without a backlog. */
  function OldestAge(backlog: seq<Item>, now: int): int {
    if |backlog| == 0 then 0 else now - backlog[0].enqueuedAt
  }

  /** Rounded half up, and never more than there is. */
  function BacklogBudget(mmm: bool, backlog: seq<Item>, now: int, pageLen: nat): (n: nat)
    ensures n <= |backlog|
  {
    var depth, age := |backlog|, OldestAge(backlog, now);
    Min(depth, (SyncBudget(mmm, depth, age, pageLen) * ReserveShare(depth, age) + 5) / 10)
  }

  function FreshBudget(mmm: bool, backlog: seq<Item>, now: int, pageLen: nat): nat {
    var total := SyncBudget(mmm, |backlog|, OldestAge(backlog, now), pageLen);
    var reserve := BacklogBudget(mmm, backlog, now, pageLen);
    if reserve <= total then total - reserve else 0
  }

  ghost predicate Pressing(backlog: seq<Item>, now: int) {
    |backlog| >= DEPTH_ESCALATE_1 || OldestAge(backlog, now) >= AGE_ESCALATE_1_MS
  }

  /** The oldest item is dispatched exactly when the page has two rows, or has one and the
      backlog is deep or old. */
  lemma OldestDispatchedExactly(mmm: bool, backlog: seq<Item>, now: int, pageLen: nat)
    requires |backlog| > 0
    ensures BacklogBudget(mmm, backlog, now, pageLen) >= 1
            <==> pageLen >= 2 || (pageLen == 1 && Pressing(backlog, now))
  {
  }

  /** Three tenths of every sweep, rounded, are the backlog's, half of a doubled sweep once it
      presses, and a whole page under full pressure, unless fewer items wait; the rest is for
      fresh signatures, and the sweep is never more than its page. */
  lemma GuaranteedShare(mmm: bool, backlog: seq<Item>, now: int, pageLen: nat)
    ensures var total := SyncBudget(mmm, |backlog|, OldestAge(backlog, now), pageLen);
            var reserve := BacklogBudget(mmm, backlog, now, pageLen);
            && reserve + FreshBudget(mmm, backlog, now, pageLen) == total <= pageLen
            && (reserve == |backlog| || 10 * reserve + 5 > 3 * total)
            && (Pressing(backlog, now) ==> reserve == |backlog| || 2 * reserve >= total)
            && (Pressing(backlog, now) ==> total >= Min(pageLen, 2 * BaseBudget(mmm)))
            && (!Pressing(backlog, now) ==> total == Min(pageLen, BaseBudget(mmm)))
            && (|backlog| >= DEPTH_ESCALATE_2 ==> reserve == Min(|backlog|, pageLen))
  {
  }

  /** The sweep is the base budget, twice that once the backlog presses, and the whole page under
      full pressure, but never more than the page. Of it the backlog gets three tenths, a half, or
      all, to the nearest whole number (half up), but never more than waits; fresh rows get the
      rest. */
  lemma BudgetExactly(mmm: bool, backlog: seq<Item>, now: int, pageLen: nat)
    requires |backlog| > 0
    ensures var waited := now - backlog[0].enqueuedAt;
            var full, half := |backlog| >= 60 || waited >= 120000, |backlog| >= 20 || waited >= 30000;
            var base := if mmm then 10 else 20;
            var total := if full || (half && pageLen <= 2 * base) || pageLen <= base then pageLen else if half then 2 * base else base;
            var tenths := if full then 10 else if half then 5 else 3;
            var reserve := BacklogBudget(mmm, backlog, now, pageLen);
            && reserve + FreshBudget(mmm, backlog, now, pageLen) == total
            && 10 * reserve <= tenths * total + 5
            && reserve <= |backlog| && (reserve < |backlog| ==> tenths * total - 5 < 10 * reserve)
  {
  }

  /** Without a backlog the sweep is the base budget, or the page when that is shorter. */
  lemma FreshOnly(mmm: bool, now: int, pageLen: nat)
    ensures BacklogBudget(mmm, [], now, pageLen) == 0
    ensures FreshBudget(mmm, [], now, pageLen) == Min(pageLen, if mmm then 10 else 20)
  {
  }

  /** A backlog that grows or ages never gets a smaller sweep or a smaller part of it. */
  lemma PressureOnlyRaises(mmm: bool, a: seq<Item>, b: seq<Item>, now: int, later: int, pageLen: nat)
    requires |a| <= |b| && OldestAge(a, now) <= OldestAge(b, later)
    ensures SyncBudget(mmm, |a|, OldestAge(a, now), pageLen) <= SyncBudget(mmm, |b|, OldestAge(b, later), pageLen)
    ensures BacklogBudget(mmm, a, now, pageLen) <= BacklogBudget(mmm, b, later, pageLen)
  {
  }

  // ---- Order --------------------------------------------------------------------------------

  ghost predicate OldestFirst(queue: seq<Item>, clock: int) {
    && (forall i, j :: 0 <= i < j < |queue| ==> queue[i].enqueuedAt <= queue[j].enqueuedAt)
    && forall i :: 0 <= i < |queue| ==> queue[i].enqueuedAt <= clock
  }

  /** The first slot behind everything that is at most as old. */
  function Slot(queue: seq<Item>, at: int): (i: nat)
    ensures i <= |queue|
    ensures forall k :: 0 <= k < i ==> queue[k].enqueuedAt <= at
    ensures i < |queue| ==> queue[i].enqueuedAt > at
  {
    if |queue| == 0 || queue[0].enqueuedAt > at then 0 else 1 + Slot(queue[1..], at)
  }

  function Requeued(queue: seq<Item>, item: Item): seq<Item> {
    var i := Slot(queue, item.enqueuedAt);
    queue[..i] + [item] + queue[i..]
  }

  method RequeueOldestFirst(queue: seq<Item>, item: Item) returns (r: seq<Item>)
    ensures r == Requeued(queue, item)
  {
    var i := 0;
    while i < |queue| && queue[i].enqueuedAt <= item.enqueuedAt
      invariant 0 <= i <= |queue| && Slot(queue, item.enqueuedAt) == i + Slot(queue[i..], item.enqueuedAt)
    {
      assert queue[i..][1..] == queue[i + 1..];
      i := i + 1;
    }
    return queue[..i] + [item] + queue[i..];
  }

  /** Items of one overflow batch, given newest first, as queued: oldest first. */
  function Enqueued(overflow: seq<string>, now: int): (r: seq<Item>)
    ensures |r| == |overflow|
    ensures forall i :: 0 <= i < |r| ==> r[i] == Item(overflow[|overflow| - 1 - i], now)
  {
    seq(|overflow|, i requires 0 <= i < |overflow| => Item(overflow[|overflow| - 1 - i], now))
  }

  lemma RequeueSorted(queue: seq<Item>, item: Item, clock: int)
    requires OldestFirst(queue, clock) && item.enqueuedAt <= clock
    ensures OldestFirst(Requeued(queue, item), clock)
  {
    hide Slot;
    var i, r := Slot(queue, item.enqueuedAt), Requeued(queue, item);
    forall k | i <= k < |queue| ensures queue[k].enqueuedAt >= item.enqueuedAt {
      assert queue[i].enqueuedAt <= queue[k].enqueuedAt;
    }
    forall a | 0 <= a < |r| ensures r[a] == if a < i then queue[a] else if a == i then item else queue[a - 1] {}
  }

  lemma PushSorted(queue: seq<Item>, overflow: seq<string>, clock: int, now: int)
    requires OldestFirst(queue, clock) && clock <= now
    ensures OldestFirst(queue + Enqueued(overflow, now), now)
  {
  }

  lemma PopSorted(queue: seq<Item>, n: nat, clock: int)
    requires OldestFirst(queue, clock) && n <= |queue|
    ensures OldestFirst(queue[n..], clock)
  {
  }

  /** An item keeps its place against everything at least as young that is put back, and loses
      one place to an older one. */
  lemma RequeueBehind(queue: seq<Item>, item: Item, p: nat, clock: int)
    requires OldestFirst(queue, clock) && p < |queue|
    ensures var q := if item.enqueuedAt >= queue[p].enqueuedAt then p else p + 1;
            q < |Requeued(queue, item)| && Requeued(queue, item)[q] == queue[p]
  {
    var i := Slot(queue, item.enqueuedAt);
    if item.enqueuedAt >= queue[p].enqueuedAt {
      forall k | 0 <= k <= p ensures queue[k].enqueuedAt <= item.enqueuedAt {}
    }
  }
}
