/** The enrichment slot pool and its watchdog (src/enrichment/enrich.ts). Every method is
    one synchronous stretch of the original; what `Valid` says holds in every run. */
module EnrichPool {

  const MAX_CONCURRENT: nat := 8
  const MAX_QUEUED: nat := 12

  /** A caller waits, runs under the watchdog, has settled but not yet run its `finally`,
      has given its slot back, or was dropped at a full queue. */
  datatype Caller = Waiting | Running | Settling | Released | Dropped

  ghost predicate HoldsSlot(c: Caller) { c.Running? || c.Settling? }

  ghost function Holders(callers: seq<Caller>): nat {
    if |callers| == 0 then 0
    else Holders(callers[..|callers| - 1]) + if HoldsSlot(callers[|callers| - 1]) then 1 else 0
  }

  lemma {:induction false} HoldersAfter(callers: seq<Caller>, id: nat, c: Caller)
    requires id < |callers|
    ensures Holders(callers[id := c]) ==
            Holders(callers) - (if HoldsSlot(callers[id]) then 1 else 0) + if HoldsSlot(c) then 1 else 0
  {
    var n := |callers| - 1;
    if id < n {
      HoldersAfter(callers[..n], id, c);
      assert callers[id := c][..n] == callers[..n][id := c];
    } else {
      assert callers[id := c][..n] == callers[..n];
    }
  }

  /** The queue lists the waiting callers, oldest first. */
  ghost predicate ListsWaiting(queue: seq<nat>, callers: seq<Caller>) {
    && (forall i :: 0 <= i < |queue| ==> queue[i] < |callers| && callers[queue[i]].Waiting?)
    && (forall i, j :: 0 <= i < j < |queue| ==> queue[i] < queue[j])
    && (forall id :: 0 <= id < |callers| && callers[id].Waiting? ==> id in queue)
  }

  /** A watchdog's flag is set from the first settlement on. */
  ghost predicate FlagsAgree(settled: set<nat>, callers: seq<Caller>) {
    forall id: nat :: id in settled <==> id < |callers| && (callers[id].Settling? || callers[id].Released?)
  }

  lemma HoldersOfArrival(callers: seq<Caller>, c: Caller)
    ensures Holders(callers + [c]) == Holders(callers) + if HoldsSlot(c) then 1 else 0
  {
    assert (callers + [c])[..|callers|] == callers;
  }

  lemma FlagsOfArrival(settled: set<nat>, callers: seq<Caller>, c: Caller)
    requires FlagsAgree(settled, callers) && !c.Settling? && !c.Released?
    ensures FlagsAgree(settled, callers + [c])
  {
  }

  lemma ArrivesWaiting(queue: seq<nat>, callers: seq<Caller>)
    requires ListsWaiting(queue, callers)
    ensures ListsWaiting(queue + [|callers|], callers + [Waiting])
  {
    var longer := queue + [|callers|];
    assert longer[|queue|] == |callers|;
    forall id | 0 <= id <= |callers| && (callers + [Waiting])[id].Waiting? ensures id in longer {
      if id < |callers| { assert callers[id].Waiting?; }
    }
  }

  lemma ArrivesOtherwise(queue: seq<nat>, callers: seq<Caller>, c: Caller)
    requires ListsWaiting(queue, callers) && !c.Waiting?
    ensures ListsWaiting(queue, callers + [c])
  {
  }

  /** A change of a caller that neither starts nor ends a wait. */
  lemma Progresses(queue: seq<nat>, callers: seq<Caller>, id: nat, c: Caller)
    requires ListsWaiting(queue, callers) && id < |callers| && !callers[id].Waiting? && !c.Waiting?
    ensures ListsWaiting(queue, callers[id := c])
  {
  }

  lemma HeadLeaves(queue: seq<nat>, callers: seq<Caller>)
    requires ListsWaiting(queue, callers) && |queue| > 0
    ensures ListsWaiting(queue[1..], callers[queue[0] := Running])
  {
    assert queue == [queue[0]] + queue[1..];
  }

  /** Handing the slot to the head of the queue. */
  ghost function HandOver(queue: seq<nat>, callers: seq<Caller>): seq<Caller> {
    if |queue| > 0 && queue[0] < |callers| then callers[queue[0] := Running] else callers
  }

  class EnrichSlots {
    var activeEnriches: int
    var queuedEnriches: int
    var skippedEnriches: nat
    var watchdogTrips: nat
    var enrichQueue: seq<nat>
    var settled: set<nat>               // the `settled` flag of each watchdog

    var calls: nat                      // stands for promise identity
    ghost var callers: seq<Caller>

    ghost predicate Valid()
      reads this
    {
      && calls == |callers|
      && activeEnriches == Holders(callers) <= MAX_CONCURRENT
      && queuedEnriches == |enrichQueue| <= MAX_QUEUED
      && (|enrichQueue| > 0 ==> activeEnriches == MAX_CONCURRENT)
      && ListsWaiting(enrichQueue, callers)
      && FlagsAgree(settled, callers)
    }

    constructor ()
      ensures Valid() && callers == []
    {
      activeEnriches, queuedEnriches, skippedEnriches, watchdogTrips := 0, 0, 0, 0;
      enrichQueue, settled, calls, callers := [], {}, 0, [];
    }

    /** What becomes of the next arrival. */
    ghost function Fate(): Caller
      reads this
    {
      if activeEnriches < MAX_CONCURRENT then Running
      else if |enrichQueue| >= MAX_QUEUED then Dropped
      else Waiting
    }

    /** A free slot is taken at once; a full queue drops the caller. */
    method AcquireEnrichSlot() returns (id: nat)
      requires Valid()
      modifies this
      ensures Valid() && id == old(calls)
      ensures callers == old(callers) + [old(Fate())]
      ensures old(Fate()) == if Holders(old(callers)) < 8 then Running else if |old(enrichQueue)| < 12 then Waiting else Dropped
      ensures enrichQueue == old(enrichQueue) + if old(Fate()).Waiting? then [id] else []
      ensures skippedEnriches == old(skippedEnriches) + if old(Fate()).Dropped? then 1 else 0
    {
      hide Holders, FlagsAgree, ListsWaiting;
      ghost var was, c := callers, Fate();
      HoldersOfArrival(was, c);
      FlagsOfArrival(settled, was, c);
      id := calls;
      calls := calls + 1;
      callers := callers + [c];
      if activeEnriches < MAX_CONCURRENT {
        ArrivesOtherwise(enrichQueue, was, Running);
        activeEnriches := activeEnriches + 1;
      } else if queuedEnriches >= MAX_QUEUED {
        ArrivesOtherwise(enrichQueue, was, Dropped);
        skippedEnriches := skippedEnriches + 1;
      } else {
        ArrivesWaiting(enrichQueue, was);
        queuedEnriches := queuedEnriches + 1;
        enrichQueue := enrichQueue + [id];
      }
    }

    /** The enrichment settles, or the watchdog fires: whichever comes first counts. */
    method Settle(id: nat, byWatchdog: bool)
      requires Valid() && id < |callers| && (HoldsSlot(callers[id]) || callers[id].Released?)
      modifies this
      ensures Valid() && enrichQueue == old(enrichQueue) && activeEnriches == old(activeEnriches)
      ensures callers == if old(callers)[id].Running? then old(callers)[id := Settling] else old(callers)
      ensures watchdogTrips == old(watchdogTrips) + if byWatchdog && old(callers)[id].Running? then 1 else 0
    {
      if id in settled { return; }
      settled := settled + {id};
      if byWatchdog { watchdogTrips := watchdogTrips + 1; }
      HoldersAfter(callers, id, Settling);
      Progresses(enrichQueue, callers, id, Settling);
      callers := callers[id := Settling];
    }

    /** The `finally` of a settled enrichment: one release, handed to the oldest waiter. */
    method ReleaseEnrichSlot(id: nat)
      requires Valid() && id < |callers| && callers[id].Settling?
      modifies this
      ensures Valid()
      ensures callers == HandOver(old(enrichQueue), old(callers)[id := Released])
      ensures enrichQueue == if |old(enrichQueue)| > 0 then old(enrichQueue)[1..] else []
    {
      HoldersAfter(callers, id, Released);
      Progresses(enrichQueue, callers, id, Released);
      callers := callers[id := Released];
      activeEnriches := activeEnriches - 1;
      if |enrichQueue| > 0 {
        var next := enrichQueue[0];
        HoldersAfter(callers, next, Running);
        HeadLeaves(enrichQueue, callers);
        callers := callers[next := Running];
        enrichQueue := enrichQueue[1..];
        queuedEnriches := queuedEnriches - 1;
        activeEnriches := activeEnriches + 1;
      }
    }
  }
}
