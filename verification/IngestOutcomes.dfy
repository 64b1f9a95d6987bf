/** Outcomes of ingesting one signature (src/ingestion/ingest-outcome.ts), the memory of
    terminal ones (src/ingestion/sig-terminal.ts) and the deferred dispatch of MMM
    signatures (src/ingestion/mmm-prefilter.ts). */
module IngestOutcomes {
  import opened Options
  import opened InsertionOrder

  datatype IngestOutcome = Inserted | Duplicate | ConfirmedIrrelevant | RetryableError

  predicate IsTerminalSafe(outcome: IngestOutcome) { outcome != RetryableError }

  // ---- What one dispatch reports ---------------------------------------------------------

  /** What the dispatcher can find out about a signature when it reaches it. `answer` is the
      result of the real fetch and parse, None when that threw. `stopped` says that the mode
      went off or changed during the deferral. */
  datatype Evidence = Evidence(wsNonSale: bool, known: Option<IngestOutcome>, stopped: bool,
                               recentlyFetched: bool, lateNonSale: bool, answer: Option<IngestOutcome>)

  function DeferredOutcome(e: Evidence): IngestOutcome {
    if e.stopped then RetryableError
    else if e.recentlyFetched then Duplicate
    else if e.lateNonSale then ConfirmedIrrelevant
    else e.answer.GetOr(RetryableError)
  }

  function ItemOutcome(e: Evidence, mmmLean: bool): IngestOutcome {
    if e.wsNonSale then ConfirmedIrrelevant
    else if e.known.Some? then e.known.value
    else if mmmLean then DeferredOutcome(e)
    else e.answer.GetOr(RetryableError)
  }

  /** The sources of a verdict speak the truth about `settled`, and the memory of terminal
      outcomes holds nothing retryable. A recent fetch proves nothing: it may still be under
      way, or have come to nothing. */
  predicate Truthful(e: Evidence, settled: bool) {
    && (e.wsNonSale || e.lateNonSale ==> settled)
    && (e.known.Some? ==> IsTerminalSafe(e.known.value) && settled)
    && (e.answer.Some? && IsTerminalSafe(e.answer.value) ==> settled)
  }

  /** The deferred path calls the signature a duplicate because somebody fetches it. */
  predicate DuplicateOnFetch(e: Evidence, mmmLean: bool) {
    mmmLean && !e.wsNonSale && e.known.None? && !e.stopped && e.recentlyFetched
  }

  /** A signature that is not settled is reported terminal exactly when the deferred path finds
      that it was fetched. A stopped deferral, a thrown fetch and a retryable answer are never
      mistaken for a verdict. */
  lemma TerminalMeansSettled(e: Evidence, mmmLean: bool, settled: bool)
    requires Truthful(e, settled)
    ensures IsTerminalSafe(ItemOutcome(e, mmmLean)) && !settled <==> DuplicateOnFetch(e, mmmLean) && !settled
    ensures DuplicateOnFetch(e, mmmLean) ==> ItemOutcome(e, mmmLean) == Duplicate
    ensures !e.wsNonSale && e.known.None? && mmmLean && e.stopped ==> !IsTerminalSafe(ItemOutcome(e, mmmLean))
  {
  }

  /** Neither a verdict nor the deferral stands in the way of the real fetch. */
  ghost predicate IsFetched(e: Evidence, mmmLean: bool) {
    && !e.wsNonSale && e.known.None?
    && (mmmLean ==> !e.stopped && !e.recentlyFetched && !e.lateNonSale)
  }

  /** Where each outcome comes from. Only a fetch, or the memory of one, says that a sale was
      inserted; only these, a stopped deferral and a fetch that threw say that it must be retried. */
  lemma OutcomeSources(e: Evidence, mmmLean: bool)
    ensures var o := ItemOutcome(e, mmmLean);
            var deferred := mmmLean && !e.wsNonSale && e.known.None?;
            && (o == Inserted <==> (!e.wsNonSale && e.known == Some(Inserted)) || (IsFetched(e, mmmLean) && e.answer == Some(Inserted)))
            && (o == Duplicate <==>
                  || (!e.wsNonSale && e.known == Some(Duplicate)) || (IsFetched(e, mmmLean) && e.answer == Some(Duplicate))
                  || (deferred && !e.stopped && e.recentlyFetched))
            && (o == ConfirmedIrrelevant <==>
                  || e.wsNonSale || e.known == Some(ConfirmedIrrelevant)
                  || (IsFetched(e, mmmLean) && e.answer == Some(ConfirmedIrrelevant))
                  || (deferred && !e.stopped && !e.recentlyFetched && e.lateNonSale))
            && (o == RetryableError <==>
                  || (!e.wsNonSale && e.known == Some(RetryableError)) || (deferred && e.stopped)
                  || (IsFetched(e, mmmLean) && (e.answer.None? || e.answer == Some(RetryableError))))
  {
  }

  // ---- The memory of terminal outcomes ----------------------------------------------------

  const TTL_MS: int := 1800000
  const MAX_TERMINAL: nat := 100000

  datatype Entry = Entry(outcome: IngestOutcome, exp: int)

  class SigTerminal {
    var terminal: map<string, Entry>
    var order: seq<string>                                   // insertion order of the map
    ghost var noted: map<string, Entry>                      // the last terminal verdict of each signature
    ghost var dropped: set<string>                           // dropped at the cap since then
    ghost var clock: int

    ghost predicate Valid()
      reads this
    {
      && Listed(terminal.Keys, order) && |terminal| <= MAX_TERMINAL
      && (forall s :: s in terminal ==> s in noted && s !in dropped && terminal[s] == noted[s])
      && (forall s :: s in noted ==> IsTerminalSafe(noted[s].outcome))
      && (forall s :: s in noted && s !in dropped && noted[s].exp >= clock ==> s in terminal)
    }

    constructor ()
      ensures Valid() && noted == map[] && dropped == {} && clock == 0
    {
      terminal, order, noted, dropped, clock := map[], [], map[], {}, 0;
    }

    /** Drops what has expired. */
    method PurgeExpired(now: int)
      requires Valid() && now >= clock
      modifies this`terminal, this`order, this`clock
      ensures Valid() && clock == now
      ensures forall s :: s in terminal <==> s in old(terminal) && old(terminal)[s].exp >= now
      ensures order == Unexpired(old(order), old(terminal), now)
    {
      hide Listed, Unique, IsTerminalSafe, Unexpired;
      var live, kept := Purged(terminal, order, now);
      terminal, order, clock := live, kept, now;
    }

    /** Records a terminal verdict; a retryable one is never stored. */
    method NoteIngestOutcome(sig: string, outcome: IngestOutcome, now: int)
      requires Valid() && now >= clock
      modifies this
      ensures Valid()
      ensures outcome == RetryableError ==> noted == old(noted) && dropped == old(dropped) && terminal == old(terminal)
      ensures outcome != RetryableError ==>
                && noted == old(noted)[sig := Entry(outcome, now + TTL_MS)]
                && sig in terminal && clock == now
                && dropped == old(dropped) + Overflow(old(terminal), old(order), now) - {sig}
    {
      if outcome == RetryableError { return; }
      hide Listed, IsTerminalSafe, Overflow;
      MakeRoom(now);
      clock := now;
      SetEntry(sig, Entry(outcome, now + TTL_MS));
    }

    /** At the cap, what has expired goes first, and the oldest entry if that is not enough. */
    method MakeRoom(now: int)
      requires Valid() && now >= clock
      modifies this`terminal, this`order, this`dropped, this`clock
      ensures Valid() && |terminal| < MAX_TERMINAL && clock <= now
      ensures dropped == old(dropped) + Overflow(old(terminal), old(order), now)
    {
      hide Listed, Unique, IsTerminalSafe, Unexpired;
      if |terminal| >= MAX_TERMINAL {
        PurgeExpired(now);
        ListedCount(terminal.Keys, order);
        if |terminal| >= MAX_TERMINAL { DropOldest(); }
      }
    }

    method DropOldest()
      requires Valid() && |terminal| >= MAX_TERMINAL
      modifies this`terminal, this`order, this`dropped
      ensures Valid() && |terminal| < MAX_TERMINAL
      ensures |old(order)| > 0 && dropped == old(dropped) + {old(order)[0]}
    {
      hide Listed, Unique, IsTerminalSafe;
      HeadListed(terminal, order);
      terminal, order, dropped := terminal - {order[0]}, order[1..], dropped + {order[0]};
    }

    method SetEntry(sig: string, entry: Entry)
      requires Valid() && |terminal| < MAX_TERMINAL && IsTerminalSafe(entry.outcome)
      modifies this`terminal, this`order, this`noted, this`dropped
      ensures Valid() && sig in terminal
      ensures noted == old(noted)[sig := entry] && dropped == old(dropped) - {sig}
    {
      hide Listed, Unique, IsTerminalSafe;
      AddListed(terminal, order, sig, entry);
      if sig !in terminal { order := order + [sig]; }
      terminal := terminal[sig := entry];
      noted, dropped := noted[sig := entry], dropped - {sig};
    }

    /** Under a clock that does not go back, a verdict is recalled if and only if one was noted
        at most TTL_MS ago and not dropped at the cap; it is the last one noted. */
    method TerminalOutcome(sig: string, now: int) returns (r: Option<IngestOutcome>)
      requires Valid() && now >= clock
      modifies this`terminal, this`order, this`clock
      ensures Valid() && clock == now
      ensures r.Some? <==> sig in noted && sig !in dropped && now <= noted[sig].exp
      ensures r.Some? ==> r.value == noted[sig].outcome && IsTerminalSafe(r.value)
    {
      clock := now;
      if sig !in terminal { return None; }
      var e := terminal[sig];
      if now > e.exp {
        Fewer(terminal, sig);
        DropOne(terminal.Keys, order, sig);
        terminal, order := terminal - {sig}, Without(order, sig);
        return None;
      }
      return Some(e.outcome);
    }
  }

  lemma Fewer(m: map<string, Entry>, s: string)
    requires s in m
    ensures |m - {s}| == |m| - 1
  {
    assert (m - {s}).Keys == m.Keys - {s};
  }

  /** The loop of the purge: the live entries and their order. */
  method Purged(terminal: map<string, Entry>, order: seq<string>, now: int)
    returns (live: map<string, Entry>, kept: seq<string>)
    requires Listed(terminal.Keys, order)
    ensures Listed(live.Keys, kept) && |live| <= |terminal| && kept == Unexpired(order, terminal, now)
    ensures forall s :: s in live <==> s in terminal && terminal[s].exp >= now
    ensures forall s :: s in live ==> live[s] == terminal[s]
  {
    hide Listed;
    live, kept := terminal, [];
    var i := 0;
    while i < |order|
      invariant 0 <= i <= |order|
      invariant kept == Unexpired(order[..i], terminal, now)
      invariant forall s :: s in live <==> s in terminal && (s in order[..i] ==> terminal[s].exp >= now)
      invariant forall s :: s in live ==> live[s] == terminal[s]
    {
      assert order[..i + 1] == order[..i] + [order[i]] && (order[..i + 1])[..i] == order[..i];
      if order[i] in terminal && terminal[order[i]].exp < now {
        live := live - {order[i]};
      } else {
        kept := kept + [order[i]];
      }
      i := i + 1;
    }
    assert order[..i] == order;
    UnexpiredListed(terminal, order, live, now);
    Fewest(live.Keys, terminal.Keys);
  }

  lemma AddListed(m: map<string, Entry>, order: seq<string>, s: string, e: Entry)
    requires Listed(m.Keys, order)
    ensures Listed(m[s := e].Keys, if s in m then order else order + [s])
    ensures |m[s := e]| <= |m| + 1
  {
    AddLast(m.Keys, order, s);
    hide Listed;
    assert m[s := e].Keys == m.Keys + {s};
  }

  lemma HeadListed(m: map<string, Entry>, order: seq<string>)
    requires Listed(m.Keys, order) && |m| > 0
    ensures |order| > 0 && order[0] in m
    ensures Listed((m - {order[0]}).Keys, order[1..]) && |m - {order[0]}| == |m| - 1
  {
    ListedCount(m.Keys, order);
    DropFirst(m.Keys, order);
    hide Listed;
    Fewer(m, order[0]);
    assert (m - {order[0]}).Keys == m.Keys - {order[0]};
  }

  lemma {:induction false} Fewest(a: set<string>, b: set<string>)
    requires a <= b
    ensures |a| <= |b|
  {
    if a != {} {
      var s :| s in a;
      Fewest(a - {s}, b - {s});
    }
  }

  function Unexpired(order: seq<string>, terminal: map<string, Entry>, now: int): (r: seq<string>)
    ensures forall s :: s in r <==> s in order && !(s in terminal && terminal[s].exp < now)
  {
    if |order| == 0 then []
    else
      var last := order[|order| - 1];
      Unexpired(order[..|order| - 1], terminal, now) + if last in terminal && terminal[last].exp < now then [] else [last]
  }

  /** What a new verdict drops: at the cap, the oldest entry that has not expired, if the purge
      leaves no room. */
  ghost function Overflow(terminal: map<string, Entry>, order: seq<string>, now: int): set<string> {
    var live := Unexpired(order, terminal, now);
    if |terminal| >= MAX_TERMINAL && |live| >= MAX_TERMINAL then {live[0]} else {}
  }

  lemma {:induction false} UnexpiredDistinct(order: seq<string>, terminal: map<string, Entry>, now: int)
    requires Unique(order)
    ensures Unique(Unexpired(order, terminal, now))
  {
    if |order| > 0 {
      UnexpiredDistinct(order[..|order| - 1], terminal, now);
      assert order[|order| - 1] !in order[..|order| - 1];
    }
  }

  lemma UnexpiredListed(terminal: map<string, Entry>, order: seq<string>, live: map<string, Entry>, now: int)
    requires Listed(terminal.Keys, order)
    requires forall s :: s in live <==> s in terminal && (s in order ==> terminal[s].exp >= now)
    ensures Listed(live.Keys, Unexpired(order, terminal, now))
    ensures forall s :: s in live <==> s in terminal && terminal[s].exp >= now
  {
    forall s | s in terminal ensures s in order { assert s in terminal.Keys; }
    forall s | s in order ensures s in terminal { assert s in terminal.Keys; }
    UnexpiredDistinct(order, terminal, now);
  }
}
