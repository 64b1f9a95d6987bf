/** Ownership loops: a buyer who sold the same mint shortly before
    (src/enrichment/ownership-loop-cache.ts). */
module OwnershipLoops {
  import opened Options
  import opened Windows

  const WINDOW_MS: int := 604800000
  const MAX_HOPS: nat := 5
  const HIGH_CONFIDENCE_MS: int := 259200000
  const MAX_KEYS: nat := 50000
  const AMM_MARKETPLACES: set<string> := {"magic_eden_amm", "tensor_amm"}

  datatype Entry = Entry(wallet: string, ts: int)
  datatype Signal = Signal(high: bool, closedAfterMs: int, hopsAgo: nat)

  // ---- Trimming -----------------------------------------------------------------------------

  function Times(entries: seq<Entry>): (r: seq<int>)
    ensures |r| == |entries| && forall i :: 0 <= i < |r| ==> r[i] == entries[i].ts
  {
    seq(|entries|, i requires 0 <= i < |entries| => entries[i].ts)
  }

  /** Number of leading entries before the cutoff. */
  function Leading(entries: seq<Entry>, cutoff: int): (n: nat)
    ensures n <= |entries|
    ensures forall i :: 0 <= i < n ==> entries[i].ts < cutoff
    ensures n < |entries| ==> entries[n].ts >= cutoff
  {
    assert forall i :: 0 <= i < LeadingBefore(Times(entries), cutoff) ==> Times(entries)[i] < cutoff;
    LeadingBefore(Times(entries), cutoff)
  }

  function LastHops(entries: seq<Entry>): seq<Entry> {
    if |entries| > MAX_HOPS then entries[|entries| - MAX_HOPS..] else entries
  }

  function Trimmed(entries: seq<Entry>, referenceTs: int): seq<Entry> {
    LastHops(entries[Leading(entries, referenceTs - WINDOW_MS)..])
  }

  method Trim(entries: seq<Entry>, referenceTs: int) returns (r: seq<Entry>)
    ensures r == Trimmed(entries, referenceTs)
  {
    var cutoff, start := referenceTs - WINDOW_MS, 0;
    while start < |entries| && entries[start].ts < cutoff
      invariant 0 <= start <= |entries|
      invariant forall i :: 0 <= i < start ==> entries[i].ts < cutoff
    {
      start := start + 1;
    }
    LeadingIs(Times(entries), cutoff, start);
    var windowed := entries[start..];
    return if |windowed| > MAX_HOPS then windowed[|windowed| - MAX_HOPS..] else windowed;
  }

  // ---- The whole history ----------------------------------------------------------------------

  /** All sales of the history inside the window. */
  function InWindow(full: seq<Entry>, cutoff: int): seq<Entry> {
    if |full| == 0 then []
    else
      var last := full[|full| - 1];
      InWindow(full[..|full| - 1], cutoff) + if last.ts >= cutoff then [last] else []
  }

  /** The last sales of the whole history inside the window. */
  function Recent(full: seq<Entry>, now: int): seq<Entry> { LastHops(InWindow(full, now - WINDOW_MS)) }

  ghost predicate Ordered(full: seq<Entry>) {
    forall i, j :: 0 <= i < j < |full| ==> full[i].ts <= full[j].ts
  }

  lemma LeadingLess(full: seq<Entry>, cutoff: int)
    requires Ordered(full) && |full| > 0
    ensures var n, k := |full| - 1, Leading(full, cutoff);
            Leading(full[..n], cutoff) == (if k <= n then k else n) && (k <= n <==> full[n].ts >= cutoff)
  {
    var n, k := |full| - 1, Leading(full, cutoff);
    if k <= n { assert full[k].ts <= full[n].ts; }
    LeadingIs(Times(full[..n]), cutoff, if k <= n then k else n);
  }

  lemma {:induction false} WindowIsSuffix(full: seq<Entry>, cutoff: int)
    requires Ordered(full)
    ensures InWindow(full, cutoff) == full[Leading(full, cutoff)..]
  {
    hide Leading;
    if |full| > 0 {
      var n, k := |full| - 1, Leading(full, cutoff);
      WindowIsSuffix(full[..n], cutoff);
      LeadingLess(full, cutoff);
      if k <= n {
        assert full[..n][k..] + [full[n]] == full[k..];
      } else {
        assert full[..n][n..] == [] == full[k..];
      }
    }
  }

  /** Where the last hops of a suffix start. */
  function Start(n: nat, k: nat): nat { if n - k > MAX_HOPS then n - MAX_HOPS else k }

  function Later(a: nat, b: nat): nat { if a <= b then b else a }

  lemma HopsFrom(full: seq<Entry>, k: nat)
    requires k <= |full|
    ensures LastHops(full[k..]) == full[Start(|full|, k)..]
  {
  }

  lemma RecentIs(full: seq<Entry>, now: int)
    requires Ordered(full)
    ensures Recent(full, now) == full[Start(|full|, Leading(full, now - WINDOW_MS))..]
  {
    WindowIsSuffix(full, now - WINDOW_MS);
    HopsFrom(full, Leading(full, now - WINDOW_MS));
  }

  lemma TrimmedFrom(full: seq<Entry>, at: nat, now: int)
    requires Ordered(full) && at <= |full|
    ensures Trimmed(full[at..], now) == full[Start(|full|, Later(at, Leading(full, now - WINDOW_MS)))..]
  {
    hide LeadingBefore, LastHops;
    var cutoff := now - WINDOW_MS;
    var k := Leading(full, cutoff);
    var j := Later(at, k) - at;
    if at > k && at < |full| { assert full[k].ts <= full[at].ts; }
    LeadingIs(Times(full[at..]), cutoff, j);
    assert full[at..][j..] == full[Later(at, k)..];
    HopsFrom(full, Later(at, k));
  }

  /** Trimming what was kept at an earlier time gives what the whole history has now. */
  lemma TrimRecent(full: seq<Entry>, before: int, now: int)
    requires Ordered(full) && before <= now
    ensures Trimmed(Recent(full, before), now) == Recent(full, now)
  {
    hide Trimmed, Recent;
    RecentIs(full, before);
    RecentIs(full, now);
    LeadingGrows(full, before - WINDOW_MS, now - WINDOW_MS);
    TrimmedFrom(full, Start(|full|, Leading(full, before - WINDOW_MS)), now);
  }

  lemma LeadingGrows(full: seq<Entry>, a: int, b: int)
    requires a <= b
    ensures Leading(full, a) <= Leading(full, b)
  {
  }

  /** Recording a sale at the kept end is recording it in the whole history. */
  lemma RecordRecent(full: seq<Entry>, e: Entry)
    requires Ordered(full) && Ordered(full + [e])
    ensures Trimmed(Recent(full, e.ts) + [e], e.ts) == Recent(full + [e], e.ts)
  {
    hide Trimmed, Recent, LeadingBefore, Ordered;
    var longer, k := full + [e], Leading(full, e.ts - WINDOW_MS);
    RecentIs(full, e.ts);
    RecentIs(longer, e.ts);
    LeadingIs(Times(longer), e.ts - WINDOW_MS, k);
    assert full[Start(|full|, k)..] + [e] == longer[Start(|full|, k)..];
    TrimmedFrom(longer, Start(|full|, k), e.ts);
  }

  // ---- Searching ------------------------------------------------------------------------------

  predicate Matches(e: Entry, buyer: string, now: int) { e.wallet == buyer && e.ts <= now }

  function SearchBack(entries: seq<Entry>, buyer: string, now: int, hops: nat): Option<Signal>
    decreases |entries|
  {
    if |entries| == 0 then None
    else
      var e := entries[|entries| - 1];
      if Matches(e, buyer, now) then Some(Signal(now - e.ts <= HIGH_CONFIDENCE_MS, now - e.ts, hops + 1))
      else SearchBack(entries[..|entries| - 1], buyer, now, hops + 1)
  }

  /** A signal means that some sale matches, and describes the closest one. */
  lemma {:induction false} SearchExactly(entries: seq<Entry>, buyer: string, now: int, hops: nat)
    ensures var r := SearchBack(entries, buyer, now, hops);
            && (r.Some? <==> exists j :: 0 <= j < |entries| && entries[j].wallet == buyer && entries[j].ts <= now)
            && (r.Some? ==>
                  var j := |entries| - (r.value.hopsAgo - hops);
                  && 0 <= j < |entries| && entries[j].wallet == buyer
                  && (forall i :: j < i < |entries| ==> entries[i].wallet != buyer || entries[i].ts > now)
                  && r.value.closedAfterMs == now - entries[j].ts >= 0
                  && (r.value.high <==> r.value.closedAfterMs <= HIGH_CONFIDENCE_MS))
    decreases |entries|
  {
    if |entries| > 0 && !Matches(entries[|entries| - 1], buyer, now) {
      SearchExactly(entries[..|entries| - 1], buyer, now, hops + 1);
    }
  }

  /** What a sale says about the whole history before it. */
  function Expected(full: seq<Entry>, seller: string, buyer: string, now: int): Option<Signal> {
    if buyer == seller then Some(Signal(true, 0, 0)) else SearchBack(Recent(full, now), buyer, now, 0)
  }

  method FindLoop(existing: seq<Entry>, buyer: string, now: int) returns (r: Option<Signal>)
    ensures r == SearchBack(existing, buyer, now, 0)
  {
    var i := |existing|;
    assert existing[..i] == existing;
    while i > 0
      invariant 0 <= i <= |existing|
      invariant SearchBack(existing, buyer, now, 0) == SearchBack(existing[..i], buyer, now, |existing| - i)
    {
      i := i - 1;
      var e := existing[i];
      assert existing[..i + 1][..i] == existing[..i];
      if e.wallet != buyer { continue; }
      var closedAfterMs := now - e.ts;
      if closedAfterMs < 0 { continue; }
      return Some(Signal(closedAfterMs <= HIGH_CONFIDENCE_MS, closedAfterMs, |existing| - i));
    }
    return None;
  }

  // ---- The cache ------------------------------------------------------------------------------

  /** What is kept for a mint is the recent end of its whole history. */
  ghost predicate Kept(full: seq<Entry>, kept: seq<Entry>) {
    Ordered(full) && kept == if |full| == 0 then [] else Recent(full, full[|full| - 1].ts)
  }

  ghost function HistoryOf(m: map<string, seq<Entry>>, mint: string): seq<Entry> {
    if mint in m then m[mint] else []
  }

  ghost predicate AllKept(full: map<string, seq<Entry>>, history: map<string, seq<Entry>>, approximate: set<string>) {
    forall mint :: mint !in approximate ==> Kept(HistoryOf(full, mint), HistoryOf(history, mint))
  }

  lemma RecordKeeps(full: map<string, seq<Entry>>, history: map<string, seq<Entry>>, approximate: set<string>,
                    mint: string, was: seq<Entry>, kept: seq<Entry>)
    requires AllKept(full, history, approximate) && (mint in approximate || Kept(was, kept))
    ensures AllKept(full[mint := was], history[mint := kept], approximate)
  {
    hide Kept;
  }

  lemma KeptOf(full: map<string, seq<Entry>>, history: map<string, seq<Entry>>, approximate: set<string>, mint: string)
    requires AllKept(full, history, approximate) && mint !in approximate
    ensures Kept(HistoryOf(full, mint), HistoryOf(history, mint))
  {
  }

  lemma DropOldestKeeps(full: map<string, seq<Entry>>, history: map<string, seq<Entry>>, approximate: set<string>, mint: string)
    requires AllKept(full, history, approximate)
    ensures AllKept(full, history - {mint}, approximate + {mint})
  {
    hide Kept;
  }

  lemma ForgetKeeps(full: map<string, seq<Entry>>, history: map<string, seq<Entry>>, approximate: set<string>, mint: string)
    requires AllKept(full, history, approximate)
    ensures AllKept(full, history, approximate + {mint})
  {
    hide Kept;
  }

  lemma KeptThen(full: seq<Entry>, kept: seq<Entry>, now: int)
    requires Kept(full, kept) && (|full| > 0 ==> full[|full| - 1].ts <= now)
    ensures Trimmed(kept, now) == Recent(full, now)
  {
    if |full| > 0 { TrimRecent(full, full[|full| - 1].ts, now); }
  }

  lemma KeptAfter(full: seq<Entry>, e: Entry)
    requires Ordered(full) && (|full| > 0 ==> full[|full| - 1].ts <= e.ts)
    ensures Kept(full + [e], Trimmed(Recent(full, e.ts) + [e], e.ts))
  {
    var longer := full + [e];
    forall i, j | 0 <= i < j < |longer| ensures longer[i].ts <= longer[j].ts {
      if j == |full| && i < |full| - 1 { assert full[i].ts <= full[|full| - 1].ts; }
    }
    RecordRecent(full, e);
  }

  class OwnershipCache {
    var history: map<string, seq<Entry>>
    var order: seq<string>
    ghost var full: map<string, seq<Entry>>         // every sale ever recorded
    ghost var approximate: set<string>              // mints evicted at the cap, or sold out of time order

    ghost predicate Valid()
      reads this
    {
      && AllKept(full, history, approximate)
      && (forall mint :: mint in history ==> mint in order)
    }

    constructor ()
      ensures Valid() && full == map[] && approximate == {}
    {
      history, order, full, approximate := map[], [], map[], {};
    }

    predicate Ignored(mint: string, seller: string, buyer: string, marketplace: string, blockTimeMs: Option<int>) {
      mint == "" || marketplace in AMM_MARKETPLACES || seller == "" || buyer == "" || blockTimeMs.None?
    }

    /** Makes room for a new mint. */
    method EvictOldest(mint: string)
      requires Valid()
      modifies this`history, this`order, this`approximate
      ensures Valid() && mint in order
      ensures HistoryOf(history, mint) == HistoryOf(old(history), mint)
      ensures mint in old(history) || |old(history)| < MAX_KEYS ==> approximate == old(approximate)
      ensures mint in approximate ==> mint in old(approximate) || mint !in old(history)
    {
      hide Kept, AllKept;
      if mint !in history {
        if |history| >= MAX_KEYS && |order| > 0 {
          var oldest := order[0];
          assert order == [oldest] + order[1..];
          DropOldestKeeps(full, history, approximate, oldest);
          history, order := history - {oldest}, order[1..];
          approximate := approximate + {oldest};
        }
        order := order + [mint];
      }
    }

    /** The signal is what a search of the last five in-window sales of the whole history of
        the mint finds, for every mint that was sold in time order and never evicted. */
    method CheckAndRecordOwnership(mint: string, seller: string, buyer: string, marketplace: string,
                                   blockTimeMs: Option<int>)
      returns (signal: Option<Signal>)
      requires Valid()
      modifies this
      ensures Valid()
      ensures Ignored(mint, seller, buyer, marketplace, blockTimeMs) ==>
                signal.None? && history == old(history) && full == old(full) && approximate == old(approximate)
      ensures !Ignored(mint, seller, buyer, marketplace, blockTimeMs) ==>
                var now, was := blockTimeMs.value, HistoryOf(old(full), mint);
                && full == old(full)[mint := was + [Entry(seller, now)]]
                && (mint !in old(approximate) && (|was| > 0 ==> was[|was| - 1].ts <= now) ==>
                      signal == Expected(was, seller, buyer, now))
                && (|old(history)| < MAX_KEYS && (|was| > 0 ==> was[|was| - 1].ts <= now) ==>
                      approximate == old(approximate))
    {
      hide Kept, AllKept, Recent, Trimmed, SearchBack;
      if mint == "" || marketplace in AMM_MARKETPLACES || seller == "" || buyer == "" || blockTimeMs.None? {
        return None;
      }
      var now := blockTimeMs.value;
      ghost var was := HistoryOf(full, mint);
      ghost var exact := mint !in approximate && (|was| > 0 ==> was[|was| - 1].ts <= now);
      var existing := Trim(if mint in history then history[mint] else [], now);
      if exact {
        assert Kept(was, HistoryOf(history, mint)) by { KeptOf(full, history, approximate, mint); }
        KeptThen(was, HistoryOf(history, mint), now);
      }
      if buyer == seller {
        signal := Some(Signal(true, 0, 0));
      } else {
        signal := FindLoop(existing, buyer, now);
      }
      EvictOldest(mint);
      var updated := Trim(existing + [Entry(seller, now)], now);
      if exact { KeptAfterAll(was, existing, HistoryOf(old(history), mint), Entry(seller, now)); }
      if !exact {
        ForgetKeeps(full, history, approximate, mint);
        approximate := approximate + {mint};
      }
      RecordKeeps(full, history, approximate, mint, was + [Entry(seller, now)], updated);
      history := history[mint := updated];
      full := full[mint := was + [Entry(seller, now)]];
    }
  }

  lemma KeptAfterAll(full: seq<Entry>, existing: seq<Entry>, kept: seq<Entry>, e: Entry)
    requires Kept(full, kept) && (|full| > 0 ==> full[|full| - 1].ts <= e.ts)
    requires existing == Recent(full, e.ts)
    ensures Kept(full + [e], Trimmed(existing + [e], e.ts))
  {
    KeptAfter(full, e);
  }
}
