/** Backward paging over the signatures of a program (src/ingestion/amm-poller.ts). The chain
    is the sequence of confirmed signatures of the program, oldest first; it only grows. */
module PollerPaging {
  import opened Options

  datatype Row = Row(sig: string, failed: bool)

  const SIG_PAGE_LIMIT: nat := 100
  const MAX_PAGES_FULL: nat := 20
  const MAX_PAGES_LEAN: nat := 5
  const MAX_PAGES_MMM: nat := 2
  const LOW_PAGE_THRESHOLD: nat := 5

  function MaxPages(lean: bool, mmm: bool): nat {
    var mode := if lean then MAX_PAGES_LEAN else MAX_PAGES_FULL;
    if mmm then Min(mode, MAX_PAGES_MMM) else mode
  }

  function Min(a: int, b: int): int { if a <= b then a else b }
  function Max(a: int, b: int): int { if a >= b then a else b }

  // ---- The chain and its pages ------------------------------------------------------------

  ghost predicate Distinct(chain: seq<Row>) {
    forall i, j :: 0 <= i < j < |chain| ==> chain[i].sig != chain[j].sig
  }

  /** Where the signature sits on the chain, or the length of the chain. */
  function Position(chain: seq<Row>, sig: string): (p: nat)
    ensures p <= |chain|
    ensures p < |chain| ==> chain[p].sig == sig
    ensures forall i :: 0 <= i < p ==> chain[i].sig != sig
  {
    if |chain| == 0 || chain[0].sig == sig then 0 else 1 + Position(chain[1..], sig)
  }

  lemma PositionOf(chain: seq<Row>, p: nat)
    requires Distinct(chain) && p < |chain|
    ensures Position(chain, chain[p].sig) == p
  {
  }

  lemma PositionStays(chain: seq<Row>, later: seq<Row>, sig: string)
    requires chain <= later && Position(chain, sig) < |chain|
    ensures Position(later, sig) == Position(chain, sig)
  {
    var p := Position(chain, sig);
    assert later[p] == chain[p] && forall i :: 0 <= i < p ==> later[i] == chain[i];
  }

  /** The stretch [lo, hi) of the chain, newest first. */
  function NewestFirst(chain: seq<Row>, lo: nat, hi: nat): (r: seq<Row>)
    requires lo <= hi <= |chain|
    ensures |r| == hi - lo && forall i :: 0 <= i < hi - lo ==> r[i] == chain[hi - 1 - i]
  {
    seq(hi - lo, i requires 0 <= i < hi - lo => chain[hi - 1 - i])
  }

  function After(chain: seq<Row>, until: Option<string>): (lo: nat)
    ensures lo <= |chain|
  {
    match until
    case None => 0
    case Some(sig) => Min(Position(chain, sig) + 1, |chain|)
  }

  function Before(chain: seq<Row>, before: Option<string>): (hi: nat)
    ensures hi <= |chain|
  {
    match before
    case None => |chain|
    case Some(sig) => Position(chain, sig)
  }

  /** getSignaturesForAddress: the newest signatures that are older than `before` and newer
      than `until`, at most one page. */
  function FetchPage(chain: seq<Row>, until: Option<string>, before: Option<string>): seq<Row> {
    var hi := Before(chain, before);
    var lo := Max(After(chain, until), hi - SIG_PAGE_LIMIT);
    if lo < hi then NewestFirst(chain, lo, hi) else []
  }

  ghost predicate OnChain(chain: seq<Row>, sig: Option<string>) {
    sig.Some? ==> Position(chain, sig.value) < |chain|
  }

  // ---- A sweep's fetch ------------------------------------------------------------------

  datatype Batch = Batch(rows: seq<Row>, saturated: bool, pages: nat)

  /** How many signatures lie between the cursor and the start of the walk. */
  function Pending(chain: seq<Row>, until: Option<string>, startBefore: Option<string>): (n: nat)
    ensures n <= Before(chain, startBefore)
  {
    Max(0, Before(chain, startBefore) - After(chain, until))
  }

  /** What a sweep fetches: a function of the chain at its first page only. */
  function Fetched(chain: seq<Row>, until: Option<string>, startBefore: Option<string>, maxPages: nat): Batch {
    if until.None? then Batch(FetchPage(chain, None, None), false, 1)
    else
      var hi, count := Before(chain, startBefore), Pending(chain, until, startBefore);
      var top := if startBefore.Some? then FetchPage(chain, until, None) else [];
      Batch(top + NewestFirst(chain, hi - Min(count, maxPages * SIG_PAGE_LIMIT), hi),
            count >= maxPages * SIG_PAGE_LIMIT && maxPages > LOW_PAGE_THRESHOLD,
            Min(maxPages, count / SIG_PAGE_LIMIT + 1))
  }

  lemma PageOfLaterView(chain: seq<Row>, view: seq<Row>, until: string, before: Option<string>)
    requires chain <= view && OnChain(chain, Some(until)) && OnChain(chain, before)
    requires before.Some? || view == chain
    ensures FetchPage(view, Some(until), before) == FetchPage(chain, Some(until), before)
  {
    PositionStays(chain, view, until);
    if before.Some? { PositionStays(chain, view, before.value); }
  }

  lemma JoinStretches(chain: seq<Row>, lo: nat, mid: nat, hi: nat)
    requires lo <= mid <= hi <= |chain|
    ensures NewestFirst(chain, mid, hi) + NewestFirst(chain, lo, mid) == NewestFirst(chain, lo, hi)
  {
  }

  /** After `pages` full pages the walk holds the newest of what is pending. */
  ghost predicate WalkAt(chain: seq<Row>, until: string, startBefore: Option<string>, top: seq<Row>,
                         all: seq<Row>, before: Option<string>, pages: nat)
  {
    var hi := Before(chain, startBefore);
    && pages * SIG_PAGE_LIMIT <= Pending(chain, Some(until), startBefore)
    && all == top + NewestFirst(chain, hi - pages * SIG_PAGE_LIMIT, hi)
    && OnChain(chain, before) && (before.Some? || (pages == 0 && startBefore.None?))
    && Before(chain, before) == hi - pages * SIG_PAGE_LIMIT
  }

  /** The walk met the cursor: it holds all that is pending. */
  ghost predicate WalkEnded(chain: seq<Row>, until: string, startBefore: Option<string>, top: seq<Row>,
                            all: seq<Row>, pages: nat)
  {
    var hi, count := Before(chain, startBefore), Pending(chain, Some(until), startBefore);
    all == top + NewestFirst(chain, hi - count, hi) && pages == count / SIG_PAGE_LIMIT + 1
  }

  ghost predicate WalkState(chain: seq<Row>, until: string, startBefore: Option<string>, top: seq<Row>,
                            all: seq<Row>, before: Option<string>, pages: nat, hitFloor: bool)
  {
    if hitFloor then WalkEnded(chain, until, startBefore, top, all, pages)
    else WalkAt(chain, until, startBefore, top, all, before, pages)
  }

  lemma NextPage(chain: seq<Row>, until: string, before: Option<string>)
    requires Distinct(chain)
    ensures var hi, page := Before(chain, before), FetchPage(chain, Some(until), before);
            && |page| == Min(SIG_PAGE_LIMIT, Max(0, hi - After(chain, Some(until)))) <= hi
            && page == NewestFirst(chain, hi - |page|, hi)
            && (|page| > 0 ==> var last := Some(page[|page| - 1].sig);
                 OnChain(chain, last) && Before(chain, last) == hi - |page|)
  {
    var hi, page := Before(chain, before), FetchPage(chain, Some(until), before);
    if |page| > 0 { PositionOf(chain, hi - |page|); }
  }

  /** One more full page lengthens the walk; a short one ends it. */
  lemma WalkStep(chain: seq<Row>, view: seq<Row>, until: string, startBefore: Option<string>, top: seq<Row>,
                 all: seq<Row>, before: Option<string>, pages: nat)
    requires Distinct(chain) && OnChain(chain, Some(until)) && WalkAt(chain, until, startBefore, top, all, before, pages)
    requires chain <= view && (before.Some? || view == chain)
    ensures var page := FetchPage(view, Some(until), before);
            && |page| <= SIG_PAGE_LIMIT
            && (|page| == SIG_PAGE_LIMIT ==>
                  WalkAt(chain, until, startBefore, top, all + page, Some(page[|page| - 1].sig), pages + 1))
            && (|page| < SIG_PAGE_LIMIT ==> WalkEnded(chain, until, startBefore, top, all + page, pages + 1))
  {
    hide NewestFirst, Position, Distinct, FetchPage, Before, After;
    PageOfLaterView(chain, view, until, before);
    NextPage(chain, until, before);
    var hi, page := Before(chain, startBefore), FetchPage(chain, Some(until), before);
    var mid := hi - pages * SIG_PAGE_LIMIT;
    JoinStretches(chain, mid - |page|, mid, hi);
    assert all + page == top + (NewestFirst(chain, mid, hi) + page);
  }

  lemma WalkStart(chain: seq<Row>, until: string, startBefore: Option<string>, top: seq<Row>)
    requires OnChain(chain, startBefore)
    ensures WalkState(chain, until, startBefore, top, top, startBefore, 0, false)
  {
    var hi := Before(chain, startBefore);
    assert top == top + NewestFirst(chain, hi, hi);
  }

  lemma WalkView(chain: seq<Row>, until: string, startBefore: Option<string>, top: seq<Row>, all: seq<Row>,
                 before: Option<string>, pages: nat)
    requires WalkAt(chain, until, startBefore, top, all, before, pages)
    ensures before.Some? || (pages == 0 && startBefore.None?)
  {
  }

  lemma WalkDone(chain: seq<Row>, until: string, startBefore: Option<string>, top: seq<Row>, all: seq<Row>,
                 before: Option<string>, pages: nat, maxPages: nat, hitFloor: bool)
    requires pages <= maxPages && (hitFloor || pages == maxPages)
    requires top == if startBefore.Some? then FetchPage(chain, Some(until), None) else []
    requires WalkState(chain, until, startBefore, top, all, before, pages, hitFloor)
    ensures Batch(all, !hitFloor && pages == maxPages && pages > LOW_PAGE_THRESHOLD, pages)
            == Fetched(chain, Some(until), startBefore, maxPages)
  {
    hide NewestFirst, Position, FetchPage;
  }

  ghost predicate Growing(views: seq<seq<Row>>) {
    forall i, j :: 0 <= i <= j < |views| ==> views[i] <= views[j] && Distinct(views[j])
  }

  /** One round of the paging loop: an empty or short page ends the walk. */
  lemma RoundStep(views: seq<seq<Row>>, until: string, startBefore: Option<string>, top: seq<Row>,
                  all: seq<Row>, before: Option<string>, pages: nat, k: nat)
    requires Growing(views) && k < |views| && (pages == 0 && startBefore.None? ==> k == 0)
    requires OnChain(views[0], Some(until))
    requires WalkState(views[0], until, startBefore, top, all, before, pages, false)
    ensures var page := FetchPage(views[k], Some(until), before);
            && |page| <= SIG_PAGE_LIMIT
            && (|page| == 0 ==> WalkState(views[0], until, startBefore, top, all, before, pages + 1, true))
            && (|page| < SIG_PAGE_LIMIT ==>
                  WalkState(views[0], until, startBefore, top, all + page, before, pages + 1, true))
            && (|page| == SIG_PAGE_LIMIT ==>
                  WalkState(views[0], until, startBefore, top, all + page, Some(page[|page| - 1].sig), pages + 1, false))
  {
    hide NewestFirst, FetchPage, Distinct, Before, After, Pending, WalkEnded;
    assert views[0] <= views[k] && Distinct(views[0]);
    WalkView(views[0], until, startBefore, top, all, before, pages);
    WalkStep(views[0], views[k], until, startBefore, top, all, before, pages);
    assert all + [] == all;
  }

  /** The paging loop, from the rows of the top page if there was one. */
  method Walk(views: seq<seq<Row>>, until: string, startBefore: Option<string>, top: seq<Row>, maxPages: nat, live: nat)
    returns (all: seq<Row>, pages: nat, hitFloor: bool, aborted: bool)
    requires Growing(views) && |views| > maxPages + 1
    requires OnChain(views[0], Some(until)) && OnChain(views[0], startBefore)
    ensures aborted ==> live < 2 * maxPages
    ensures pages <= maxPages
    ensures !aborted ==> hitFloor || pages == maxPages
    ensures !aborted ==> exists before ::
              WalkState(views[0], until, startBefore, top, all, before, pages, hitFloor)
  {
    hide *;
    var before, checks := startBefore, live;
    all, pages, hitFloor, aborted := top, 0, false, false;
    WalkStart(views[0], until, startBefore, top);
    while pages < maxPages
      invariant pages <= maxPages && !hitFloor && !aborted && checks == live - 2 * pages
      invariant WalkState(views[0], until, startBefore, top, all, before, pages, hitFloor)
    {
      if checks == 0 { aborted := true; return; }
      var k := if startBefore.Some? then pages + 1 else pages;
      var page := FetchPage(views[k], Some(until), before);
      RoundStep(views, until, startBefore, top, all, before, pages, k);
      pages := pages + 1;
      if checks == 1 { aborted := true; return; }
      checks := checks - 2;
      if |page| == 0 { hitFloor := true; return; }
      all := all + page;
      if |page| < SIG_PAGE_LIMIT { hitFloor := true; return; }
      before := Some(page[|page| - 1].sig);
    }
  }

  /** A whole fetch. `views` are the chains seen by the successive requests; `live` is how many
      of the mode checks pass before the mode changes, after which none does. */
  method FetchSinceCursor(views: seq<seq<Row>>, until: Option<string>, startBefore: Option<string>,
                          maxPages: nat, live: nat)
    returns (batch: Batch, aborted: bool)
    requires Growing(views) && |views| > maxPages + 1
    requires OnChain(views[0], until) && OnChain(views[0], startBefore)
    ensures !aborted ==> batch == Fetched(views[0], until, startBefore, maxPages)
    ensures aborted ==> live < 2 * maxPages + 2
  {
    if until.None? {
      return Batch(FetchPage(views[0], None, None), false, 1), false;
    }
    hide *;
    var top, checks := [], live;
    if startBefore.Some? {
      if checks < 2 { return Batch([], false, 0), true; }
      checks := checks - 2;
      top := FetchPage(views[0], until, None);
    }
    var all, pages, hitFloor;
    all, pages, hitFloor, aborted := Walk(views, until.value, startBefore, top, maxPages, checks);
    if !aborted {
      ghost var before :| WalkState(views[0], until.value, startBefore, top, all, before, pages, hitFloor);
      WalkDone(views[0], until.value, startBefore, top, all, before, pages, maxPages, hitFloor);
    }
    batch := Batch(all, !hitFloor && pages == maxPages && pages > LOW_PAGE_THRESHOLD, pages);
  }

  // ---- What a sweep misses ------------------------------------------------------------------

  ghost predicate Covers(rows: seq<Row>, chain: seq<Row>, lo: nat) {
    forall i :: lo <= i < |chain| ==> chain[i] in rows
  }

  lemma StretchHolds(chain: seq<Row>, lo: nat)
    requires Distinct(chain) && lo <= |chain|
    ensures forall i :: 0 <= i < |chain| ==> (chain[i] in NewestFirst(chain, lo, |chain|) <==> i >= lo)
  {
    var rows := NewestFirst(chain, lo, |chain|);
    forall i | 0 <= i < |chain| ensures chain[i] in rows <==> i >= lo {
      if i >= lo {
        assert rows[|chain| - 1 - i] == chain[i];
      } else {
        forall k | 0 <= k < |rows| ensures rows[k] != chain[i] {
          assert rows[k].sig == chain[|chain| - 1 - k].sig;
        }
      }
    }
  }

  /** A steady sweep fetches exactly the newest signatures above the cursor, and reaches the
      cursor if and only if no more than a page budget of them is new. */
  lemma SteadyCoverage(chain: seq<Row>, cursor: nat, maxPages: nat)
    requires Distinct(chain) && cursor < |chain| && maxPages > 0
    ensures var b := Fetched(chain, Some(chain[cursor].sig), None, maxPages);
            var count := |chain| - (cursor + 1);
            && b.rows == NewestFirst(chain, |chain| - Min(count, maxPages * SIG_PAGE_LIMIT), |chain|)
            && (Covers(b.rows, chain, cursor + 1) <==> count <= maxPages * SIG_PAGE_LIMIT)
            && (b.saturated <==> count >= maxPages * SIG_PAGE_LIMIT && maxPages > LOW_PAGE_THRESHOLD)
            && (b.pages < maxPages ==> Covers(b.rows, chain, cursor + 1))
  {
    hide NewestFirst, Position, Distinct;
    PositionOf(chain, cursor);
    var count, b := |chain| - (cursor + 1), Fetched(chain, Some(chain[cursor].sig), None, maxPages);
    var lo := |chain| - Min(count, maxPages * SIG_PAGE_LIMIT);
    assert b.rows == NewestFirst(chain, lo, |chain|);
    StretchHolds(chain, lo);
    if count > maxPages * SIG_PAGE_LIMIT { assert chain[cursor + 1] !in b.rows; }
  }

  /** A sweep of a catch-up, whose walk goes on below `before`, looks first at the newest page above
      the cursor, and then walks: it reaches the cursor if and only if no more than a page budget
      lies between. */
  lemma CatchUpCoverage(chain: seq<Row>, cursor: nat, before: nat, maxPages: nat)
    requires Distinct(chain) && cursor < before < |chain| && maxPages > 0
    ensures var b := Fetched(chain, Some(chain[cursor].sig), Some(chain[before].sig), maxPages);
            var top, count := Min(SIG_PAGE_LIMIT, |chain| - (cursor + 1)), before - (cursor + 1);
            var walked := Min(count, maxPages * SIG_PAGE_LIMIT);
            && b.rows == NewestFirst(chain, |chain| - top, |chain|) + NewestFirst(chain, before - walked, before)
            && (Covers(b.rows[top..], chain[..before], cursor + 1) <==> count <= maxPages * SIG_PAGE_LIMIT)
            && (b.saturated <==> count >= maxPages * SIG_PAGE_LIMIT && maxPages > LOW_PAGE_THRESHOLD)
  {
    hide NewestFirst, Position, Distinct, FetchPage, Covers;
    PositionOf(chain, cursor);
    PositionOf(chain, before);
    var b := Fetched(chain, Some(chain[cursor].sig), Some(chain[before].sig), maxPages);
    var top, count := Min(SIG_PAGE_LIMIT, |chain| - (cursor + 1)), before - (cursor + 1);
    var walked := Min(count, maxPages * SIG_PAGE_LIMIT);
    TopPage(chain, cursor);
    assert b.rows[top..] == NewestFirst(chain, before - walked, before);
    WalkCovers(chain, cursor, before, walked);
  }

  lemma TopPage(chain: seq<Row>, cursor: nat)
    requires Distinct(chain) && cursor < |chain|
    ensures FetchPage(chain, Some(chain[cursor].sig), None)
            == NewestFirst(chain, |chain| - Min(SIG_PAGE_LIMIT, |chain| - (cursor + 1)), |chain|)
  {
    PositionOf(chain, cursor);
    hide NewestFirst, Position, Distinct;
    assert NewestFirst(chain, |chain|, |chain|) == [];
  }

  /** The newest `walked` rows below `before` reach down to the cursor exactly when they are all. */
  lemma WalkCovers(chain: seq<Row>, cursor: nat, before: nat, walked: nat)
    requires Distinct(chain) && cursor < before < |chain| && walked <= before - (cursor + 1)
    ensures Covers(NewestFirst(chain, before - walked, before), chain[..before], cursor + 1) <==> walked == before - (cursor + 1)
  {
    var rows := NewestFirst(chain, before - walked, before);
    PrefixStretch(chain, before - walked, before);
    PrefixDistinct(chain, before);
    StretchHolds(chain[..before], before - walked);
    hide NewestFirst, Distinct;
    if walked < before - (cursor + 1) { assert chain[..before][cursor + 1] !in rows; }
  }

  lemma PrefixStretch(chain: seq<Row>, lo: nat, hi: nat)
    requires lo <= hi <= |chain|
    ensures NewestFirst(chain[..hi], lo, hi) == NewestFirst(chain, lo, hi)
  {
  }

  lemma PrefixDistinct(chain: seq<Row>, n: nat)
    requires Distinct(chain) && n <= |chain|
    ensures Distinct(chain[..n])
  {
  }

  /** A sweep can miss signatures without being flagged as saturated if and only if its page
      budget is at most five pages: every lean mode, and MMM in every mode. */
  lemma UnflaggedGap(lean: bool, mmm: bool, chain: seq<Row>, cursor: nat)
    requires Distinct(chain) && cursor < |chain|
    ensures var maxPages := MaxPages(lean, mmm);
            var b := Fetched(chain, Some(chain[cursor].sig), None, maxPages);
            (!Covers(b.rows, chain, cursor + 1) && !b.saturated
             <==> |chain| - (cursor + 1) > maxPages * SIG_PAGE_LIMIT && (lean || mmm))
  {
    SteadyCoverage(chain, cursor, MaxPages(lean, mmm));
  }
}
