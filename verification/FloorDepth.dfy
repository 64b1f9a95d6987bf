/** Floor depth and liquidity of one collection (src/analytics/floor-depth.ts), over exact
    prices; `eps` is the tolerance at the band boundaries. */
module FloorDepth {
  import opened Options
  import opened Orderings
  import opened OrderBook

  datatype Band = Band(count: nat, cost: real)
  datatype Bucket = MagicEden | TensorDirect | MmmPool | TensorPool | Other
  datatype Breakdown = Breakdown(magicEden: nat, tensor: nat, mmmPool: nat, tensorPool: nat, other: nat)
  datatype Confidence = High | Medium | Low

  datatype Report = Report(floor: Option<real>, second: Option<real>, spread: Option<real>,
                           listingCount: nat, uniqueMintCount: nat, depth: seq<Band>, moveFloor: seq<Band>,
                           breakdown: Breakdown, confidence: Confidence, droppedForMint: nat, droppedForPrice: nat)

  const BANDS: seq<int> := [1, 2, 5, 10]

  // ---- Source breakdown -----------------------------------------------------------------------

  function BucketOf(a: Ask): Bucket {
    if a.source == ME && a.kind == Direct then MagicEden
    else if a.source == TENSOR && a.kind == Direct then TensorDirect
    else if a.source == MMM && a.kind == Pool then MmmPool
    else if a.source == TENSOR && a.kind == Pool then TensorPool
    else Other
  }

  function SomeBucket(a: Ask): Option<Bucket> { Some(BucketOf(a)) }

  function InBucket(valid: seq<Ask>, b: Bucket): nat { multiset(FilterMap(SomeBucket, valid))[b] }

  function BreakdownOf(valid: seq<Ask>): Breakdown {
    Breakdown(InBucket(valid, MagicEden), InBucket(valid, TensorDirect), InBucket(valid, MmmPool),
              InBucket(valid, TensorPool), InBucket(valid, Other))
  }

  lemma BucketStep(valid: seq<Ask>, a: Ask)
    ensures forall b :: InBucket(valid + [a], b) == InBucket(valid, b) + if BucketOf(a) == b then 1 else 0
  {
    FilterMapStep(SomeBucket, valid, a);
  }

  function Counted(b: Breakdown, bucket: Bucket): Breakdown {
    match bucket
    case MagicEden => b.(magicEden := b.magicEden + 1)
    case TensorDirect => b.(tensor := b.tensor + 1)
    case MmmPool => b.(mmmPool := b.mmmPool + 1)
    case TensorPool => b.(tensorPool := b.tensorPool + 1)
    case Other => b.(other := b.other + 1)
  }

  lemma BreakdownStep(valid: seq<Ask>, a: Ask)
    ensures BreakdownOf(valid + [a]) == Counted(BreakdownOf(valid), BucketOf(a))
  {
    BucketStep(valid, a);
    hide InBucket, BucketOf;
  }

  lemma NothingCounted()
    ensures BreakdownOf([]) == Breakdown(0, 0, 0, 0, 0)
  {
  }

  method CountSources(valid: seq<Ask>) returns (b: Breakdown)
    ensures b == BreakdownOf(valid)
  {
    hide InBucket, FilterMap, BreakdownOf, SomeBucket;
    NothingCounted();
    b := Breakdown(0, 0, 0, 0, 0);
    var i := 0;
    while i < |valid|
      invariant 0 <= i <= |valid| && b == BreakdownOf(valid[..i])
    {
      var l := valid[i];
      assert valid[..i + 1] == valid[..i] + [l];
      BreakdownStep(valid[..i], l);
      i := i + 1;
      if l.source == ME && l.kind == Direct { b := b.(magicEden := b.magicEden + 1); }
      else if l.source == TENSOR && l.kind == Direct { b := b.(tensor := b.tensor + 1); }
      else if l.source == MMM && l.kind == Pool { b := b.(mmmPool := b.mmmPool + 1); }
      else if l.source == TENSOR && l.kind == Pool { b := b.(tensorPool := b.tensorPool + 1); }
      else { b := b.(other := b.other + 1); }
    }
    assert valid[..i] == valid;
  }

  // ---- Bands ----------------------------------------------------------------------------------

  /** All prices within the limit. */
  function Within(ps: seq<real>, limit: real): Band {
    if |ps| == 0 then Band(0, 0.0)
    else
      var b, last := Within(ps[..|ps| - 1], limit), ps[|ps| - 1];
      if last <= limit then Band(b.count + 1, b.cost + last) else b
  }

  function Sum(ps: seq<real>): real {
    if |ps| == 0 then 0.0 else Sum(ps[..|ps| - 1]) + ps[|ps| - 1]
  }

  /** How many prices come before the first one beyond the limit. */
  function Reach(ps: seq<real>, limit: real): (n: nat)
    ensures n <= |ps| && (forall i :: 0 <= i < n ==> ps[i] <= limit) && (n < |ps| ==> ps[n] > limit)
  {
    if |ps| == 0 || ps[0] > limit then 0 else 1 + Reach(ps[1..], limit)
  }

  /** What is bought, cheapest first, until a price beyond the limit shows up. */
  function Move(ps: seq<real>, limit: real): Band {
    Band(Reach(ps, limit), Sum(ps[..Reach(ps, limit)]))
  }

  method CountWithin(ps: seq<real>, limit: real) returns (b: Band)
    ensures b == Within(ps, limit)
  {
    var count, cost := 0, 0.0;
    for i := 0 to |ps|
      invariant Band(count, cost) == Within(ps[..i], limit)
    {
      assert ps[..i + 1][..i] == ps[..i];
      if ps[i] <= limit { count, cost := count + 1, cost + ps[i]; }
    }
    assert ps[..|ps|] == ps;
    return Band(count, cost);
  }

  method CountMove(ps: seq<real>, limit: real) returns (b: Band, foundBeyond: bool)
    ensures b == Move(ps, limit) && b.count <= |ps| && (foundBeyond <==> b.count < |ps|)
  {
    var listingsToBuy, moveCost := 0, 0.0;
    foundBeyond := false;
    while listingsToBuy < |ps|
      invariant 0 <= listingsToBuy <= |ps| && moveCost == Sum(ps[..listingsToBuy])
      invariant Reach(ps, limit) == listingsToBuy + Reach(ps[listingsToBuy..], limit)
      invariant !foundBeyond
    {
      if ps[listingsToBuy] > limit { foundBeyond := true; break; }
      assert ps[listingsToBuy..][1..] == ps[listingsToBuy + 1..];
      assert ps[..listingsToBuy + 1][..listingsToBuy] == ps[..listingsToBuy];
      moveCost := moveCost + ps[listingsToBuy];
      listingsToBuy := listingsToBuy + 1;
    }
    return Band(listingsToBuy, moveCost), foundBeyond;
  }

  // ---- The report -------------------------------------------------------------------------------

  function Limit(floor: real, pct: int, eps: real): real { floor * (1.0 + pct as real / 100.0) + eps }

  function DepthBands(ps: seq<real>, eps: real, n: nat): (r: seq<Band>)
    requires n <= |BANDS|
    ensures |r| == n
  {
    if |ps| == 0 then seq(n, _ => Band(0, 0.0)) else seq(n, i requires 0 <= i < n => Within(ps, Limit(ps[0], BANDS[i], eps)))
  }

  function MoveBands(ps: seq<real>, eps: real, n: nat): (r: seq<Band>)
    requires n <= |BANDS|
    ensures |r| == n
  {
    if |ps| == 0 then seq(n, _ => Band(0, 0.0)) else seq(n, i requires 0 <= i < n => Move(ps, Limit(ps[0], BANDS[i], eps)))
  }

  /** Some band ran out of asks. */
  predicate Exhausted(ps: seq<real>, bands: seq<Band>) {
    |ps| > 0 && exists i :: 0 <= i < |bands| && bands[i].count == |ps|
  }

  function ConfidenceOf(ps: seq<real>, eps: real): Confidence {
    if |ps| < 2 then Low
    else if |ps| >= 5 && !Exhausted(ps, MoveBands(ps, eps, 4)) then High
    else Medium
  }

  function At(ps: seq<real>, i: nat): Option<real> { if i < |ps| then Some(ps[i]) else None }

  function SpreadOf(ps: seq<real>): Option<real> {
    if |ps| > 1 && ps[0] > 0.0 then Some((ps[1] - ps[0]) / ps[0]) else None
  }

  function ReportOf(listings: seq<Listing>, eps: real): Report {
    var valid := ValidRows(listings);
    var ps := Prices(Asks(valid));
    Report(At(ps, 0), At(ps, 1), SpreadOf(ps), |valid|, |ps|, DepthBands(ps, eps, 4), MoveBands(ps, eps, 4),
           BreakdownOf(valid), ConfidenceOf(ps, eps), Rows(listings, NoMint), Rows(listings, BadPrice))
  }

  lemma ExhaustedStep(ps: seq<real>, bands: seq<Band>, b: Band)
    requires |ps| > 0
    ensures Exhausted(ps, bands + [b]) <==> Exhausted(ps, bands) || b.count == |ps|
  {
    assert (bands + [b])[|bands|] == b;
    forall i | 0 <= i < |bands| ensures (bands + [b])[i] == bands[i] {}
  }

  lemma NoneExhausted(ps: seq<real>)
    ensures !Exhausted(ps, [])
  {
  }

  lemma NothingExhausted(ps: seq<real>, bands: seq<Band>)
    requires |ps| == 0
    ensures !Exhausted(ps, bands)
  {
  }

  method ComputeBands(ps: seq<real>, eps: real) returns (depth: seq<Band>, moveFloor: seq<Band>, exhausted: bool)
    ensures depth == DepthBands(ps, eps, 4) && moveFloor == MoveBands(ps, eps, 4)
    ensures exhausted == Exhausted(ps, moveFloor)
  {
    hide Within, Move, Exhausted;
    assert Exhausted(ps, []) == false by { NoneExhausted(ps); }
    exhausted := false;
    if |ps| == 0 {
      depth, moveFloor := seq(4, _ => Band(0, 0.0)), seq(4, _ => Band(0, 0.0));
      NothingExhausted(ps, moveFloor);
      return;
    }
    depth, moveFloor := [], [];
    for k := 0 to |BANDS|
      invariant depth == DepthBands(ps, eps, k) && moveFloor == MoveBands(ps, eps, k)
      invariant exhausted == Exhausted(ps, moveFloor)
    {
      var threshold := Limit(ps[0], BANDS[k], eps);
      var d := CountWithin(ps, threshold);
      var m, foundBeyond := CountMove(ps, threshold);
      ExhaustedStep(ps, moveFloor, m);
      depth, moveFloor := depth + [d], moveFloor + [m];
      if !foundBeyond { exhausted := true; }
    }
  }

  method ComputeFloorDepth(listings: seq<Listing>, eps: real) returns (r: Report)
    ensures r == ReportOf(listings, eps)
  {
    hide DepthBands, MoveBands, Dedupe, SortBy, FilterMap, ValidRows, Rows, BreakdownOf;
    var valid, droppedForMint, droppedForPrice := FilterValid(listings);
    var breakdown := CountSources(valid);
    var cheapest := DedupeCheapest(valid);
    var ps := Prices(SortBy(CheaperFirst, cheapest));
    var depth, moveFloor, exhausted := ComputeBands(ps, eps);
    var floor := if |ps| > 0 then Some(ps[0]) else None;
    var second := if |ps| > 1 then Some(ps[1]) else None;
    var spread := if floor.Some? && second.Some? && floor.value > 0.0
                  then Some((second.value - floor.value) / floor.value) else None;
    var confidence;
    if floor.None? || |ps| < 2 { confidence := Low; }
    else if |ps| >= 5 && !exhausted { confidence := High; }
    else { confidence := Medium; }
    r := Report(floor, second, spread, |valid|, |ps|, depth, moveFloor, breakdown, confidence,
                droppedForMint, droppedForPrice);
  }

  // ---- Reordered listings ---------------------------------------------------------------------

  /** Any reordering of the listings gives the same report: floors, bands, breakdown,
      confidence and counts. */
  lemma ReportReordered(a: seq<Listing>, b: seq<Listing>, eps: real)
    requires multiset(a) == multiset(b)
    ensures ReportOf(a, eps) == ReportOf(b, eps)
  {
    FilterMapReordered(ToAsk, a, b);
    FilterMapReordered(SomeClass, a, b);
    FilterMapReordered(SomeBucket, ValidRows(a), ValidRows(b));
    PricesReordered(ValidRows(a), ValidRows(b));
    assert |multiset(ValidRows(a))| == |multiset(ValidRows(b))|;
    hide FilterMap, Asks, DepthBands, MoveBands, ConfidenceOf;
  }

  // ---- What the summary means -------------------------------------------------------------------

  function Total(b: Breakdown): nat { b.magicEden + b.tensor + b.mmmPool + b.tensorPool + b.other }

  lemma CountedTotal(b: Breakdown, bucket: Bucket)
    ensures Total(Counted(b, bucket)) == Total(b) + 1
  {
  }

  lemma {:induction false} BucketsTotal(valid: seq<Ask>)
    ensures Total(BreakdownOf(valid)) == |valid|
  {
    if |valid| > 0 {
      var n := |valid| - 1;
      BucketsTotal(valid[..n]);
      BreakdownStep(valid[..n], valid[n]);
      assert valid[..n] + [valid[n]] == valid;
      CountedTotal(BreakdownOf(valid[..n]), BucketOf(valid[n]));
    } else {
      NothingCounted();
    }
    hide *;
  }

  lemma {:induction false} ClassesTotal(listings: seq<Listing>)
    ensures |ValidRows(listings)| + Rows(listings, NoMint) + Rows(listings, BadPrice) == |listings|
  {
    if |listings| > 0 {
      var n := |listings| - 1;
      ClassesTotal(listings[..n]);
      RowsStep(listings[..n], listings[n]);
      assert listings[..n] + [listings[n]] == listings;
      hide Rows, ValidRows;
    }
  }

  /** Every row is counted in one bucket or dropped for one reason; the spread leads from the
      floor to the second ask; the confidence is high exactly when five mints are listed and
      every band leaves an ask beyond it, and low exactly when there are not two. */
  lemma SummaryMeans(listings: seq<Listing>, eps: real)
    ensures var r := ReportOf(listings, eps);
            var b := r.breakdown;
            && Total(b) == r.listingCount == |AllSellable(listings)| && r.uniqueMintCount == |Mints(ValidRows(listings))|
            && r.droppedForMint == |Nameless(listings)| && r.droppedForPrice == |Unpriced(listings)|
            && r.listingCount + r.droppedForMint + r.droppedForPrice == |listings|
            && (r.spread.Some? <==> r.second.Some?)
            && (r.spread.Some? ==> r.spread.value >= 0.0 && r.second.value == r.floor.value * (1.0 + r.spread.value))
            && (r.confidence == High <==>
                  r.uniqueMintCount >= 5 && forall i :: 0 <= i < |r.moveFloor| ==> r.moveFloor[i].count < r.uniqueMintCount)
            && (r.confidence == Low <==> r.uniqueMintCount < 2)
  {
    var ps := Prices(Asks(ValidRows(listings)));
    BucketsTotal(ValidRows(listings));
    ClassesTotal(listings);
    CountsMean(listings);
    AsksSorted(ValidRows(listings));
    AllPositive(listings);
    hide ValidRows, Asks, Prices, Rows, InBucket, Move, DepthBands;
    if |ps| > 1 { SpreadBack(ps[0], ps[1]); }
    forall i | 0 <= i < 4 && |ps| > 0 ensures MoveBands(ps, eps, 4)[i].count <= |ps| {
      MoveWithin(ps, Limit(ps[0], BANDS[i], eps));
    }
  }

  lemma CountsMean(listings: seq<Listing>)
    ensures |ValidRows(listings)| == |AllSellable(listings)|
    ensures |Prices(Asks(ValidRows(listings)))| == |Mints(ValidRows(listings))|
    ensures Rows(listings, NoMint) == |Nameless(listings)| && Rows(listings, BadPrice) == |Unpriced(listings)|
  {
    var any := Ask("", 0.0, ME, Direct);
    ValidRowsExactly(listings, any);
    OnePerMint(ValidRows(listings), any);
    PricesAt(Asks(ValidRows(listings)));
  }

  lemma MoveWithin(ps: seq<real>, limit: real)
    ensures Move(ps, limit).count <= |ps|
  {
  }

  lemma SpreadBack(floor: real, second: real)
    requires 0.0 < floor <= second
    ensures (second - floor) / floor >= 0.0 && second == floor * (1.0 + (second - floor) / floor)
  {
    assert (second - floor) / floor * floor == second - floor;
  }

  /** The places of the rows of one kind on one market. */
  ghost function RowsOf(valid: seq<Ask>, source: Source, kind: Kind): set<nat> {
    set i: nat | i < |valid| && valid[i].source == source && valid[i].kind == kind
  }

  /** The breakdown counts the rows of four markets by source and kind, and the rest together. */
  lemma BreakdownMeans(valid: seq<Ask>)
    ensures var b := BreakdownOf(valid);
            && b.magicEden == |RowsOf(valid, ME, Direct)| && b.tensor == |RowsOf(valid, TENSOR, Direct)|
            && b.mmmPool == |RowsOf(valid, MMM, Pool)| && b.tensorPool == |RowsOf(valid, TENSOR, Pool)|
            && b.other == |RowsOf(valid, ME, Pool)| + |RowsOf(valid, MMM, Direct)|
  {
    BucketCount(valid, MagicEden, RowsOf(valid, ME, Direct));
    BucketCount(valid, TensorDirect, RowsOf(valid, TENSOR, Direct));
    BucketCount(valid, MmmPool, RowsOf(valid, MMM, Pool));
    BucketCount(valid, TensorPool, RowsOf(valid, TENSOR, Pool));
    BucketCount(valid, Other, RowsOf(valid, ME, Pool) + RowsOf(valid, MMM, Direct));
    assert RowsOf(valid, ME, Pool) !! RowsOf(valid, MMM, Direct);
    hide InBucket, RowsOf, BucketOf;
  }

  lemma BucketCount(valid: seq<Ask>, b: Bucket, places: set<nat>)
    requires forall i: nat :: i in places <==> i < |valid| && BucketOf(valid[i]) == b
    ensures InBucket(valid, b) == |places|
  {
    FilterMapCount(SomeBucket, valid, b);
    assert places == Giving(SomeBucket, valid, b);
    hide FilterMap;
  }

  // ---- What the bands mean --------------------------------------------------------------------

  /** On sorted prices the band within the limit is the band that must be bought. */
  lemma {:induction false} DepthIsMove(ps: seq<real>, limit: real)
    requires Ascending(ps)
    ensures Within(ps, limit) == Move(ps, limit)
  {
    if |ps| > 0 {
      var n := |ps| - 1;
      DepthIsMove(ps[..n], limit);
      LastReached(ps, limit);
    }
  }

  lemma LastReached(ps: seq<real>, limit: real)
    requires Ascending(ps) && |ps| > 0
    ensures var n, b := |ps| - 1, Move(ps[..|ps| - 1], limit);
            Move(ps, limit) == if ps[n] <= limit then Band(b.count + 1, b.cost + ps[n]) else b
  {
    var n, k := |ps| - 1, Reach(ps, limit);
    if k <= n {
      assert ps[k] <= ps[n];
      ReachIs(ps[..n], limit, k);
      assert ps[..n][..k] == ps[..k];
    } else {
      ReachIs(ps[..n], limit, n);
      assert ps[..n][..n] == ps[..n] && ps[..k] == ps;
    }
  }

  lemma ReachIs(ps: seq<real>, limit: real, k: nat)
    requires k <= |ps| && (forall i :: 0 <= i < k ==> ps[i] <= limit) && (k < |ps| ==> ps[k] > limit)
    ensures Reach(ps, limit) == k
  {
  }

  ghost predicate Growing(bands: seq<Band>) {
    forall i, j :: 0 <= i <= j < |bands| ==> bands[i].count <= bands[j].count && bands[i].cost <= bands[j].cost
  }

  lemma BandsOf(ps: seq<real>, eps: real)
    requires Ascending(ps) && (forall i :: 0 <= i < |ps| ==> ps[i] > 0.0) && eps >= 0.0
    ensures DepthBands(ps, eps, 4) == MoveBands(ps, eps, 4) && Growing(DepthBands(ps, eps, 4))
    ensures |ps| > 0 ==> forall i :: 0 <= i < 4 ==> DepthBands(ps, eps, 4)[i].count >= 1
  {
    hide Within, Move, Ascending;
    if |ps| > 0 {
      forall i | 0 <= i < 4
        ensures DepthBands(ps, eps, 4)[i] == MoveBands(ps, eps, 4)[i] && DepthBands(ps, eps, 4)[i].count >= 1
      {
        var limit := Limit(ps[0], BANDS[i], eps);
        LimitsGrow(ps[0], eps, 0, BANDS[i]);
        DepthIsMove(ps, limit);
        FloorInBand(ps, limit);
      }
      forall i, j | 0 <= i <= j < 4
        ensures DepthBands(ps, eps, 4)[i].count <= DepthBands(ps, eps, 4)[j].count
        ensures DepthBands(ps, eps, 4)[i].cost <= DepthBands(ps, eps, 4)[j].cost
      {
        LimitsGrow(ps[0], eps, BANDS[i], BANDS[j]);
        Wider(ps, Limit(ps[0], BANDS[i], eps), Limit(ps[0], BANDS[j], eps));
      }
    }
  }

  lemma LimitsGrow(floor: real, eps: real, a: int, b: int)
    requires floor > 0.0 && eps >= 0.0 && 0 <= a <= b
    ensures floor <= Limit(floor, a, eps) <= Limit(floor, b, eps)
  {
    var x, y := a as real / 100.0, b as real / 100.0;
    assert 0.0 <= x <= y;
    Scale(floor, 1.0 + x, 1.0 + y);
    Scale(floor, 1.0, 1.0 + x);
  }

  lemma Scale(k: real, x: real, y: real)
    requires k > 0.0 && x <= y
    ensures k * x <= k * y
  {
  }

  /** Depth and move-floor bands coincide in every report, and grow with the percentage. */
  lemma BandsCoincide(listings: seq<Listing>, eps: real)
    requires eps >= 0.0
    ensures var r := ReportOf(listings, eps);
            && r.depth == r.moveFloor && |r.depth| == |BANDS| && Growing(r.depth)
            && (r.floor.Some? ==> forall i :: 0 <= i < |BANDS| ==> r.depth[i].count >= 1)
  {
    AsksSorted(ValidRows(listings));
    AllPositive(listings);
    hide ValidRows, Asks, Prices, Ascending, DepthBands, MoveBands;
    BandsOf(Prices(Asks(ValidRows(listings))), eps);
  }

  lemma FloorInBand(ps: seq<real>, limit: real)
    requires |ps| > 0 && ps[0] <= limit
    ensures Move(ps, limit).count >= 1
  {
  }

  lemma AllPositive(listings: seq<Listing>)
    ensures var ps := Prices(Asks(ValidRows(listings))); forall i :: 0 <= i < |ps| ==> ps[i] > 0.0
  {
    var valid := ValidRows(listings);
    var asks := Asks(valid);
    hide ValidRows, Dedupe, SortBy;
    AsksSorted(valid);
    PricesAt(asks);
    ValidPositive(listings);
    forall i | 0 <= i < |asks| ensures asks[i].price > 0.0 {
      assert asks[i] in multiset(asks);
      DedupeExactly(valid, asks[i]);
      FirstIsRow(valid, asks[i]);
    }
  }

  lemma {:induction false} Wider(ps: seq<real>, a: real, b: real)
    requires a <= b && forall i :: 0 <= i < |ps| ==> ps[i] > 0.0
    ensures Within(ps, a).count <= Within(ps, b).count && Within(ps, a).cost <= Within(ps, b).cost
  {
    if |ps| > 0 { Wider(ps[..|ps| - 1], a, b); }
  }

  // ---- Optimality -------------------------------------------------------------------------------

  /** After buying, every remaining ask lies beyond the limit. */
  ghost predicate Lifts(ps: seq<real>, bought: set<nat>, limit: real) {
    forall i: nat :: i < |ps| && i !in bought ==> ps[i] > limit
  }

  /** The first `n` asks. */
  function Cheapest(n: nat): (r: set<nat>)
    ensures forall i: nat :: i in r <==> i < n
  {
    if n == 0 then {} else Cheapest(n - 1) + {n - 1}
  }

  function CostOf(ps: seq<real>, bought: set<nat>): real {
    if |ps| == 0 then 0.0
    else CostOf(ps[..|ps| - 1], bought) + if |ps| - 1 in bought then ps[|ps| - 1] else 0.0
  }

  /** A purchase lifts the floor beyond the limit if and only if it contains the reported
      prefix. */
  lemma LiftsExactly(ps: seq<real>, bought: set<nat>, limit: real)
    requires Ascending(ps)
    ensures Lifts(ps, bought, limit) <==> forall i: nat :: i < Move(ps, limit).count ==> i in bought
  {
    var k := Reach(ps, limit);
    forall i: nat | i < |ps| ensures ps[i] > limit <==> i >= k {
      if k < i { assert ps[k] <= ps[i]; }
    }
  }

  lemma {:induction false} CostAtLeast(ps: seq<real>, bought: set<nat>, k: nat)
    requires k <= |ps| && (forall i :: 0 <= i < |ps| ==> ps[i] > 0.0) && forall i: nat :: i < k ==> i in bought
    ensures CostOf(ps, bought) >= Sum(ps[..k])
    ensures (forall i: nat :: i < |ps| ==> (i in bought <==> i < k)) ==> CostOf(ps, bought) == Sum(ps[..k])
  {
    if |ps| > 0 {
      var n := |ps| - 1;
      CostAtLeast(ps[..n], bought, if k <= n then k else n);
      if k <= n {
        assert ps[..n][..k] == ps[..k];
      } else {
        assert ps[..n][..n] == ps[..n] && ps[..k][..n] == ps[..n];
      }
    }
  }

  /** What the k-th band admits, as a factor of the floor. */
  ghost function Factor(k: nat): real {
    if k == 0 then 1.01 else if k == 1 then 1.02 else if k == 2 then 1.05 else 1.1
  }

  /** Buying one more ask costs its price, and buying nothing is free. */
  lemma {:induction false} CostAdds(ps: seq<real>, bought: set<nat>, i: nat)
    ensures CostOf(ps, {}) == 0.0
    ensures i < |ps| && i !in bought ==> CostOf(ps, bought + {i}) == CostOf(ps, bought) + ps[i]
  {
    if |ps| > 0 {
      var n := |ps| - 1;
      CostAdds(ps[..n], bought, i);
      if i == n { CostIgnores(ps[..n], bought, n); }
    }
  }

  lemma {:induction false} CostIgnores(ps: seq<real>, bought: set<nat>, i: nat)
    requires i >= |ps|
    ensures CostOf(ps, bought + {i}) == CostOf(ps, bought)
  {
    if |ps| > 0 { CostIgnores(ps[..|ps| - 1], bought, i); }
  }

  lemma LimitOf(floor: real, k: nat, eps: real)
    requires k < 4
    ensures Limit(floor, BANDS[k], eps) == floor * Factor(k) + eps
  {
    assert 1.0 + BANDS[k] as real / 100.0 == Factor(k);
  }

  /** The asks within the k-th band of the floor. */
  ghost function InBand(ps: seq<real>, k: nat, eps: real): set<nat> {
    set i: nat | i < |ps| && ps[i] <= ps[0] * Factor(k) + eps
  }

  /** In the reported bands, 1, 2, 5 and 10 percent above the floor: the asks in the band are
      counted and added up; no purchase that leaves only asks beyond the band costs less than
      what is reported, and buying the band costs just that. */
  lemma ReportedBands(listings: seq<Listing>, k: nat, bought: set<nat>, eps: real)
    requires k < 4
    ensures var r, ps := ReportOf(listings, eps), Prices(Asks(ValidRows(listings)));
            && |r.depth| == 4 && |r.moveFloor| == 4
            && (|ps| == 0 ==> r.floor.None? && r.depth[k] == Band(0, 0.0) && r.moveFloor[k] == Band(0, 0.0))
            && (|ps| > 0 ==>
                  && r.floor == Some(ps[0]) && r.depth[k] == r.moveFloor[k]
                  && r.depth[k].count == |InBand(ps, k, eps)| && r.depth[k].cost == CostOf(ps, InBand(ps, k, eps))
                  && (Lifts(ps, bought, ps[0] * Factor(k) + eps) ==> CostOf(ps, bought) >= r.moveFloor[k].cost)
                  && Lifts(ps, InBand(ps, k, eps), ps[0] * Factor(k) + eps))
  {
    var ps := Prices(Asks(ValidRows(listings)));
    AsksSorted(ValidRows(listings));
    AllPositive(listings);
    hide ValidRows, Asks, Prices, Ascending;
    if |ps| > 0 {
      LimitOf(ps[0], k, eps);
      BandMeans(ps, k, bought, eps, Limit(ps[0], BANDS[k], eps));
    }
    hide Factor, Lifts, CostOf, InBand, Within, Move, BreakdownOf, ConfidenceOf, Limit;
  }

  lemma BandMeans(ps: seq<real>, k: nat, bought: set<nat>, eps: real, limit: real)
    requires k < 4 && |ps| > 0 && Ascending(ps) && forall i :: 0 <= i < |ps| ==> ps[i] > 0.0
    requires limit == ps[0] * Factor(k) + eps
    ensures var band := Move(ps, limit);
            && Within(ps, limit) == band
            && band.count == |InBand(ps, k, eps)| && band.cost == CostOf(ps, InBand(ps, k, eps))
            && (Lifts(ps, bought, limit) ==> CostOf(ps, bought) >= band.cost)
            && Lifts(ps, InBand(ps, k, eps), limit)
  {
    DepthIsMove(ps, limit);
    PrefixIsOptimal(ps, bought, limit);
    BandIsPrefix(ps, k, eps, limit);
    hide Factor, Lifts, CostOf, InBand, Within, Move, Cheapest, Ascending;
  }

  lemma BandIsPrefix(ps: seq<real>, k: nat, eps: real, limit: real)
    requires Ascending(ps) && |ps| > 0 && limit == ps[0] * Factor(k) + eps
    ensures var n := Move(ps, limit).count; InBand(ps, k, eps) == Cheapest(n) && |Cheapest(n)| == n
  {
    hide Factor;
    var n := Reach(ps, limit);
    forall i: nat | i < |ps| ensures ps[i] <= limit <==> i < n {
      if n < i { assert ps[n] <= ps[i]; }
    }
    CheapestSize(n);
  }

  lemma {:induction false} CheapestSize(n: nat)
    ensures |Cheapest(n)| == n
  {
    if n > 0 { CheapestSize(n - 1); }
  }

  /** The reported cost is the least that lifts the floor, and the reported prefix attains it. */
  lemma MoveIsOptimal(listings: seq<Listing>, bought: set<nat>, limit: real)
    ensures var ps := Prices(Asks(ValidRows(listings)));
            && (Lifts(ps, bought, limit) ==> CostOf(ps, bought) >= Move(ps, limit).cost)
            && Lifts(ps, Cheapest(Move(ps, limit).count), limit)
            && CostOf(ps, Cheapest(Move(ps, limit).count)) == Move(ps, limit).cost
  {
    AsksSorted(ValidRows(listings));
    AllPositive(listings);
    PrefixIsOptimal(Prices(Asks(ValidRows(listings))), bought, limit);
    hide *;
  }

  lemma PrefixIsOptimal(ps: seq<real>, bought: set<nat>, limit: real)
    requires Ascending(ps) && forall i :: 0 <= i < |ps| ==> ps[i] > 0.0
    ensures Lifts(ps, bought, limit) ==> CostOf(ps, bought) >= Move(ps, limit).cost
    ensures Lifts(ps, Cheapest(Move(ps, limit).count), limit)
    ensures CostOf(ps, Cheapest(Move(ps, limit).count)) == Move(ps, limit).cost
  {
    hide Ascending, CostOf;
    var k := Reach(ps, limit);
    var prefix := Cheapest(k);
    LiftsExactly(ps, bought, limit);
    LiftsExactly(ps, prefix, limit);
    if Lifts(ps, bought, limit) { CostAtLeast(ps, bought, k); }
    CostAtLeast(ps, prefix, k);
  }
}
