/** Listings, valid asks and the cheapest ask of each mint, shared by the order-book analytics
    (src/analytics/floor-depth.ts and src/analytics/cross-market.ts). Prices are exact. */
module OrderBook {
  import opened Options
  import opened Orderings

  datatype Source = ME | MMM | TENSOR
  datatype Kind = Direct | Pool

  /** A listing row; the price is missing when it is not a finite number. */
  datatype Listing = Listing(mint: string, price: Option<real>, source: Source, kind: Kind)

  datatype Ask = Ask(mint: string, price: real, source: Source, kind: Kind)

  datatype RowClass = NoMint | BadPrice | Fine

  function ClassOf(l: Listing): RowClass {
    if l.mint == "" then NoMint
    else if l.price.None? || l.price.value <= 0.0 then BadPrice
    else Fine
  }

  function ToAsk(l: Listing): Option<Ask> {
    if ClassOf(l).Fine? then Some(Ask(l.mint, l.price.value, l.source, l.kind)) else None
  }

  function SomeClass(l: Listing): Option<RowClass> { Some(ClassOf(l)) }

  function ValidRows(listings: seq<Listing>): seq<Ask> { FilterMap(ToAsk, listings) }

  /** How many rows fall in a class. */
  function Rows(listings: seq<Listing>, c: RowClass): nat { multiset(FilterMap(SomeClass, listings))[c] }

  lemma RowsStep(listings: seq<Listing>, l: Listing)
    ensures ValidRows(listings + [l]) == ValidRows(listings) + if ToAsk(l).Some? then [ToAsk(l).value] else []
    ensures forall c :: Rows(listings + [l], c) == Rows(listings, c) + if ClassOf(l) == c then 1 else 0
  {
    FilterMapStep(ToAsk, listings, l);
    FilterMapStep(SomeClass, listings, l);
  }

  method FilterValid(listings: seq<Listing>) returns (valid: seq<Ask>, droppedForMint: nat, droppedForPrice: nat)
    ensures valid == ValidRows(listings)
    ensures droppedForMint == Rows(listings, NoMint) && droppedForPrice == Rows(listings, BadPrice)
  {
    valid, droppedForMint, droppedForPrice := [], 0, 0;
    assert ValidRows([]) == [] && Rows([], NoMint) == 0 && Rows([], BadPrice) == 0;
    hide Rows, ValidRows, FilterMap;
    var i := 0;
    while i < |listings|
      invariant 0 <= i <= |listings| && valid == ValidRows(listings[..i])
      invariant droppedForMint == Rows(listings[..i], NoMint) && droppedForPrice == Rows(listings[..i], BadPrice)
    {
      var l := listings[i];
      assert listings[..i + 1] == listings[..i] + [l];
      RowsStep(listings[..i], l);
      i := i + 1;
      if l.mint == "" { droppedForMint := droppedForMint + 1; continue; }
      if l.price.None? || l.price.value <= 0.0 { droppedForPrice := droppedForPrice + 1; continue; }
      valid := valid + [Ask(l.mint, l.price.value, l.source, l.kind)];
    }
    assert listings[..i] == listings;
  }

  lemma ValidPositive(listings: seq<Listing>)
    ensures forall i :: 0 <= i < |ValidRows(listings)| ==> ValidRows(listings)[i].price > 0.0 && ValidRows(listings)[i].mint != ""
  {
    forall i | 0 <= i < |ValidRows(listings)|
      ensures ValidRows(listings)[i].price > 0.0 && ValidRows(listings)[i].mint != ""
    {
      FilterMapMembers(ToAsk, listings, ValidRows(listings)[i]);
    }
  }

  ghost predicate Sellable(l: Listing) { l.mint != "" && l.price.Some? && l.price.value > 0.0 }

  /** The places of the rows without a mint. */
  ghost function Nameless(listings: seq<Listing>): set<nat> { set i: nat | i < |listings| && listings[i].mint == "" }

  /** The places of the rows with a mint, but without a positive price. */
  ghost function Unpriced(listings: seq<Listing>): set<nat> {
    set i: nat | i < |listings| && listings[i].mint != "" && !Sellable(listings[i])
  }

  ghost function AllSellable(listings: seq<Listing>): set<nat> { set i: nat | i < |listings| && Sellable(listings[i]) }

  ghost predicate ComesFrom(a: Ask, l: Listing) {
    Sellable(l) && a.mint == l.mint && a.price == l.price.value && a.source == l.source && a.kind == l.kind
  }

  /** A row is kept exactly when it names a mint and has a positive price, and then unchanged;
      the dropped rows are counted once, a row without a mint by its mint. */
  lemma ValidRowsExactly(listings: seq<Listing>, a: Ask)
    ensures a in ValidRows(listings) <==> exists i :: 0 <= i < |listings| && ComesFrom(a, listings[i])
    ensures |ValidRows(listings)| == |AllSellable(listings)|
    ensures Rows(listings, NoMint) == |Nameless(listings)| && Rows(listings, BadPrice) == |Unpriced(listings)|
  {
    FilterMapMembers(ToAsk, listings, a);
    FilterMapCount(ToAsk, listings, a);
    FilterMapCount(SomeClass, listings, NoMint);
    FilterMapCount(SomeClass, listings, BadPrice);
    hide FilterMap;
    assert AllSellable(listings) == Places(ToAsk, listings);
    assert Nameless(listings) == Giving(SomeClass, listings, NoMint);
    assert Unpriced(listings) == Giving(SomeClass, listings, BadPrice);
    forall i | 0 <= i < |listings| ensures ToAsk(listings[i]) == Some(a) <==> ComesFrom(a, listings[i]) {}
  }

  // ---- The cheapest ask of each mint --------------------------------------------------------

  /** Where the mint is in a list, or its length. */
  function MintAt(d: seq<Ask>, mint: string): (i: nat)
    ensures i <= |d| && (i < |d| ==> d[i].mint == mint)
    ensures forall k :: 0 <= k < i ==> d[k].mint != mint
  {
    if |d| == 0 || d[0].mint == mint then 0 else 1 + MintAt(d[1..], mint)
  }

  /** One row per mint in order of first sight; a strictly cheaper row replaces in place. */
  function Dedupe(valid: seq<Ask>): seq<Ask> {
    if |valid| == 0 then []
    else DedupeRow(Dedupe(valid[..|valid| - 1]), valid[|valid| - 1])
  }

  ghost predicate MintsApart(d: seq<Ask>) {
    forall i, j :: 0 <= i < j < |d| ==> d[i].mint != d[j].mint
  }

  /** The map and its insertion order hold the list. */
  ghost predicate Mirrors(cheapest: map<string, Ask>, order: seq<string>, d: seq<Ask>) {
    && |order| == |d| && MintsApart(d)
    && (forall k :: 0 <= k < |d| ==> order[k] == d[k].mint && order[k] in cheapest && cheapest[order[k]] == d[k])
    && (forall m :: m in cheapest ==> m in order)
  }

  function DedupeRow(d: seq<Ask>, row: Ask): seq<Ask> {
    var i := MintAt(d, row.mint);
    if i == |d| then d + [row] else if row.price < d[i].price then d[i := row] else d
  }

  lemma MirrorLookup(cheapest: map<string, Ask>, order: seq<string>, d: seq<Ask>, mint: string)
    requires Mirrors(cheapest, order, d)
    ensures mint in cheapest <==> MintAt(d, mint) < |d|
    ensures mint in cheapest ==> cheapest[mint] == d[MintAt(d, mint)]
  {
    var i := MintAt(d, mint);
    if i < |d| { assert order[i] == mint; }
    if mint in order {
      var k :| 0 <= k < |order| && order[k] == mint;
      assert d[k].mint == mint;
    }
  }

  lemma MirrorStep(cheapest: map<string, Ask>, order: seq<string>, d: seq<Ask>, row: Ask)
    requires Mirrors(cheapest, order, d)
    ensures row.mint !in cheapest ==> Mirrors(cheapest[row.mint := row], order + [row.mint], DedupeRow(d, row))
    ensures row.mint in cheapest && row.price < cheapest[row.mint].price ==>
              Mirrors(cheapest[row.mint := row], order, DedupeRow(d, row))
    ensures row.mint in cheapest && row.price >= cheapest[row.mint].price ==> DedupeRow(d, row) == d
  {
    MirrorLookup(cheapest, order, d, row.mint);
    if row.mint in cheapest && row.price < cheapest[row.mint].price {
      var i, c := MintAt(d, row.mint), cheapest[row.mint := row];
      forall k | 0 <= k < |d| ensures order[k] in c && c[order[k]] == DedupeRow(d, row)[k] {
        if k != i { assert d[k].mint != d[i].mint; }
      }
    }
  }

  method DedupeCheapest(valid: seq<Ask>) returns (rows: seq<Ask>)
    ensures rows == Dedupe(valid)
  {
    var cheapest: map<string, Ask>, order: seq<string> := map[], [];
    ghost var d: seq<Ask> := [];
    var i := 0;
    hide DedupeRow, MintAt;
    while i < |valid|
      invariant 0 <= i <= |valid| && d == Dedupe(valid[..i]) && Mirrors(cheapest, order, d)
    {
      hide Mirrors;
      var l := valid[i];
      assert valid[..i + 1][..i] == valid[..i];
      MirrorStep(cheapest, order, d, l);
      if l.mint !in cheapest {
        order := order + [l.mint];
        cheapest := cheapest[l.mint := l];
      } else if l.price < cheapest[l.mint].price {
        cheapest := cheapest[l.mint := l];
      }
      d := DedupeRow(d, l);
      i := i + 1;
    }
    assert valid[..i] == valid;
    rows := seq(|order|, k requires 0 <= k < |order| && order[k] in cheapest => cheapest[order[k]]);
  }

  /** The row is a cheapest one of its mint, and the first such row. */
  ghost predicate FirstCheapest(valid: seq<Ask>, a: Ask, k: nat) {
    && k < |valid| && valid[k] == a
    && (forall j :: 0 <= j < |valid| && valid[j].mint == a.mint ==> a.price <= valid[j].price)
    && (forall j :: 0 <= j < k && valid[j].mint == a.mint ==> a.price < valid[j].price)
  }

  ghost predicate IsFirstCheapest(valid: seq<Ask>, a: Ask) { exists k :: FirstCheapest(valid, a, k) }

  lemma NewFirst(valid: seq<Ask>, row: Ask, a: Ask)
    ensures a.mint != row.mint ==> (IsFirstCheapest(valid + [row], a) <==> IsFirstCheapest(valid, a))
    ensures a.mint == row.mint && a.price <= row.price ==> (IsFirstCheapest(valid, a) ==> IsFirstCheapest(valid + [row], a))
    ensures (forall j :: 0 <= j < |valid| && valid[j].mint == row.mint ==> row.price < valid[j].price)
            ==> IsFirstCheapest(valid + [row], row)
  {
    var all := valid + [row];
    if k: nat :| FirstCheapest(valid, a, k) {
      if a.mint != row.mint || a.price <= row.price { assert FirstCheapest(all, a, k); }
    }
    if k: nat :| FirstCheapest(all, a, k) {
      if a.mint != row.mint {
        forall j | 0 <= j < |valid| ensures valid[j] == all[j] {}
        assert FirstCheapest(valid, a, k);
      }
    }
    if forall j :: 0 <= j < |valid| && valid[j].mint == row.mint ==> row.price < valid[j].price {
      assert FirstCheapest(all, row, |valid|);
    }
  }

  /** Two first cheapest rows of one mint are the same row. */
  lemma FirstUnique(valid: seq<Ask>, a: Ask, b: Ask)
    requires IsFirstCheapest(valid, a) && IsFirstCheapest(valid, b) && a.mint == b.mint
    ensures a == b
  {
    var k: nat :| FirstCheapest(valid, a, k);
    var l: nat :| FirstCheapest(valid, b, l);
    assert valid[k] == a && valid[l] == b;
  }

  lemma {:induction false} MintsSeen(valid: seq<Ask>)
    ensures var d := Dedupe(valid);
            && MintsApart(d) && |d| <= |valid|
            && (forall i :: 0 <= i < |d| ==> IsFirstCheapest(valid, d[i]))
            && (forall j :: 0 <= j < |valid| ==> MintAt(d, valid[j].mint) < |d|)
    decreases |valid|
  {
    hide IsFirstCheapest, DedupeRow, MintAt;
    if |valid| > 0 {
      var n := |valid| - 1;
      var d, row := Dedupe(valid[..n]), valid[n];
      MintsSeen(valid[..n]);
      assert valid == valid[..n] + [row];
      SeenStep(valid[..n], d, row);
    }
  }

  lemma SeenStep(valid: seq<Ask>, d: seq<Ask>, row: Ask)
    requires MintsApart(d)
    requires forall i :: 0 <= i < |d| ==> IsFirstCheapest(valid, d[i])
    requires forall j :: 0 <= j < |valid| ==> MintAt(d, valid[j].mint) < |d|
    ensures var r := DedupeRow(d, row);
            && MintsApart(r) && |d| <= |r| <= |d| + 1
            && (forall i :: 0 <= i < |r| ==> IsFirstCheapest(valid + [row], r[i]))
            && (forall j :: 0 <= j < |valid + [row]| ==> MintAt(r, (valid + [row])[j].mint) < |r|)
  {
    hide IsFirstCheapest;
    var i, r, all := MintAt(d, row.mint), DedupeRow(d, row), valid + [row];
    forall j | 0 <= j < |all| ensures MintAt(r, all[j].mint) < |r| {
      var m := all[j].mint;
      var k := if m == row.mint then i else MintAt(d, m);
      assert r[k].mint == m;
    }
    RowIsFirst(valid, d, row);
    forall k | 0 <= k < |r| ensures IsFirstCheapest(all, r[k]) {
      if r[k] != row { NewFirst(valid, row, r[k]); }
    }
  }

  /** A row of a new mint, or one cheaper than what is held, is the first cheapest of its mint. */
  lemma RowIsFirst(valid: seq<Ask>, d: seq<Ask>, row: Ask)
    requires MintsApart(d)
    requires forall i :: 0 <= i < |d| ==> IsFirstCheapest(valid, d[i])
    requires forall j :: 0 <= j < |valid| ==> MintAt(d, valid[j].mint) < |d|
    ensures var i := MintAt(d, row.mint);
            && (i == |d| || row.price < d[i].price ==> IsFirstCheapest(valid + [row], row))
            && (i < |d| && row.price >= d[i].price ==> IsFirstCheapest(valid + [row], d[i]))
  {
    var i := MintAt(d, row.mint);
    if i < |d| {
      NewFirst(valid, row, d[i]);
      var k: nat :| FirstCheapest(valid, d[i], k);
    }
    NewFirst(valid, row, row);
  }

  /** Deduplication keeps exactly the first cheapest row of every mint, once. */
  lemma DedupeExactly(valid: seq<Ask>, a: Ask)
    ensures MintsApart(Dedupe(valid))
    ensures a in Dedupe(valid) <==> IsFirstCheapest(valid, a)
  {
    hide IsFirstCheapest, Dedupe;
    MintsSeen(valid);
    if IsFirstCheapest(valid, a) {
      FirstIsRow(valid, a);
      var d := Dedupe(valid);
      var i := MintAt(d, a.mint);
      FirstUnique(valid, a, d[i]);
    }
  }

  lemma FirstIsRow(valid: seq<Ask>, a: Ask)
    requires IsFirstCheapest(valid, a)
    ensures exists k :: 0 <= k < |valid| && valid[k] == a
  {
    var k: nat :| FirstCheapest(valid, a, k);
  }

  // ---- Asks in order of price -------------------------------------------------------------------

  predicate CheaperFirst(a: Ask, b: Ask) { a.price <= b.price }

  function SomePrice(a: Ask): Option<real> { Some(a.price) }

  /** The asks that remain after deduplication, cheapest first. */
  function Asks(valid: seq<Ask>): seq<Ask> { SortBy(CheaperFirst, Dedupe(valid)) }

  function Prices(asks: seq<Ask>): seq<real> { FilterMap(SomePrice, asks) }

  ghost predicate Ascending(ps: seq<real>) { forall i, j :: 0 <= i < j < |ps| ==> ps[i] <= ps[j] }

  predicate Le(x: real, y: real) { x <= y }

  lemma {:induction false} PricesAt(asks: seq<Ask>)
    ensures |Prices(asks)| == |asks| && forall i :: 0 <= i < |asks| ==> Prices(asks)[i] == asks[i].price
  {
    if |asks| > 0 { PricesAt(asks[..|asks| - 1]); }
  }

  lemma AsksSorted(valid: seq<Ask>)
    ensures Ascending(Prices(Asks(valid))) && SortedBy(Le, Prices(Asks(valid)))
    ensures multiset(Asks(valid)) == multiset(Dedupe(valid))
  {
    hide Dedupe;
    SortBySorts(CheaperFirst, Dedupe(valid));
    PricesAt(Asks(valid));
  }

  ghost function Mints(valid: seq<Ask>): set<string> { set i: nat | i < |valid| :: valid[i].mint }

  /** As many asks remain as there are mints, and they are the first cheapest row of each. */
  lemma OnePerMint(valid: seq<Ask>, a: Ask)
    ensures |Asks(valid)| == |Mints(valid)|
    ensures a in Asks(valid) <==> IsFirstCheapest(valid, a)
  {
    var d := Dedupe(valid);
    AsksSorted(valid);
    MintsSeen(valid);
    DedupeExactly(valid, a);
    hide Dedupe, SortBy, IsFirstCheapest;
    assert |multiset(Asks(valid))| == |multiset(d)|;
    assert a in multiset(Asks(valid)) <==> a in multiset(d);
    MintsCounted(d);
    SameMints(valid, d);
  }

  lemma SameMints(valid: seq<Ask>, d: seq<Ask>)
    requires forall i :: 0 <= i < |d| ==> IsFirstCheapest(valid, d[i])
    requires forall j :: 0 <= j < |valid| ==> MintAt(d, valid[j].mint) < |d|
    ensures Mints(d) == Mints(valid)
  {
    forall m | m in Mints(d) ensures m in Mints(valid) {
      var i: nat :| i < |d| && d[i].mint == m;
      FirstIsRow(valid, d[i]);
      hide IsFirstCheapest;
    }
    forall m | m in Mints(valid) ensures m in Mints(d) {
      var j: nat :| j < |valid| && valid[j].mint == m;
      assert d[MintAt(d, m)].mint == m;
    }
  }

  lemma MintsStep(d: seq<Ask>)
    requires |d| > 0
    ensures Mints(d) == Mints(d[..|d| - 1]) + {d[|d| - 1].mint}
  {
    var n := |d| - 1;
    forall m | m in Mints(d) ensures m in Mints(d[..n]) + {d[n].mint} {
      var i: nat :| i < |d| && d[i].mint == m;
      if i < n { assert d[..n][i].mint == m; }
    }
    forall m | m in Mints(d[..n]) ensures m in Mints(d) {
      var i: nat :| i < n && d[..n][i].mint == m;
      assert d[i].mint == m;
    }
    assert d[n].mint in Mints(d);
  }

  lemma {:induction false} MintsCounted(d: seq<Ask>)
    requires MintsApart(d)
    ensures |Mints(d)| == |d|
  {
    if |d| > 0 {
      var n := |d| - 1;
      MintsCounted(d[..n]);
      MintsStep(d);
      assert d[n].mint !in Mints(d[..n]);
      hide Mints, MintsApart;
    } else {
      assert Mints(d) == {};
    }
  }

  /** The part of an ask that decides the floor: its mint and its price. */
  function Bare(a: Ask): Ask { a.(source := ME, kind := Direct) }

  function SomeBare(a: Ask): Option<Ask> { Some(Bare(a)) }

  lemma {:induction false} BarePrices(asks: seq<Ask>)
    ensures Prices(FilterMap(SomeBare, asks)) == Prices(asks)
    ensures |FilterMap(SomeBare, asks)| == |asks|
    ensures forall i :: 0 <= i < |asks| ==> FilterMap(SomeBare, asks)[i] == Bare(asks[i])
  {
    if |asks| > 0 {
      var n := |asks| - 1;
      var kept := FilterMap(SomeBare, asks[..n]);
      BarePrices(asks[..n]);
      FilterMapStep(SomeBare, asks[..n], asks[n]);
      assert asks == asks[..n] + [asks[n]];
      assert FilterMap(SomeBare, asks) == kept + [Bare(asks[n])];
      FilterMapStep(SomePrice, kept, Bare(asks[n]));
      FilterMapStep(SomePrice, asks[..n], asks[n]);
    }
  }

  /** The cheapest price of every mint does not depend on the order of the rows. */
  lemma BareReordered(v: seq<Ask>, w: seq<Ask>, a: Ask)
    requires multiset(v) == multiset(w) && a in Dedupe(v)
    ensures exists b :: b in Dedupe(w) && Bare(b) == Bare(a)
  {
    hide Dedupe, MintAt;
    DedupeExactly(v, a);
    FirstIsRow(v, a);
    assert a in multiset(w);
    var j := IndexOf(w, a);
    MintsSeen(w);
    var b := Dedupe(w)[MintAt(Dedupe(w), a.mint)];
    DedupeExactly(w, b);
    FirstIsRow(w, b);
    assert b in multiset(v);
    FirstLeast(v, a, b);
    FirstLeast(w, b, a);
    assert b in Dedupe(w) && Bare(b) == Bare(a);
  }

  lemma FirstLeast(valid: seq<Ask>, a: Ask, b: Ask)
    requires IsFirstCheapest(valid, a) && b in valid && b.mint == a.mint
    ensures a.price <= b.price
  {
    var k: nat :| FirstCheapest(valid, a, k);
    var j := IndexOf(valid, b);
  }

  lemma BareIn(d: seq<Ask>, e: seq<Ask>, r: Ask)
    requires forall a :: a in d ==> exists b :: b in e && Bare(b) == Bare(a)
    requires r in FilterMap(SomeBare, d)
    ensures r in FilterMap(SomeBare, e)
  {
    FilterMapMembers(SomeBare, d, r);
    FilterMapMembers(SomeBare, e, r);
    hide FilterMap, Bare;
    var i :| 0 <= i < |d| && SomeBare(d[i]) == Some(r);
    var b :| b in e && Bare(b) == Bare(d[i]);
    var j := IndexOf(e, b);
    assert SomeBare(e[j]) == Some(r);
  }

  lemma BareMembers(d: seq<Ask>, e: seq<Ask>)
    requires MintsApart(d) && MintsApart(e)
    requires forall a :: a in d ==> exists b :: b in e && Bare(b) == Bare(a)
    requires forall b :: b in e ==> exists a :: a in d && Bare(a) == Bare(b)
    ensures multiset(FilterMap(SomeBare, d)) == multiset(FilterMap(SomeBare, e))
  {
    hide Bare, FilterMap, MintsApart;
    BareApart(d);
    BareApart(e);
    forall r ensures r in FilterMap(SomeBare, d) <==> r in FilterMap(SomeBare, e) {
      if r in FilterMap(SomeBare, d) { BareIn(d, e, r); }
      if r in FilterMap(SomeBare, e) { BareIn(e, d, r); }
    }
    SameMembers(FilterMap(SomeBare, d), FilterMap(SomeBare, e));
  }

  lemma BareApart(d: seq<Ask>)
    requires MintsApart(d)
    ensures Apart(FilterMap(SomeBare, d))
  {
    BarePrices(d);
  }

  /** The sorted prices do not depend on the order of the rows. */
  lemma PricesReordered(v: seq<Ask>, w: seq<Ask>)
    requires multiset(v) == multiset(w)
    ensures Prices(Asks(v)) == Prices(Asks(w))
  {
    hide Dedupe, FilterMap, SortBy;
    MintsSeen(v);
    MintsSeen(w);
    forall a | a in Dedupe(v) ensures exists b :: b in Dedupe(w) && Bare(b) == Bare(a) { BareReordered(v, w, a); }
    forall b | b in Dedupe(w) ensures exists a :: a in Dedupe(v) && Bare(a) == Bare(b) { BareReordered(w, v, b); }
    BareMembers(Dedupe(v), Dedupe(w));
    FilterMapReordered(SomePrice, FilterMap(SomeBare, Dedupe(v)), FilterMap(SomeBare, Dedupe(w)));
    BarePrices(Dedupe(v));
    BarePrices(Dedupe(w));
    AsksSorted(v);
    AsksSorted(w);
    FilterMapReordered(SomePrice, Asks(v), Dedupe(v));
    FilterMapReordered(SomePrice, Asks(w), Dedupe(w));
    SortedUnique(Le, Prices(Asks(v)), Prices(Asks(w)));
  }
}
