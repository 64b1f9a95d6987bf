/** Cross-market comparison of one collection (src/analytics/cross-market.ts), over exact
    prices; `eps` is the tolerance of an undercut. */
module CrossMarket {
  import opened Options
  import opened Orderings
  import opened OrderBook

  datatype Confidence = High | Medium | Low

  datatype Opportunity = Opportunity(mint: string, source: Source, kind: Kind, price: real,
                                     referenceSource: Source, referenceFloor: real, gapSol: real, gapPct: real)

  datatype Gap = Gap(meFloor: Option<real>, mmmFloor: Option<real>, tensorFloor: Option<real>, anyFloor: Option<real>,
                     perMint: seq<Ask>, rawCount: nat, uniqueCount: nat, opportunities: seq<Opportunity>,
                     confidence: Confidence)

  // ---- Floors ---------------------------------------------------------------------------------

  predicate Of(a: Ask, source: Source, kind: Kind) { a.source == source && a.kind == kind }

  function Lower(floor: Option<real>, price: real): Option<real> {
    if floor.None? || price < floor.value then Some(price) else floor
  }

  function FloorOf(valid: seq<Ask>, source: Source, kind: Kind): Option<real> {
    if |valid| == 0 then None
    else
      var floor, last := FloorOf(valid[..|valid| - 1], source, kind), valid[|valid| - 1];
      if Of(last, source, kind) then Lower(floor, last.price) else floor
  }

  /** Attained by a row of the market and undercut by none, and missing when it has no row. */
  ghost predicate IsFloor(f: Option<real>, valid: seq<Ask>, source: Source, kind: Kind) {
    && (f.None? <==> forall i :: 0 <= i < |valid| ==> !(valid[i].source == source && valid[i].kind == kind))
    && (f.Some? ==>
          && (exists i :: 0 <= i < |valid| && valid[i].source == source && valid[i].kind == kind && valid[i].price == f.value)
          && forall i :: 0 <= i < |valid| && valid[i].source == source && valid[i].kind == kind ==> f.value <= valid[i].price)
  }

  /** The floor of a market is attained by one of its rows and undercut by none. */
  lemma {:induction false} FloorExactly(valid: seq<Ask>, source: Source, kind: Kind)
    ensures IsFloor(FloorOf(valid, source, kind), valid, source, kind)
  {
    if |valid| > 0 {
      var n := |valid| - 1;
      FloorExactly(valid[..n], source, kind);
      var f := FloorOf(valid[..n], source, kind);
      if f.Some? {
        var i :| 0 <= i < n && Of(valid[..n][i], source, kind) && valid[..n][i].price == f.value;
        assert valid[i] == valid[..n][i];
      }
      forall i | 0 <= i < n ensures valid[i] == valid[..n][i] {}
    }
  }

  method ComputeFloors(valid: seq<Ask>) returns (me: Option<real>, mmm: Option<real>, tensor: Option<real>)
    ensures me == FloorOf(valid, ME, Direct) && mmm == FloorOf(valid, MMM, Pool) && tensor == FloorOf(valid, TENSOR, Direct)
    ensures IsFloor(me, valid, ME, Direct) && IsFloor(mmm, valid, MMM, Pool) && IsFloor(tensor, valid, TENSOR, Direct)
  {
    FloorExactly(valid, ME, Direct);
    FloorExactly(valid, MMM, Pool);
    FloorExactly(valid, TENSOR, Direct);
    hide IsFloor;
    me, mmm, tensor := None, None, None;
    for i := 0 to |valid|
      invariant me == FloorOf(valid[..i], ME, Direct) && mmm == FloorOf(valid[..i], MMM, Pool)
      invariant tensor == FloorOf(valid[..i], TENSOR, Direct)
    {
      var l := valid[i];
      assert valid[..i + 1][..i] == valid[..i];
      if l.source == ME && l.kind == Direct {
        if me.None? || l.price < me.value { me := Some(l.price); }
      } else if l.source == MMM && l.kind == Pool {
        if mmm.None? || l.price < mmm.value { mmm := Some(l.price); }
      } else if l.source == TENSOR && l.kind == Direct {
        if tensor.None? || l.price < tensor.value { tensor := Some(l.price); }
      }
    }
    assert valid[..|valid|] == valid;
  }

  lemma FloorReordered(v: seq<Ask>, w: seq<Ask>, source: Source, kind: Kind)
    requires multiset(v) == multiset(w)
    ensures FloorOf(v, source, kind) == FloorOf(w, source, kind)
  {
    if FloorOf(v, source, kind).Some? { FloorBelow(v, w, source, kind); }
    if FloorOf(w, source, kind).Some? { FloorBelow(w, v, source, kind); }
  }

  lemma FloorBelow(v: seq<Ask>, w: seq<Ask>, source: Source, kind: Kind)
    requires multiset(v) == multiset(w) && FloorOf(v, source, kind).Some?
    ensures FloorOf(w, source, kind).Some? && FloorOf(w, source, kind).value <= FloorOf(v, source, kind).value
  {
    hide FloorOf;
    FloorExactly(v, source, kind);
    FloorExactly(w, source, kind);
    var i :| 0 <= i < |v| && v[i].source == source && v[i].kind == kind && v[i].price == FloorOf(v, source, kind).value;
    assert v[i] in multiset(w);
    var j := IndexOf(w, v[i]);
  }

  // ---- Opportunities --------------------------------------------------------------------------

  datatype Reference = Reference(me: Option<real>, tensor: Option<real>, eps: real)

  /** The market an ask is compared with, never its own, and that market's direct floor. */
  function OtherSource(a: Ask): Source { if a.source == TENSOR then ME else TENSOR }

  function OtherFloor(a: Ask, r: Reference): Option<real> { if a.source == TENSOR then r.me else r.tensor }

  predicate Undercuts(a: Ask, r: Reference) {
    OtherFloor(a, r).Some? && a.price < OtherFloor(a, r).value - r.eps
  }

  /** Floors are positive, so the quotient is always defined. */
  function Ratio(x: real, y: real): real { if y == 0.0 then 0.0 else x / y }

  function OpportunityOf(a: Ask, r: Reference): Option<Opportunity> {
    if Undercuts(a, r) then
      var floor := OtherFloor(a, r).value;
      Some(Opportunity(a.mint, a.source, a.kind, a.price, OtherSource(a), floor, floor - a.price,
                       Ratio(floor - a.price, floor)))
    else None
  }

  function Finder(r: Reference): Ask -> Option<Opportunity> { a => OpportunityOf(a, r) }

  method FindOpportunities(perMint: seq<Ask>, r: Reference) returns (found: seq<Opportunity>)
    ensures found == FilterMap(Finder(r), perMint)
  {
    found := [];
    for i := 0 to |perMint|
      invariant found == FilterMap(Finder(r), perMint[..i])
    {
      var l := perMint[i];
      assert perMint[..i + 1] == perMint[..i] + [l];
      FilterMapStep(Finder(r), perMint[..i], l);
      if l.source != TENSOR && r.tensor.Some? {
        if l.price < r.tensor.value - r.eps {
          var gapSol := r.tensor.value - l.price;
          found := found + [Opportunity(l.mint, l.source, l.kind, l.price, TENSOR, r.tensor.value, gapSol,
                                        Ratio(gapSol, r.tensor.value))];
        }
      } else if l.source == TENSOR && r.me.Some? {
        if l.price < r.me.value - r.eps {
          var gapSol := r.me.value - l.price;
          found := found + [Opportunity(l.mint, l.source, l.kind, l.price, ME, r.me.value, gapSol,
                                        Ratio(gapSol, r.me.value))];
        }
      }
    }
    assert perMint[..|perMint|] == perMint;
  }

  /** String comparison by code unit. */
  predicate StringLe(a: string, b: string) {
    if |a| == 0 then true
    else if |b| == 0 then false
    else if a[0] != b[0] then a[0] < b[0]
    else StringLe(a[1..], b[1..])
  }

  lemma {:induction false} StringTotal(a: string, b: string)
    ensures StringLe(a, b) || StringLe(b, a)
    ensures StringLe(a, b) && StringLe(b, a) ==> a == b
  {
    if |a| > 0 && |b| > 0 && a[0] == b[0] {
      StringTotal(a[1..], b[1..]);
      assert a == [a[0]] + a[1..] && b == [b[0]] + b[1..];
    }
  }

  lemma {:induction false} StringTransitive(a: string, b: string, c: string)
    ensures StringLe(a, b) && StringLe(b, c) ==> StringLe(a, c)
  {
    if |a| > 0 && |b| > 0 && |c| > 0 { StringTransitive(a[1..], b[1..], c[1..]); }
  }

  /** The stronger gap first: by percentage, then by amount, then by mint. */
  predicate Stronger(a: Opportunity, b: Opportunity) {
    if b.gapPct != a.gapPct then b.gapPct < a.gapPct
    else if b.gapSol != a.gapSol then b.gapSol < a.gapSol
    else StringLe(a.mint, b.mint)
  }

  lemma StrongerIsOrder()
    ensures Preorder(Stronger)
    ensures forall a, b :: Stronger(a, b) && Stronger(b, a) ==> a.mint == b.mint
  {
    hide StringLe;
    forall a, b
      ensures Stronger(a, b) || Stronger(b, a)
      ensures Stronger(a, b) && Stronger(b, a) ==> a.mint == b.mint
    {
      StringTotal(a.mint, b.mint);
    }
    forall a, b, c | Stronger(a, b) && Stronger(b, c) ensures Stronger(a, c) { StringTransitive(a.mint, b.mint, c.mint); }
  }

  // ---- The result -----------------------------------------------------------------------------

  function PerMint(valid: seq<Ask>): seq<Ask> { Asks(valid) }

  function ReferenceOf(valid: seq<Ask>, eps: real): Reference {
    Reference(FloorOf(valid, ME, Direct), FloorOf(valid, TENSOR, Direct), eps)
  }

  function Opportunities(valid: seq<Ask>, eps: real): seq<Opportunity> {
    SortBy(Stronger, FilterMap(Finder(ReferenceOf(valid, eps)), PerMint(valid)))
  }

  function ConfidenceOf(unique: nat, me: Option<real>, tensor: Option<real>): Confidence {
    if unique < 2 then Low else if unique >= 5 && me.Some? && tensor.Some? then High else Medium
  }

  function GapOf(listings: seq<Listing>, eps: real): Gap {
    var valid := ValidRows(listings);
    var per, me, tensor := PerMint(valid), FloorOf(valid, ME, Direct), FloorOf(valid, TENSOR, Direct);
    Gap(me, FloorOf(valid, MMM, Pool), tensor, if |per| > 0 then Some(per[0].price) else None,
        per, |valid|, |per|, Opportunities(valid, eps), ConfidenceOf(|per|, me, tensor))
  }

  method ComputeCrossMarketGap(listings: seq<Listing>, eps: real) returns (g: Gap)
    ensures g == GapOf(listings, eps)
  {
    hide Dedupe, FloorOf, ValidRows, FilterMap, SortBy, Rows;
    var valid, droppedForMint, droppedForPrice := FilterValid(listings);
    var me, mmm, tensor := ComputeFloors(valid);
    var cheapest := DedupeCheapest(valid);
    var perMint := SortBy(CheaperFirst, cheapest);
    var any := if |perMint| > 0 then Some(perMint[0].price) else None;
    var found := FindOpportunities(perMint, Reference(me, tensor, eps));
    var confidence;
    if any.None? || |perMint| < 2 { confidence := Low; }
    else if |perMint| >= 5 && me.Some? && tensor.Some? { confidence := High; }
    else { confidence := Medium; }
    g := Gap(me, mmm, tensor, any, perMint, |valid|, |perMint|, SortBy(Stronger, found), confidence);
  }

  // ---- What an opportunity is -------------------------------------------------------------------

  function MintOf(a: Ask): string { a.mint }

  function OfferedMint(o: Opportunity): string { o.mint }

  lemma PerMintExactly(valid: seq<Ask>, a: Ask)
    ensures a in PerMint(valid) <==> IsFirstCheapest(valid, a)
    ensures KeysApart(MintOf, PerMint(valid))
  {
    var d, p := Dedupe(valid), PerMint(valid);
    DedupeExactly(valid, a);
    hide Dedupe, IsFirstCheapest;
    SortBySorts(CheaperFirst, d);
    hide SortBy;
    assert a in multiset(p) <==> a in multiset(d);
    ReorderedApart(MintOf, d, p);
  }

  lemma FoundExactly(valid: seq<Ask>, eps: real, o: Opportunity)
    ensures o in Opportunities(valid, eps)
            <==> exists a :: IsFirstCheapest(valid, a) && OpportunityOf(a, ReferenceOf(valid, eps)) == Some(o)
  {
    var r, per := ReferenceOf(valid, eps), PerMint(valid);
    var found := FilterMap(Finder(r), per);
    hide PerMint, IsFirstCheapest, ReferenceOf, OpportunityOf;
    StrongerIsOrder();
    SortBySorts(Stronger, found);
    assert o in multiset(Opportunities(valid, eps)) <==> o in multiset(found);
    FilterMapMembers(Finder(r), per, o);
    hide FilterMap, SortBy;
    if o in found {
      var i :| 0 <= i < |per| && Finder(r)(per[i]) == Some(o);
      PerMintExactly(valid, per[i]);
      assert IsFirstCheapest(valid, per[i]) && OpportunityOf(per[i], r) == Some(o);
    }
    if a :| IsFirstCheapest(valid, a) && OpportunityOf(a, r) == Some(o) {
      PerMintExactly(valid, a);
      var i := IndexOf(per, a);
      assert Finder(r)(per[i]) == Some(o);
    }
  }

  ghost predicate HasMint(per: seq<Ask>, mint: string) { exists k :: 0 <= k < |per| && per[k].mint == mint }

  lemma {:induction false} FoundApart(r: Reference, per: seq<Ask>)
    requires KeysApart(MintOf, per)
    ensures KeysApart(OfferedMint, FilterMap(Finder(r), per))
    ensures forall o :: o in FilterMap(Finder(r), per) ==> HasMint(per, o.mint)
  {
    if |per| > 0 {
      var n := |per| - 1;
      FoundApart(r, per[..n]);
      var f, last := FilterMap(Finder(r), per[..n]), Finder(r)(per[n]);
      assert last.Some? ==> last.value.mint == per[n].mint;
      hide Finder, OpportunityOf;
      forall o | o in f ensures HasMint(per, o.mint) && o.mint != per[n].mint { MintEarlier(per, o.mint); }
      assert HasMint(per, per[n].mint);
      forall i | 0 <= i < |f| ensures f[i].mint != per[n].mint { assert f[i] in f; }
    }
  }

  lemma MintEarlier(per: seq<Ask>, mint: string)
    requires KeysApart(MintOf, per) && |per| > 0 && HasMint(per[..|per| - 1], mint)
    ensures HasMint(per, mint) && mint != per[|per| - 1].mint
  {
    var k :| 0 <= k < |per| - 1 && per[..|per| - 1][k].mint == mint;
    assert per[k].mint == mint && MintOf(per[k]) != MintOf(per[|per| - 1]);
  }

  ghost predicate Offers(valid: seq<Ask>, eps: real, mint: string) {
    exists o :: o in Opportunities(valid, eps) && o.mint == mint
  }

  /** The market that a row of `source` is compared with: Tensor's with Magic Eden, all others
      with Tensor. */
  ghost predicate ComparedWith(source: Source, other: Source) {
    (source == TENSOR && other == ME) || (source == ME && other == TENSOR) || (source == MMM && other == TENSOR)
  }

  /** The row costs less than every direct row of the market it is compared with, by more than
      the tolerance, and there is such a row. */
  ghost predicate Below(a: Ask, valid: seq<Ask>, other: Source, eps: real) {
    && (exists i :: 0 <= i < |valid| && valid[i].source == other && valid[i].kind == Direct)
    && forall i :: 0 <= i < |valid| && valid[i].source == other && valid[i].kind == Direct ==> a.price < valid[i].price - eps
  }

  ghost predicate CheapestUndercuts(valid: seq<Ask>, eps: real, mint: string) {
    exists a, other :: IsFirstCheapest(valid, a) && a.mint == mint && ComparedWith(a.source, other) && Below(a, valid, other, eps)
  }

  lemma UndercutsExactly(a: Ask, valid: seq<Ask>, eps: real)
    ensures Undercuts(a, ReferenceOf(valid, eps)) <==> exists other :: ComparedWith(a.source, other) && Below(a, valid, other, eps)
  {
    var other := if a.source == TENSOR then ME else TENSOR;
    assert ComparedWith(a.source, other);
    FloorExactly(valid, other, Direct);
    hide FloorOf;
    var f := FloorOf(valid, other, Direct);
    if f.Some? { var i :| 0 <= i < |valid| && valid[i].source == other && valid[i].kind == Direct && valid[i].price == f.value; }
  }

  /** A mint is offered if and only if its cheapest row (the first one on a tie) undercuts the
      direct rows of the other market by more than the tolerance: a Tensor row those of Magic
      Eden, any other row those of Tensor. */
  lemma OfferedExactly(valid: seq<Ask>, eps: real, mint: string)
    ensures Offers(valid, eps, mint) <==> CheapestUndercuts(valid, eps, mint)
  {
    var r := ReferenceOf(valid, eps);
    hide Opportunities, IsFirstCheapest, ReferenceOf;
    if Offers(valid, eps, mint) {
      var o :| o in Opportunities(valid, eps) && o.mint == mint;
      FoundExactly(valid, eps, o);
      var a :| IsFirstCheapest(valid, a) && OpportunityOf(a, r) == Some(o);
      UndercutsExactly(a, valid, eps);
      hide Below, Undercuts;
    }
    if CheapestUndercuts(valid, eps, mint) {
      var a, other :| IsFirstCheapest(valid, a) && a.mint == mint && ComparedWith(a.source, other) && Below(a, valid, other, eps);
      UndercutsExactly(a, valid, eps);
      var o := OpportunityOf(a, r).value;
      FoundExactly(valid, eps, o);
      assert o in Opportunities(valid, eps) && o.mint == mint;
    }
  }

  /** The first code unit where the two differ is smaller in the first, or the first is a proper
      beginning of the second. */
  ghost predicate Precedes(a: string, b: string) { exists k: nat :: PrecedesAt(a, b, k) }

  ghost predicate PrecedesAt(a: string, b: string, k: nat) {
    && k <= |a| && k <= |b| && a[..k] == b[..k]
    && ((k == |a| && k < |b|) || (k < |a| && k < |b| && a[k] < b[k]))
  }

  lemma {:induction false} StringLeExactly(a: string, b: string)
    ensures StringLe(a, b) <==> a == b || Precedes(a, b)
    decreases |a|
  {
    if |a| == 0 {
      if |b| > 0 { assert PrecedesAt(a, b, 0); }
    } else if |b| > 0 {
      if a[0] == b[0] { StringLeExactly(a[1..], b[1..]); }
      PrecedesNext(a, b);
    }
  }

  lemma PrecedesNext(a: string, b: string)
    requires |a| > 0 && |b| > 0
    ensures Precedes(a, b) <==> a[0] < b[0] || (a[0] == b[0] && Precedes(a[1..], b[1..]))
    ensures a == b <==> a[0] == b[0] && a[1..] == b[1..]
  {
    assert a == [a[0]] + a[1..] && b == [b[0]] + b[1..];
    if k: nat :| PrecedesAt(a, b, k) {
      if k > 0 {
        assert a[..k][0] == b[..k][0] && a[..k][1..] == a[1..][..k - 1] && b[..k][1..] == b[1..][..k - 1];
        assert PrecedesAt(a[1..], b[1..], k - 1);
      }
    }
    if a[0] < b[0] { assert PrecedesAt(a, b, 0); }
    if a[0] == b[0] && Precedes(a[1..], b[1..]) {
      var k: nat :| PrecedesAt(a[1..], b[1..], k);
      assert a[..k + 1] == [a[0]] + a[1..][..k] && b[..k + 1] == [b[0]] + b[1..][..k];
      assert PrecedesAt(a, b, k + 1);
    }
  }

  /** Strictly ahead: a greater percentage, or the same and a greater amount, or the same and an
      earlier mint. */
  ghost predicate Ahead(a: Opportunity, b: Opportunity) {
    || a.gapPct > b.gapPct
    || (a.gapPct == b.gapPct && (a.gapSol > b.gapSol || (a.gapSol == b.gapSol && Precedes(a.mint, b.mint))))
  }

  lemma StrongerExactly(a: Opportunity, b: Opportunity)
    requires a.mint != b.mint
    ensures Stronger(a, b) <==> Ahead(a, b)
  {
    StringLeExactly(a.mint, b.mint);
  }

  /** An opportunity shows the row it comes from, the floor it is compared with, and the gap in
      full and as a part of that floor. */
  ghost predicate Shows(o: Opportunity, a: Ask, valid: seq<Ask>) {
    && o.mint == a.mint && o.source == a.source && o.kind == a.kind && o.price == a.price
    && ComparedWith(o.source, o.referenceSource) && IsFloor(Some(o.referenceFloor), valid, o.referenceSource, Direct)
    && o.gapSol == o.referenceFloor - o.price && (o.referenceFloor != 0.0 ==> o.gapPct * o.referenceFloor == o.gapSol)
  }

  lemma OpportunityShows(a: Ask, valid: seq<Ask>, eps: real)
    requires Undercuts(a, ReferenceOf(valid, eps))
    ensures var o := OpportunityOf(a, ReferenceOf(valid, eps)).value; Shows(o, a, valid) && o.gapSol > eps
  {
    var o := OpportunityOf(a, ReferenceOf(valid, eps)).value;
    FloorExactly(valid, o.referenceSource, Direct);
    hide IsFloor, FloorOf;
    if o.referenceFloor != 0.0 { assert o.gapSol / o.referenceFloor * o.referenceFloor == o.gapSol; }
  }

  /** Every opportunity shows a first cheapest row against the direct floor of the market it is
      compared with, by a gap above the tolerance; each mint appears once, and the widest gap
      comes first. */
  lemma OpportunitiesOrdered(valid: seq<Ask>, eps: real)
    ensures var os := Opportunities(valid, eps);
            && (forall i, j :: 0 <= i < j < |os| ==> Ahead(os[i], os[j]) && os[i].mint != os[j].mint)
            && (forall i :: 0 <= i < |os| ==>
                  os[i].gapSol > eps && exists a :: IsFirstCheapest(valid, a) && Shows(os[i], a, valid))
  {
    var os := Opportunities(valid, eps);
    StrictlySorted(valid, eps);
    hide Opportunities, Stronger, Ahead, Shows, IsFirstCheapest, ReferenceOf;
    forall i, j | 0 <= i < j < |os| ensures Ahead(os[i], os[j]) && os[i].mint != os[j].mint {
      StrongerExactly(os[i], os[j]);
    }
    forall i | 0 <= i < |os| ensures os[i].gapSol > eps && exists a :: IsFirstCheapest(valid, a) && Shows(os[i], a, valid) {
      FoundExactly(valid, eps, os[i]);
      var a :| IsFirstCheapest(valid, a) && OpportunityOf(a, ReferenceOf(valid, eps)) == Some(os[i]);
      OpportunityShows(a, valid, eps);
    }
  }

  lemma StrictlySorted(valid: seq<Ask>, eps: real)
    ensures var os := Opportunities(valid, eps);
            forall i, j :: 0 <= i < j < |os| ==> Stronger(os[i], os[j]) && os[i].mint != os[j].mint
  {
    var r, per := ReferenceOf(valid, eps), PerMint(valid);
    var os, found := Opportunities(valid, eps), FilterMap(Finder(r), per);
    PerMintApart(valid);
    FoundApart(r, per);
    StrongerIsOrder();
    SortBySorts(Stronger, found);
    hide PerMint, FilterMap, SortBy, Stronger, Preorder;
    ReorderedApart(OfferedMint, found, os);
    forall i, j | 0 <= i < j < |os| ensures os[i].mint != os[j].mint { assert OfferedMint(os[i]) != OfferedMint(os[j]); }
  }

  lemma PerMintApart(valid: seq<Ask>)
    ensures KeysApart(MintOf, PerMint(valid))
  {
    PerMintExactly(valid, Ask("", 0.0, ME, Direct));
  }

  /** The cheapest price anywhere is attained by a row and undercut by none, so it is at most
      every floor of a market. */
  lemma AnyFloorIsLeast(listings: seq<Listing>, eps: real)
    ensures var g, valid := GapOf(listings, eps), ValidRows(listings);
            && (g.anyFloor.None? <==> valid == [])
            && (g.anyFloor.Some? ==>
                  && (exists i :: 0 <= i < |valid| && valid[i].price == g.anyFloor.value)
                  && (forall i :: 0 <= i < |valid| ==> g.anyFloor.value <= valid[i].price))
  {
    var valid, per := ValidRows(listings), PerMint(ValidRows(listings));
    AsksSorted(valid);
    PricesAt(per);
    MintsSeen(valid);
    hide ValidRows, Opportunities, FloorOf, Dedupe, SortBy;
    assert |multiset(per)| == |multiset(Dedupe(valid))|;
    if |valid| > 0 {
      assert |per| > 0 by { var i := MintAt(Dedupe(valid), valid[0].mint); }
      PerMintExactly(valid, per[0]);
      FirstIsRow(valid, per[0]);
      forall i | 0 <= i < |valid| ensures per[0].price <= valid[i].price {
        var b := SomeFirst(valid, valid[i]);
        PerMintExactly(valid, b);
        var k := IndexOf(per, b);
        assert Prices(per)[0] <= Prices(per)[k];
        FirstIsCheapest(valid, b);
      }
    }
  }

  /** What the result is made of: the floors of the three markets, the sound rows, the mints, and
      a confidence that needs five mints and both direct floors to be high, and two mints not to
      be low. */
  lemma GapMeans(listings: seq<Listing>, eps: real)
    ensures var g, valid := GapOf(listings, eps), ValidRows(listings);
            && IsFloor(g.meFloor, valid, ME, Direct) && IsFloor(g.mmmFloor, valid, MMM, Pool)
            && IsFloor(g.tensorFloor, valid, TENSOR, Direct)
            && g.rawCount == |AllSellable(listings)| && g.uniqueCount == |Mints(valid)|
            && g.perMint == Asks(valid) && g.opportunities == Opportunities(valid, eps)
            && (g.confidence == Low <==> |Mints(valid)| < 2)
            && (g.confidence == High <==> |Mints(valid)| >= 5 && g.meFloor.Some? && g.tensorFloor.Some?)
  {
    var valid := ValidRows(listings);
    FloorExactly(valid, ME, Direct);
    FloorExactly(valid, MMM, Pool);
    FloorExactly(valid, TENSOR, Direct);
    var any := Ask("", 0.0, ME, Direct);
    ValidRowsExactly(listings, any);
    OnePerMint(valid, any);
    hide ValidRows, Opportunities, FloorOf, IsFloor, Asks, Mints, AllSellable, IsFirstCheapest, ComesFrom;
  }

  // ---- What reordering does ---------------------------------------------------------------------

  ghost predicate CheapestRow(valid: seq<Ask>, a: Ask) {
    a in valid && forall b :: b in valid && b.mint == a.mint ==> a.price <= b.price
  }

  /** Rows that tie as the cheapest of one mint make the same opportunity, or none. */
  ghost predicate TiesAgree(valid: seq<Ask>, eps: real) {
    forall a, b :: CheapestRow(valid, a) && CheapestRow(valid, b) && a.mint == b.mint ==>
      OpportunityOf(a, ReferenceOf(valid, eps)) == OpportunityOf(b, ReferenceOf(valid, eps))
  }

  lemma ReferenceReordered(v: seq<Ask>, w: seq<Ask>, eps: real)
    requires multiset(v) == multiset(w)
    ensures ReferenceOf(v, eps) == ReferenceOf(w, eps)
  {
    FloorReordered(v, w, ME, Direct);
    FloorReordered(v, w, TENSOR, Direct);
  }

  lemma CheapestReordered(v: seq<Ask>, w: seq<Ask>, a: Ask)
    requires multiset(v) == multiset(w) && CheapestRow(v, a)
    ensures CheapestRow(w, a)
  {
    assert a in multiset(w);
    forall b | b in w ensures b in v { assert b in multiset(v); }
  }

  lemma TiesReordered(v: seq<Ask>, w: seq<Ask>, eps: real)
    requires multiset(v) == multiset(w) && TiesAgree(v, eps)
    ensures TiesAgree(w, eps)
  {
    ReferenceReordered(v, w, eps);
    hide CheapestRow, OpportunityOf, ReferenceOf;
    forall a, b | CheapestRow(w, a) && CheapestRow(w, b) && a.mint == b.mint
      ensures OpportunityOf(a, ReferenceOf(w, eps)) == OpportunityOf(b, ReferenceOf(w, eps))
    {
      CheapestReordered(w, v, a);
      CheapestReordered(w, v, b);
    }
  }

  lemma FirstIsCheapest(valid: seq<Ask>, a: Ask)
    requires IsFirstCheapest(valid, a)
    ensures CheapestRow(valid, a)
  {
    var k: nat :| FirstCheapest(valid, a, k);
    forall b | b in valid && b.mint == a.mint ensures a.price <= b.price { var j := IndexOf(valid, b); }
  }

  /** Every mint has a first cheapest row. */
  lemma SomeFirst(valid: seq<Ask>, a: Ask) returns (b: Ask)
    requires a in valid
    ensures IsFirstCheapest(valid, b) && b.mint == a.mint
  {
    hide IsFirstCheapest, Dedupe;
    MintsSeen(valid);
    var j := IndexOf(valid, a);
    b := Dedupe(valid)[MintAt(Dedupe(valid), a.mint)];
  }

  lemma OffersCarryOver(v: seq<Ask>, w: seq<Ask>, eps: real, o: Opportunity)
    requires multiset(v) == multiset(w) && TiesAgree(v, eps) && o in Opportunities(v, eps)
    ensures o in Opportunities(w, eps)
  {
    FoundExactly(v, eps, o);
    FoundExactly(w, eps, o);
    ReferenceReordered(v, w, eps);
    hide Opportunities, IsFirstCheapest, ReferenceOf, OpportunityOf, CheapestRow;
    var a :| IsFirstCheapest(v, a) && OpportunityOf(a, ReferenceOf(v, eps)) == Some(o);
    FirstIsRow(v, a);
    assert a in multiset(w);
    var b := SomeFirst(w, a);
    FirstIsCheapest(v, a);
    FirstIsCheapest(w, b);
    CheapestReordered(w, v, b);
    assert OpportunityOf(b, ReferenceOf(w, eps)) == Some(o);
  }

  lemma OpportunitiesSorted(valid: seq<Ask>, eps: real)
    ensures SortedBy(Stronger, Opportunities(valid, eps)) && KeysApart(OfferedMint, Opportunities(valid, eps))
  {
    StrictlySorted(valid, eps);
    hide Opportunities, Stronger;
  }

  lemma SameOffers(v: seq<Ask>, w: seq<Ask>, eps: real)
    requires multiset(v) == multiset(w) && TiesAgree(v, eps)
    ensures Opportunities(v, eps) == Opportunities(w, eps)
  {
    var a, b := Opportunities(v, eps), Opportunities(w, eps);
    OpportunitiesSorted(v, eps);
    OpportunitiesSorted(w, eps);
    TiesReordered(v, w, eps);
    forall o ensures o in a <==> o in b {
      if o in a { OffersCarryOver(v, w, eps, o); }
      if o in b { OffersCarryOver(w, v, eps, o); }
    }
    hide Opportunities, Stronger, TiesAgree, SortedBy;
    KeysApartApart(a);
    KeysApartApart(b);
    SameMembers(a, b);
    StrongerIsOrder();
    forall x, y | x in a && y in a && x.mint == y.mint ensures x == y {
      var i := IndexOf(a, x);
      var j := IndexOf(a, y);
      assert OfferedMint(a[i]) == OfferedMint(a[j]);
    }
    SortedUnique(Stronger, a, b);
  }

  lemma KeysApartApart(a: seq<Opportunity>)
    requires KeysApart(OfferedMint, a)
    ensures Apart(a)
  {
    forall i, j | 0 <= i < j < |a| ensures a[i] != a[j] { assert OfferedMint(a[i]) != OfferedMint(a[j]); }
  }

  /** Any order of the listings gives the same opportunities. */
  ghost predicate OrderFree(listings: seq<Listing>, eps: real) {
    forall other: seq<Listing> :: multiset(other) == multiset(listings) ==>
      GapOf(other, eps).opportunities == GapOf(listings, eps).opportunities
  }

  /** The same listings with one row moved to the front. */
  function Fronted(listings: seq<Listing>, i: nat): seq<Listing>
    requires i < |listings|
  {
    [listings[i]] + RemoveAt(listings, i)
  }

  lemma FrontedFirst(listings: seq<Listing>, a: Ask) returns (other: seq<Listing>)
    requires CheapestRow(ValidRows(listings), a)
    ensures multiset(other) == multiset(listings) && multiset(ValidRows(other)) == multiset(ValidRows(listings))
    ensures IsFirstCheapest(ValidRows(other), a)
  {
    var v := ValidRows(listings);
    FilterMapMembers(ToAsk, listings, a);
    var i :| 0 <= i < |listings| && ToAsk(listings[i]) == Some(a);
    other := Fronted(listings, i);
    RemovedHolds(listings, i);
    FilterMapReordered(ToAsk, other, listings);
    FilterMapFirst(ToAsk, listings[i], RemoveAt(listings, i));
    var w := ValidRows(other);
    assert w[0] == a;
    hide FilterMap, ToAsk;
    CheapestReordered(v, w, a);
    forall j | 0 <= j < |w| && w[j].mint == a.mint ensures a.price <= w[j].price { assert w[j] in w; }
    assert FirstCheapest(w, a, 0);
  }

  /** The floors, the counts and the confidence never depend on the order of the listings. */
  lemma SummaryReordered(a: seq<Listing>, b: seq<Listing>, eps: real)
    requires multiset(a) == multiset(b)
    ensures var g, h := GapOf(a, eps), GapOf(b, eps);
            && g.meFloor == h.meFloor && g.mmmFloor == h.mmmFloor && g.tensorFloor == h.tensorFloor
            && g.anyFloor == h.anyFloor && g.rawCount == h.rawCount && g.uniqueCount == h.uniqueCount
            && g.confidence == h.confidence
  {
    var v, w := ValidRows(a), ValidRows(b);
    RowsReordered(a, b);
    assert |multiset(v)| == |multiset(w)|;
    FloorReordered(v, w, ME, Direct);
    FloorReordered(v, w, MMM, Pool);
    FloorReordered(v, w, TENSOR, Direct);
    PricesReordered(v, w);
    PricesAt(Asks(v));
    PricesAt(Asks(w));
    hide ValidRows, Asks, Prices, Opportunities, FloorOf;
  }

  /** What the first cheapest row of a mint offers is all that the mint offers. */
  lemma OnlyOffer(valid: seq<Ask>, eps: real, a: Ask, o: Opportunity)
    requires IsFirstCheapest(valid, a) && o.mint == a.mint
    ensures o in Opportunities(valid, eps) <==> OpportunityOf(a, ReferenceOf(valid, eps)) == Some(o)
  {
    FoundExactly(valid, eps, o);
    hide Opportunities, IsFirstCheapest, ReferenceOf;
    if b :| IsFirstCheapest(valid, b) && OpportunityOf(b, ReferenceOf(valid, eps)) == Some(o) {
      FirstUnique(valid, a, b);
    }
  }

  lemma TiesMustAgree(listings: seq<Listing>, eps: real, a: Ask, b: Ask)
    requires OrderFree(listings, eps) && a.mint == b.mint
    requires CheapestRow(ValidRows(listings), a) && CheapestRow(ValidRows(listings), b)
    ensures var r := ReferenceOf(ValidRows(listings), eps); OpportunityOf(a, r) == OpportunityOf(b, r)
  {
    var x := FrontedFirst(listings, a);
    var y := FrontedFirst(listings, b);
    var r := ReferenceOf(ValidRows(listings), eps);
    ReferenceReordered(ValidRows(x), ValidRows(listings), eps);
    ReferenceReordered(ValidRows(y), ValidRows(listings), eps);
    assert Opportunities(ValidRows(x), eps) == Opportunities(ValidRows(y), eps) by {
      assert GapOf(x, eps).opportunities == GapOf(y, eps).opportunities;
    }
    hide Opportunities, ReferenceOf, IsFirstCheapest, CheapestRow, ValidRows, OrderFree;
    if OpportunityOf(a, r).Some? {
      OnlyOffer(ValidRows(x), eps, a, OpportunityOf(a, r).value);
      OnlyOffer(ValidRows(y), eps, b, OpportunityOf(a, r).value);
    }
    if OpportunityOf(b, r).Some? {
      OnlyOffer(ValidRows(x), eps, a, OpportunityOf(b, r).value);
      OnlyOffer(ValidRows(y), eps, b, OpportunityOf(b, r).value);
    }
  }

  /** The opportunities are independent of the order of the listings if and only if the rows
      that tie as the cheapest of a mint agree on what they offer. */
  lemma OrderFreeExactly(listings: seq<Listing>, eps: real)
    ensures OrderFree(listings, eps) <==> TiesAgree(ValidRows(listings), eps)
  {
    hide CheapestRow, Opportunities, OpportunityOf, ReferenceOf, ValidRows;
    if TiesAgree(ValidRows(listings), eps) {
      forall other: seq<Listing> | multiset(other) == multiset(listings)
        ensures GapOf(other, eps).opportunities == GapOf(listings, eps).opportunities
      {
        RowsReordered(other, listings);
        SameOffers(ValidRows(listings), ValidRows(other), eps);
      }
    }
    if OrderFree(listings, eps) {
      hide OrderFree;
      forall a, b | CheapestRow(ValidRows(listings), a) && CheapestRow(ValidRows(listings), b) && a.mint == b.mint
        ensures OpportunityOf(a, ReferenceOf(ValidRows(listings), eps)) == OpportunityOf(b, ReferenceOf(ValidRows(listings), eps))
      {
        TiesMustAgree(listings, eps, a, b);
      }
    }
  }

  lemma RowsReordered(a: seq<Listing>, b: seq<Listing>)
    requires multiset(a) == multiset(b)
    ensures multiset(ValidRows(a)) == multiset(ValidRows(b))
  {
    FilterMapReordered(ToAsk, a, b);
  }

  /** A pool row and a Tensor row of one mint at one price, and a dearer Magic Eden row. */
  const TIED: seq<Listing> := [Listing("x", Some(1.0), MMM, Pool), Listing("x", Some(1.0), TENSOR, Direct),
                               Listing("y", Some(2.0), ME, Direct)]

  /** So the result does depend on the input order for some listings. */
  lemma OrderMatters(eps: real)
    requires 0.0 <= eps < 1.0
    ensures exists other: seq<Listing> :: multiset(other) == multiset(TIED)
              && GapOf(other, eps).opportunities != GapOf(TIED, eps).opportunities
  {
    var v := ValidRows(TIED);
    var a, b, c := Ask("x", 1.0, MMM, Pool), Ask("x", 1.0, TENSOR, Direct), Ask("y", 2.0, ME, Direct);
    assert v == [a, b, c] by { TiedRows(); }
    hide ValidRows, FilterMap;
    assert v[0] == a && v[1] == b && v[2] == c;
    assert CheapestRow(v, a) && CheapestRow(v, b);
    FloorExactly(v, ME, Direct);
    FloorExactly(v, TENSOR, Direct);
    hide FloorOf;
    assert OpportunityOf(a, ReferenceOf(v, eps)).None?;
    assert OpportunityOf(b, ReferenceOf(v, eps)).Some?;
    assert !TiesAgree(v, eps);
    OrderFreeExactly(TIED, eps);
  }

  lemma TiedRows()
    ensures ValidRows(TIED) == [Ask("x", 1.0, MMM, Pool), Ask("x", 1.0, TENSOR, Direct), Ask("y", 2.0, ME, Direct)]
  {
    FilterMapFirst(ToAsk, TIED[0], [TIED[1], TIED[2]]);
    FilterMapFirst(ToAsk, TIED[1], [TIED[2]]);
    FilterMapFirst(ToAsk, TIED[2], []);
    assert TIED == [TIED[0]] + [TIED[1], TIED[2]] && [TIED[1], TIED[2]] == [TIED[1]] + [TIED[2]];
    assert [TIED[2]] == [TIED[2]] + [];
  }
}
