/** Collection offers and the hysteresis that turns them into confirmed jumps
    (src/analytics/offer-history.ts, src/analytics/normalized-collection-bid.ts).
    Prices are exact reals; a missing, infinite or NaN amount is `None`. */
module OfferHistory {
  import opened Options

  // ---- Bids and venue snapshots ---------------------------------------------------------

  datatype Venue = MeCollection | Mmm | Tensor
  datatype Allowlist = Fvca | Mcc | Metadata | Group | CoreCollection | Any | Mint | Unrecognised
  datatype Eligibility = CollectionWide | ExactMint | UnknownEligibility
  datatype Funding = Verified | Insufficient | Reported | UnknownFunding

  datatype Bid = Bid(venue: Venue, gross: real, net: Option<real>, eligibility: Eligibility,
                     funding: Funding, usable: bool)

  datatype VenueOffer = VenueOffer(venue: Venue, amount: real, usable: Option<bool>)
  datatype Best = Best(venue: Venue, amount: real)
  datatype Snapshot = Snapshot(observedAt: int, best: Option<Best>)

  predicate KnownCollectionType(a: Allowlist) { !a.Mint? && !a.Unrecognised? }

  function ClassifyMmmEligibility(allowlists: seq<Allowlist>): Eligibility {
    if |allowlists| == 0 then CollectionWide
    else if exists i :: 0 <= i < |allowlists| && allowlists[i].Mint? then ExactMint
    else if forall i :: 0 <= i < |allowlists| ==> KnownCollectionType(allowlists[i]) then CollectionWide
    else UnknownEligibility
  }

  function BuildNormalizedMmmBid(spotLamports: real, funding: Funding, eligibility: Eligibility): Bid {
    var gross := spotLamports / 1000000000.0;
    Bid(Mmm, gross, None, eligibility, funding, eligibility.CollectionWide? && funding.Verified? && gross > 0.0)
  }

  function BuildVenueSnapshot(venue: Venue, amount: Option<real>, usable: Option<bool>): Option<VenueOffer> {
    match amount
    case Some(a) => if a > 0.0 then Some(VenueOffer(venue, a, usable)) else None
    case None => None
  }

  /** An MMM quote explicitly marked unusable never competes. */
  predicate Competes(v: Option<VenueOffer>) {
    v.Some? && v.value.amount > 0.0 && !(v.value.venue.Mmm? && v.value.usable == Some(false))
  }

  ghost predicate IsBestOf(best: Option<Best>, offers: seq<Option<VenueOffer>>) {
    match best
    case None => forall i :: 0 <= i < |offers| ==> !Competes(offers[i])
    case Some(b) =>
      exists i :: 0 <= i < |offers| && Competes(offers[i])
        && b == Best(offers[i].value.venue, offers[i].value.amount)
        && (forall j :: 0 <= j < |offers| && Competes(offers[j]) ==> offers[j].value.amount <= b.amount)
        && (forall j :: 0 <= j < i && Competes(offers[j]) ==> offers[j].value.amount < b.amount)
  }

  /** The highest competing offer; the first venue of the fixed order wins a tie. */
  method BuildCollectionOfferSnapshot(observedAt: int, meCollection: Option<VenueOffer>,
                                      mmm: Option<VenueOffer>, tensor: Option<VenueOffer>)
    returns (snapshot: Snapshot)
    ensures snapshot.observedAt == observedAt
    ensures IsBestOf(snapshot.best, [meCollection, mmm, tensor])
  {
    var offers := [meCollection, mmm, tensor];
    var best: Option<Best> := None;
    for k := 0 to |offers|
      invariant IsBestOf(best, offers[..k])
    {
      var v := offers[k];
      ghost var before := offers[..k];
      if Competes(v) && (best.None? || v.value.amount > best.value.amount) {
        assert offers[..k + 1][k] == v;
        best := Some(Best(v.value.venue, v.value.amount));
      } else if best.Some? {
        ghost var i :| 0 <= i < |before| && Competes(before[i])
          && best.value == Best(before[i].value.venue, before[i].value.amount)
          && (forall j :: 0 <= j < i && Competes(before[j]) ==> before[j].value.amount < best.value.amount);
        assert offers[..k + 1][i] == before[i];
      }
      assert offers[..k + 1] == before + [v];
    }
    assert offers[..|offers|] == offers;
    return Snapshot(observedAt, best);
  }

  /** What a Tensor bid shows: the net figure if there is one, else the gross; nothing when it is
      not positive. */
  ghost function Shown(bid: Option<Bid>): real {
    var amount := if bid.None? then 0.0 else if bid.value.net.Some? then bid.value.net.value else bid.value.gross;
    if amount > 0.0 then amount else 0.0
  }

  /** The retired venue is never fetched; Tensor shows its net figure when it has one. */
  method ObserveCollectionOffers(observedAt: int, mmmBid: Option<Bid>, tensorBid: Option<Bid>)
    returns (snapshot: Snapshot)
    requires mmmBid.Some? ==> mmmBid.value.venue.Mmm?
    ensures snapshot.observedAt == observedAt
    ensures snapshot.best.Some? ==> snapshot.best.value.amount > 0.0
    ensures snapshot.best.Some? && snapshot.best.value.venue.Mmm? ==>
              mmmBid.Some? && mmmBid.value.usable && snapshot.best.value.amount == mmmBid.value.gross
    ensures var mmm := if mmmBid.Some? && mmmBid.value.usable && mmmBid.value.gross > 0.0 then mmmBid.value.gross else 0.0;
            var tensor := Shown(tensorBid);
            if mmm <= 0.0 && tensor <= 0.0 then snapshot.best.None?
            else snapshot.best == Some(if mmm >= tensor then Best(Mmm, mmm) else Best(Tensor, tensor))
  {
    var mmm := match mmmBid
      case Some(b) => BuildVenueSnapshot(Mmm, Some(b.gross), Some(b.usable))
      case None => BuildVenueSnapshot(Mmm, None, None);
    var tensorAmount := match tensorBid
      case Some(b) => if b.net.Some? then b.net else Some(b.gross)
      case None => None;
    var tensor := BuildVenueSnapshot(Tensor, tensorAmount,
                                     if tensorBid.Some? then Some(tensorBid.value.usable) else None);
    snapshot := BuildCollectionOfferSnapshot(observedAt, None, mmm, tensor);
    BestOfTwo(snapshot.best, mmm, tensor);
  }

  lemma BestOfTwo(best: Option<Best>, mmm: Option<VenueOffer>, tensor: Option<VenueOffer>)
    requires IsBestOf(best, [None, mmm, tensor])
    ensures !Competes(mmm) && !Competes(tensor) ==> best.None?
    ensures Competes(mmm) && (!Competes(tensor) || mmm.value.amount >= tensor.value.amount) ==>
              best == Some(Best(mmm.value.venue, mmm.value.amount))
    ensures Competes(tensor) && (!Competes(mmm) || mmm.value.amount < tensor.value.amount) ==>
              best == Some(Best(tensor.value.venue, tensor.value.amount))
  {
    var offers := [None, mmm, tensor];
    assert offers[0] == None && offers[1] == mmm && offers[2] == tensor;
  }

  /** What makes an MMM bid usable: a verified escrow and an allowlist whose every entry
      admits a whole collection. */
  lemma UsableMmmBid(spot: real, funding: Funding, allowlists: seq<Allowlist>)
    ensures BuildNormalizedMmmBid(spot, funding, ClassifyMmmEligibility(allowlists)).usable <==>
            spot > 0.0 && funding.Verified?
            && forall i :: 0 <= i < |allowlists| ==> !allowlists[i].Mint? && !allowlists[i].Unrecognised?
    ensures var b := BuildNormalizedMmmBid(spot, funding, ClassifyMmmEligibility(allowlists));
            b.venue == Mmm && b.gross * 1000000000.0 == spot && b.net.None? && b.funding == funding
    ensures var e := ClassifyMmmEligibility(allowlists);
            && (e.ExactMint? <==> exists i :: 0 <= i < |allowlists| && allowlists[i].Mint?)
            && (e.CollectionWide? <==> forall i :: 0 <= i < |allowlists| ==> !allowlists[i].Mint? && !allowlists[i].Unrecognised?)
  {
    if forall i :: 0 <= i < |allowlists| ==> KnownCollectionType(allowlists[i]) {
      assert forall i :: 0 <= i < |allowlists| ==> !allowlists[i].Mint?;
    }
  }

  // ---- Transitions ----------------------------------------------------------------------

  datatype Kind = FirstOffer | OfferIncrease | OfferDecrease | OfferRemoved | BestVenueChanged | Unchanged

  datatype Config = Config(minRelativeIncrease: real, minAbsoluteIncrease: real, epsilon: real,
                           requiredConfirmations: int, reArmTolerance: real)

  function Abs(x: real): real { if x < 0.0 then -x else x }

  function ValidBest(s: Option<Snapshot>): Option<Best> {
    match s
    case Some(Snapshot(_, Some(b))) => if b.amount > 0.0 then Some(b) else None
    case _ => None
  }

  function Delta(from: real, to: real): real { to - from }

  datatype Transition = Transition(kind: Kind, candidateJump: bool)

  function ComputeOfferTransition(previous: Option<Snapshot>, current: Snapshot, c: Config): Transition {
    var p, q := ValidBest(previous), ValidBest(Some(current));
    if p.None? && q.None? then Transition(Unchanged, false)
    else if p.None? then Transition(FirstOffer, false)
    else if q.None? then Transition(OfferRemoved, false)
    else
      var delta := Delta(p.value.amount, q.value.amount);
      if Abs(delta) <= c.epsilon then
        Transition(if p.value.venue != q.value.venue then BestVenueChanged else Unchanged, false)
      else if delta > 0.0 then
        Transition(OfferIncrease,
                   delta / p.value.amount >= c.minRelativeIncrease && delta >= c.minAbsoluteIncrease)
      else Transition(OfferDecrease, false)
  }

  // ---- Hysteresis -----------------------------------------------------------------------

  datatype Pending = Pending(target: Best, firstSeenAt: int, confirmations: int)

  datatype State = State(lastStable: Option<Snapshot>, pending: Option<Pending>, armed: bool,
                         lastConfirmedJumpAt: Option<int>, preJumpBaseline: Option<real>)

  const INITIAL: State := State(None, None, true, None, None)

  datatype StepResult = StepResult(next: State, transition: Transition, confirmedJump: bool)

  function ReArmLevel(baseline: real, c: Config): real { baseline * (1.0 + c.reArmTolerance) }

  /** The least price that passes the relative threshold. */
  function Up(price: real, c: Config): real { price * (1.0 + c.minRelativeIncrease) }

  /** A re-arm needs the best offer back within tolerance of the pre-jump baseline. */
  predicate ReArms(s: State, current: Snapshot, c: Config) {
    !s.armed && s.preJumpBaseline.Some? && current.best.Some?
    && current.best.value.amount <= ReArmLevel(s.preJumpBaseline.value, c)
  }

  predicate SameCandidate(pending: Option<Pending>, target: Best, c: Config) {
    pending.Some? && Abs(pending.value.target.amount - target.amount) <= c.epsilon
    && pending.value.target.venue == target.venue
  }

  function StepOfferHistory(s: State, current: Snapshot, c: Config): StepResult {
    var t := ComputeOfferTransition(s.lastStable, current, c);
    var armed := s.armed || ReArms(s, current, c);
    if t.kind.OfferIncrease? && t.candidateJump then
      if !armed then
        StepResult(s.(lastStable := Some(current), pending := None), t, false)
      else
        var target := current.best.value;
        var pending := if SameCandidate(s.pending, target, c)
                       then s.pending.value.(confirmations := s.pending.value.confirmations + 1)
                       else Pending(target, current.observedAt, 1);
        if pending.confirmations >= c.requiredConfirmations then
          StepResult(State(Some(current), None, false, Some(current.observedAt),
                           if s.lastStable.Some? && s.lastStable.value.best.Some?
                           then Some(s.lastStable.value.best.value.amount) else None), t, true)
        else
          StepResult(s.(pending := Some(pending), armed := true), t, false)
    else
      StepResult(s.(lastStable := Some(current), pending := None, armed := armed), t, false)
  }

  // ---- Runs -----------------------------------------------------------------------------

  ghost function StateAfter(obs: seq<Snapshot>, c: Config): State {
    if |obs| == 0 then INITIAL
    else StepOfferHistory(StateAfter(obs[..|obs| - 1], c), obs[|obs| - 1], c).next
  }

  ghost predicate Confirms(obs: seq<Snapshot>, i: nat, c: Config)
    requires i < |obs|
  {
    StepOfferHistory(StateAfter(obs[..i], c), obs[i], c).confirmedJump
  }

  ghost function Jumps(obs: seq<Snapshot>, c: Config): nat {
    if |obs| == 0 then 0
    else Jumps(obs[..|obs| - 1], c)
         + if StepOfferHistory(StateAfter(obs[..|obs| - 1], c), obs[|obs| - 1], c).confirmedJump then 1 else 0
  }

  /** What `candidateJump` says about the two prices. */
  lemma CandidateThresholds(previous: Option<Snapshot>, current: Snapshot, c: Config)
    requires ComputeOfferTransition(previous, current, c).candidateJump
    ensures ValidBest(previous).Some? && current.best.Some?
    ensures previous.value.best == ValidBest(previous)
    ensures var a, b := previous.value.best.value.amount, current.best.value.amount;
            0.0 < a < b && b - a >= c.minAbsoluteIncrease && b >= Up(a, c)
  {
    var a, b := previous.value.best.value.amount, current.best.value.amount;
    assert (b - a) / a * a == b - a;
    assert (b - a) / a * a >= c.minRelativeIncrease * a;
  }

  // ---- Evidence for a confirmed jump ----------------------------------------------------

  /** Observation k is a candidate for `target` against the frozen baseline. */
  ghost predicate Supports(o: Snapshot, target: Best, frozen: Snapshot, c: Config) {
    && o.best.Some? && o.best.value.venue == target.venue
    && (o.best.value.amount == target.amount || Abs(target.amount - o.best.value.amount) <= c.epsilon)
    && ComputeOfferTransition(Some(frozen), o, c).candidateJump
  }

  /** The last n observations all support one target against one frozen baseline. */
  ghost predicate Evidence(obs: seq<Snapshot>, n: int, target: Best, frozen: Snapshot, c: Config) {
    && 1 <= n <= |obs|
    && obs[|obs| - n].best == Some(target)
    && forall k :: |obs| - n <= k < |obs| ==> Supports(obs[k], target, frozen, c)
  }

  ghost predicate HasEvidence(obs: seq<Snapshot>, n: int, frozen: Snapshot, c: Config) {
    exists target :: Evidence(obs, n, target, frozen, c)
  }

  lemma {:induction false} PendingHasEvidence(obs: seq<Snapshot>, c: Config)
    ensures var s := StateAfter(obs, c);
            s.pending.Some? ==>
              && s.armed && s.lastStable.Some?
              && Evidence(obs, s.pending.value.confirmations, s.pending.value.target, s.lastStable.value, c)
              && s.pending.value.confirmations < MaxOne(c.requiredConfirmations)
  {
    if |obs| > 0 {
      PendingHasEvidence(obs[..|obs| - 1], c);
    }
  }

  function MaxOne(n: int): int { if n < 1 then 1 else n }

  /** A confirmed jump rests on the last `requiredConfirmations` observations: consecutive,
      of one venue, within epsilon of the first, each past both thresholds of one baseline
      that stayed frozen meanwhile and becomes the re-arm baseline. */
  lemma ConfirmedJumpEvidence(obs: seq<Snapshot>, i: nat, c: Config)
    requires i < |obs| && Confirms(obs, i, c)
    ensures var before, after := StateAfter(obs[..i], c), StateAfter(obs[..i + 1], c);
            && before.lastStable.Some? && before.lastStable.value.best.Some?
            && after.preJumpBaseline == Some(before.lastStable.value.best.value.amount)
            && !after.armed && after.lastStable == Some(obs[i])
            && HasEvidence(obs[..i + 1], MaxOne(c.requiredConfirmations), before.lastStable.value, c)
  {
    PendingHasEvidence(obs[..i], c);
    var before := StateAfter(obs[..i], c);
    assert obs[..i + 1][..i] == obs[..i];
    CandidateThresholds(before.lastStable, obs[i], c);
    var target := if SameCandidate(before.pending, obs[i].best.value, c) then before.pending.value.target
                  else obs[i].best.value;
    assert Evidence(obs[..i + 1], MaxOne(c.requiredConfirmations), target, before.lastStable.value, c);
  }

  // ---- What the machine compares with ---------------------------------------------------

  /** The best offer is a positive one, above the other by more than epsilon and by at least
      both thresholds. */
  ghost predicate JumpsOver(o: Snapshot, base: Snapshot, c: Config) {
    && base.best.Some? && o.best.Some?
    && var a, b := base.best.value.amount, o.best.value.amount;
       a > 0.0 && b > a && b - a > c.epsilon && b - a >= c.minAbsoluteIncrease && b - a >= a * c.minRelativeIncrease
  }

  lemma QuotientAtLeast(d: real, x: real, r: real)
    requires x > 0.0
    ensures d / x >= r <==> d >= x * r
  {
    var q := d / x;
    assert x * q == d;
    if q < r { MultiplyLess(x, q, r); }
    if q >= r { MultiplyAtMost(x, r, q); }
  }

  /** A candidate is what jumps over the previous stable snapshot, and nothing else. */
  lemma CandidateExactly(previous: Option<Snapshot>, o: Snapshot, c: Config)
    ensures var t := ComputeOfferTransition(previous, o, c);
            && (t.candidateJump <==> previous.Some? && JumpsOver(o, previous.value, c))
            && (t.candidateJump ==> t.kind.OfferIncrease?)
  {
    if ValidBest(previous).Some? && ValidBest(Some(o)).Some? {
      var a, b := previous.value.best.value.amount, o.best.value.amount;
      QuotientAtLeast(b - a, a, c.minRelativeIncrease);
    }
  }

  /** After observation `k` a candidate is pending, and that observation jumps over `base`. */
  ghost predicate Climbs(obs: seq<Snapshot>, k: nat, base: Snapshot, c: Config) {
    k < |obs| && StateAfter(obs[..k + 1], c).pending.Some? && JumpsOver(obs[k], base, c)
  }

  /** The last observation after which no candidate was pending; everything since jumped over it. */
  ghost predicate IsBaseline(obs: seq<Snapshot>, b: nat, c: Config) {
    && b < |obs| && StateAfter(obs[..b + 1], c).pending.None?
    && forall k: nat :: b < k < |obs| ==> Climbs(obs, k, obs[b], c)
  }

  /** The machine compares with the last observation, or, while a candidate is pending, with the
      last one before the unbroken run of candidates. */
  lemma {:induction false} BaselineExactly(obs: seq<Snapshot>, c: Config)
    ensures var s := StateAfter(obs, c);
            && (|obs| == 0 ==> s.lastStable.None? && s.pending.None?)
            && (|obs| > 0 && s.pending.None? ==> s.lastStable == Some(obs[|obs| - 1]))
            && (s.pending.Some? ==> exists b: nat :: b + 1 < |obs| && IsBaseline(obs, b, c) && s.lastStable == Some(obs[b]))
  {
    if |obs| > 0 {
      var n := |obs| - 1;
      var before, o := obs[..n], obs[n];
      var s := StateAfter(before, c);
      BaselineExactly(before, c);
      CandidateExactly(s.lastStable, o, c);
      StepBaseline(s, o, c);
      assert obs[..n + 1] == obs;
      hide StepOfferHistory, ComputeOfferTransition, JumpsOver;
      if StateAfter(obs, c).pending.Some? {
        if s.pending.None? {
          assert before[..n] == before && obs[..n] == before;
          assert IsBaseline(obs, n - 1, c);
        } else {
          var b: nat :| b + 1 < n && IsBaseline(before, b, c) && s.lastStable == Some(before[b]);
          BaselineStays(obs, b, c);
        }
      }
    }
  }

  lemma BaselineStays(obs: seq<Snapshot>, b: nat, c: Config)
    requires |obs| > 0 && IsBaseline(obs[..|obs| - 1], b, c)
    requires StateAfter(obs, c).pending.Some? && JumpsOver(obs[|obs| - 1], obs[b], c)
    ensures IsBaseline(obs, b, c)
  {
    hide StateAfter, JumpsOver, Confirms;
    var n := |obs| - 1;
    Earlier(obs, b, c);
    forall k: nat | b < k < |obs| ensures Climbs(obs, k, obs[b], c) {
      if k < n {
        Earlier(obs, k, c);
        assert Climbs(obs[..n], k, obs[b], c);
      } else {
        assert obs[..k + 1] == obs;
      }
    }
  }

  /** A step keeps the baseline exactly when it leaves a candidate pending. */
  lemma StepBaseline(s: State, o: Snapshot, c: Config)
    ensures var r := StepOfferHistory(s, o, c).next;
            && (r.pending.None? ==> r.lastStable == Some(o))
            && (r.pending.Some? ==>
                  r.lastStable == s.lastStable && ComputeOfferTransition(s.lastStable, o, c).candidateJump)
  {
  }

  // ---- Exactly when a jump is confirmed -------------------------------------------------

  /** Of one venue, and within epsilon of the target. */
  ghost predicate Near(o: Snapshot, target: Best, c: Config) {
    && o.best.Some? && o.best.value.venue == target.venue
    && Abs(target.amount - o.best.value.amount) <= c.epsilon
  }

  /** The last `n` observations are sightings of one candidate: the first of them was not a
      sighting of the candidate pending before it, if any, and found the machine armed or armed
      it; all of them jump over the baseline, and the others are near the first. */
  ghost predicate Sighted(obs: seq<Snapshot>, n: int, c: Config) {
    && 1 <= n <= |obs|
    && var first, s := obs[|obs| - n], StateAfter(obs[..|obs| - n], c);
       && s.lastStable.Some? && first.best.Some?
       && (s.armed || ReArms(s, first, c))
       && !(s.pending.Some? && Near(first, s.pending.value.target, c))
       && (forall k :: |obs| - n <= k < |obs| ==> JumpsOver(obs[k], s.lastStable.value, c))
       && (forall k :: |obs| - n < k < |obs| ==> Near(obs[k], first.best.value, c))
  }

  /** What follows from sightings: the candidate is pending with that many confirmations over the
      unchanged baseline, and when they are as many as required the jump is confirmed. */
  ghost predicate Counted(obs: seq<Snapshot>, n: int, c: Config)
    requires 1 <= n <= |obs|
  {
    var first, s, t := obs[|obs| - n], StateAfter(obs[..|obs| - n], c), StateAfter(obs, c);
    if n < MaxOne(c.requiredConfirmations)
    then
      && !Confirms(obs, |obs| - 1, c) && t.armed && t.lastStable == s.lastStable
      && t.pending.Some? && t.pending.value.confirmations == n && Some(t.pending.value.target) == first.best
      && t.pending.value.firstSeenAt == first.observedAt
    else
      && Confirms(obs, |obs| - 1, c) && !t.armed && t.pending.None? && t.lastStable == Some(obs[|obs| - 1])
      && t.lastConfirmedJumpAt == Some(obs[|obs| - 1].observedAt)
      && s.lastStable.Some? && s.lastStable.value.best.Some?
      && t.preJumpBaseline == Some(s.lastStable.value.best.value.amount)
  }

  lemma StepSights(s: State, o: Snapshot, c: Config)
    requires s.lastStable.Some? && JumpsOver(o, s.lastStable.value, c) && (s.armed || ReArms(s, o, c))
    ensures var r := StepOfferHistory(s, o, c);
            var n := if s.pending.Some? && Near(o, s.pending.value.target, c) then s.pending.value.confirmations + 1 else 1;
            if n >= c.requiredConfirmations
            then
              && r.confirmedJump && !r.next.armed && r.next.pending.None? && r.next.lastStable == Some(o)
              && r.next.lastConfirmedJumpAt == Some(o.observedAt)
              && r.next.preJumpBaseline == Some(s.lastStable.value.best.value.amount)
            else
              && !r.confirmedJump && r.next.armed && r.next.lastStable == s.lastStable
              && r.next.pending.Some? && r.next.pending.value.confirmations == n
              && (n > 1 || !(s.pending.Some? && Near(o, s.pending.value.target, c)) ==>
                    Some(r.next.pending.value.target)
                    == if s.pending.Some? && Near(o, s.pending.value.target, c) then Some(s.pending.value.target) else o.best)
              && r.next.pending.value.firstSeenAt
                 == (if s.pending.Some? && Near(o, s.pending.value.target, c) then s.pending.value.firstSeenAt else o.observedAt)
  {
    CandidateExactly(s.lastStable, o, c);
    hide ComputeOfferTransition;
  }

  /** Sightings count, in any run, up to the number required. */
  lemma {:induction false} SightingsCount(obs: seq<Snapshot>, n: int, c: Config)
    requires Sighted(obs, n, c) && n <= MaxOne(c.requiredConfirmations)
    ensures Counted(obs, n, c)
    decreases n
  {
    var m := |obs| - 1;
    StateNext(obs, c);
    SightedBefore(obs, n, c);
    if n > 1 { SightingsCount(obs[..m], n - 1, c); }
    hide StateAfter, StepOfferHistory, JumpsOver, Near, ReArms;
    StepSights(StateAfter(obs[..m], c), obs[m], c);
  }

  lemma SightedBefore(obs: seq<Snapshot>, n: int, c: Config)
    requires Sighted(obs, n, c)
    ensures n > 1 ==> Sighted(obs[..|obs| - 1], n - 1, c)
    ensures obs[..|obs| - 1][..|obs| - n] == obs[..|obs| - n]
    ensures n > 1 ==> obs[..|obs| - 1][|obs| - n] == obs[|obs| - n]
  {
    var m := |obs| - 1;
    hide StateAfter, JumpsOver, Near, ReArms;
    assert obs[..m][..m - (n - 1)] == obs[..|obs| - n];
  }

  /** Sighted `n` times, first as `target`, over the baseline `base`. */
  ghost predicate Traced(obs: seq<Snapshot>, n: int, target: Best, base: Option<Snapshot>, c: Config) {
    && Sighted(obs, n, c) && obs[|obs| - n].best == Some(target) && StateAfter(obs[..|obs| - n], c).lastStable == base
  }

  /** A pending candidate was sighted as often as it has confirmations, and less often than
      required. */
  lemma {:induction false} PendingIsSighted(obs: seq<Snapshot>, c: Config)
    ensures var s := StateAfter(obs, c);
            s.pending.Some? ==>
              && Traced(obs, s.pending.value.confirmations, s.pending.value.target, s.lastStable, c)
              && s.pending.value.confirmations < MaxOne(c.requiredConfirmations)
  {
    if |obs| > 0 {
      PendingIsSighted(obs[..|obs| - 1], c);
      StateNext(obs, c);
      hide StateAfter, StepOfferHistory, Traced;
      if StateAfter(obs, c).pending.Some? { StillSighted(obs, c); }
    }
  }

  lemma StillSighted(obs: seq<Snapshot>, c: Config)
    requires |obs| > 0 && StateAfter(obs, c).pending.Some?
    requires var s := StateAfter(obs[..|obs| - 1], c);
             s.pending.Some? ==> Traced(obs[..|obs| - 1], s.pending.value.confirmations, s.pending.value.target, s.lastStable, c)
    ensures var t := StateAfter(obs, c);
            && Traced(obs, t.pending.value.confirmations, t.pending.value.target, t.lastStable, c)
            && t.pending.value.confirmations < MaxOne(c.requiredConfirmations)
  {
    hide *;
    var s, o := StateAfter(obs[..|obs| - 1], c), obs[|obs| - 1];
    StateNext(obs, c);
    StepPends(s, o, c);
    if s.pending.Some? && Near(o, s.pending.value.target, c) {
      OnceMore(obs, s.pending.value.confirmations, s.pending.value.target, s.lastStable, c);
    } else {
      FirstSight(obs, c);
    }
  }

  lemma StateNext(obs: seq<Snapshot>, c: Config)
    requires |obs| > 0
    ensures StateAfter(obs, c) == StepOfferHistory(StateAfter(obs[..|obs| - 1], c), obs[|obs| - 1], c).next
  {
    hide StepOfferHistory;
  }

  lemma StepPends(s: State, o: Snapshot, c: Config)
    requires StepOfferHistory(s, o, c).next.pending.Some?
    ensures var r := StepOfferHistory(s, o, c).next;
            && r.lastStable == s.lastStable && (s.armed || ReArms(s, o, c)) && o.best.Some?
            && s.lastStable.Some? && JumpsOver(o, s.lastStable.value, c)
            && r.pending.value.confirmations < MaxOne(c.requiredConfirmations)
            && if s.pending.Some? && Near(o, s.pending.value.target, c)
               then r.pending.value.confirmations == s.pending.value.confirmations + 1 && r.pending.value.target == s.pending.value.target
               else r.pending.value.confirmations == 1 && Some(r.pending.value.target) == o.best
  {
    CandidateExactly(s.lastStable, o, c);
    hide ComputeOfferTransition;
  }

  lemma FirstSight(obs: seq<Snapshot>, c: Config)
    requires |obs| > 0
    requires var s, o := StateAfter(obs[..|obs| - 1], c), obs[|obs| - 1];
             && s.lastStable.Some? && o.best.Some? && JumpsOver(o, s.lastStable.value, c)
             && (s.armed || ReArms(s, o, c)) && !(s.pending.Some? && Near(o, s.pending.value.target, c))
    ensures Traced(obs, 1, obs[|obs| - 1].best.value, StateAfter(obs[..|obs| - 1], c).lastStable, c)
  {
    hide StateAfter, JumpsOver, Near, ReArms;
  }

  lemma OnceMore(obs: seq<Snapshot>, n: int, target: Best, base: Option<Snapshot>, c: Config)
    requires |obs| > 0 && Traced(obs[..|obs| - 1], n, target, base, c)
    requires Near(obs[|obs| - 1], target, c) && base.Some? && JumpsOver(obs[|obs| - 1], base.value, c)
    ensures Traced(obs, n + 1, target, base, c)
  {
    var m := |obs| - 1;
    hide StateAfter, JumpsOver, Near, ReArms;
    assert obs[..m][..m - n] == obs[..|obs| - (n + 1)];
    assert obs[..m][m - n] == obs[|obs| - (n + 1)];
    forall k | m - n <= k < m ensures obs[..m][k] == obs[k] {}
  }

  /** A jump is confirmed at an observation if and only if, counted back from it, the candidate
      was sighted exactly as often as required since its first sighting. */
  lemma ConfirmsExactly(obs: seq<Snapshot>, i: nat, c: Config)
    requires i < |obs|
    ensures Confirms(obs, i, c) <==> Sighted(obs[..i + 1], MaxOne(c.requiredConfirmations), c)
  {
    var upTo, n := obs[..i + 1], MaxOne(c.requiredConfirmations);
    assert upTo[..i] == obs[..i];
    if Sighted(upTo, n, c) { SightingsCount(upTo, n, c); }
    if Confirms(obs, i, c) { ConfirmedIsSighted(upTo, c); }
  }

  lemma ConfirmedIsSighted(obs: seq<Snapshot>, c: Config)
    requires |obs| > 0 && Confirms(obs, |obs| - 1, c)
    ensures Sighted(obs, MaxOne(c.requiredConfirmations), c)
  {
    var s, o := StateAfter(obs[..|obs| - 1], c), obs[|obs| - 1];
    PendingIsSighted(obs[..|obs| - 1], c);
    StepConfirms(s, o, c);
    hide StepOfferHistory, StateAfter, JumpsOver, Near, Sighted, ReArms;
    if s.pending.Some? && Near(o, s.pending.value.target, c) {
      OnceMore(obs, s.pending.value.confirmations, s.pending.value.target, s.lastStable, c);
    } else {
      FirstSight(obs, c);
    }
  }

  lemma StepConfirms(s: State, o: Snapshot, c: Config)
    requires StepOfferHistory(s, o, c).confirmedJump
    ensures (s.armed || ReArms(s, o, c)) && o.best.Some? && s.lastStable.Some? && JumpsOver(o, s.lastStable.value, c)
    ensures if s.pending.Some? && Near(o, s.pending.value.target, c)
            then s.pending.value.confirmations + 1 >= c.requiredConfirmations else 1 >= c.requiredConfirmations
  {
    CandidateExactly(s.lastStable, o, c);
    hide ComputeOfferTransition;
  }

  // ---- When the machine is armed --------------------------------------------------------

  /** The jump at `i` was the last one, and no offer has come back to the level from which it
      rose, within tolerance. */
  ghost predicate AwaitsReset(obs: seq<Snapshot>, i: nat, c: Config) {
    && i < |obs| && Confirms(obs, i, c)
    && var base := StateAfter(obs[..i], c).lastStable;
       && base.Some? && base.value.best.Some?
       && StateAfter(obs, c).preJumpBaseline == Some(base.value.best.value.amount)
       && forall k :: i < k < |obs| ==>
            && !Confirms(obs, k, c)
            && !(obs[k].best.Some? && obs[k].best.value.amount <= base.value.best.value.amount * (1.0 + c.reArmTolerance))
  }

  lemma StepArms(s: State, o: Snapshot, c: Config)
    ensures var r := StepOfferHistory(s, o, c);
            && (r.confirmedJump ==>
                  && !r.next.armed && ComputeOfferTransition(s.lastStable, o, c).candidateJump
                  && r.next.preJumpBaseline == if s.lastStable.Some? && s.lastStable.value.best.Some?
                                               then Some(s.lastStable.value.best.value.amount) else None)
            && (!r.confirmedJump ==> r.next.preJumpBaseline == s.preJumpBaseline && (r.next.armed <==> s.armed || ReArms(s, o, c)))
  {
  }

  /** The machine is disarmed exactly while its last jump awaits a reset. */
  lemma {:induction false} DisarmedExactly(obs: seq<Snapshot>, c: Config)
    ensures !StateAfter(obs, c).armed <==> exists i: nat :: AwaitsReset(obs, i, c)
  {
    if |obs| > 0 {
      var n := |obs| - 1;
      DisarmedExactly(obs[..n], c);
      StepArms(StateAfter(obs[..n], c), obs[n], c);
      hide StepOfferHistory, ComputeOfferTransition;
      if Confirms(obs, n, c) {
        ConfirmedAwaits(obs, c);
        forall i: nat | AwaitsReset(obs, i, c) ensures !StateAfter(obs, c).armed {}
      } else {
        forall i: nat ensures AwaitsReset(obs, i, c) <==> AwaitsReset(obs[..n], i, c) && !ReArms(StateAfter(obs[..n], c), obs[n], c) {
          AwaitsStep(obs, i, c);
        }
      }
    }
  }

  lemma ConfirmedAwaits(obs: seq<Snapshot>, c: Config)
    requires |obs| > 0 && Confirms(obs, |obs| - 1, c)
    ensures AwaitsReset(obs, |obs| - 1, c)
  {
    var n := |obs| - 1;
    StepArms(StateAfter(obs[..n], c), obs[n], c);
    CandidateExactly(StateAfter(obs[..n], c).lastStable, obs[n], c);
    hide StepOfferHistory, ComputeOfferTransition;
  }

  lemma Earlier(obs: seq<Snapshot>, k: nat, c: Config)
    requires k + 1 < |obs|
    ensures var before := obs[..|obs| - 1];
            && before[..k] == obs[..k] && before[k] == obs[k] && before[..k + 1] == obs[..k + 1]
            && (Confirms(before, k, c) <==> Confirms(obs, k, c))
  {
    hide StepOfferHistory, StateAfter;
    assert obs[..|obs| - 1][..k] == obs[..k] && obs[..|obs| - 1][..k + 1] == obs[..k + 1];
  }

  lemma AwaitsStep(obs: seq<Snapshot>, i: nat, c: Config)
    requires |obs| > 0 && !Confirms(obs, |obs| - 1, c)
    requires var s := StateAfter(obs[..|obs| - 1], c);
             && StateAfter(obs, c).preJumpBaseline == s.preJumpBaseline
             && (AwaitsReset(obs[..|obs| - 1], i, c) ==> !s.armed)
    ensures AwaitsReset(obs, i, c)
            <==> AwaitsReset(obs[..|obs| - 1], i, c) && !ReArms(StateAfter(obs[..|obs| - 1], c), obs[|obs| - 1], c)
  {
    var n := |obs| - 1;
    hide Confirms, StateAfter;
    if i < n {
      Earlier(obs, i, c);
      forall k | i < k < n ensures (Confirms(obs[..n], k, c) <==> Confirms(obs, k, c)) && obs[..n][k] == obs[k] {
        Earlier(obs, k, c);
      }
    }
  }

  // ---- A reset between any two jumps ----------------------------------------------------

  ghost predicate FellTo(o: Snapshot, level: real) {
    o.best.Some? && o.best.value.amount <= level
  }

  lemma StepStaysDisarmed(s: State, o: Snapshot, c: Config)
    requires !s.armed && s.preJumpBaseline.Some? && !FellTo(o, ReArmLevel(s.preJumpBaseline.value, c))
    ensures var r := StepOfferHistory(s, o, c);
            !r.confirmedJump && !r.next.armed && r.next.preJumpBaseline == s.preJumpBaseline
  {
  }

  /** Without a reset the machine stays disarmed, with the baseline of its last jump. */
  lemma {:induction false} StaysDisarmed(obs: seq<Snapshot>, i: nat, j: nat, pre: real, c: Config)
    requires i < j <= |obs|
    requires !StateAfter(obs[..i + 1], c).armed && StateAfter(obs[..i + 1], c).preJumpBaseline == Some(pre)
    requires forall k :: i < k < j ==> !FellTo(obs[k], ReArmLevel(pre, c))
    ensures !StateAfter(obs[..j], c).armed && StateAfter(obs[..j], c).preJumpBaseline == Some(pre)
  {
    if j > i + 1 {
      StaysDisarmed(obs, i, j - 1, pre, c);
      assert obs[..j][..j - 1] == obs[..j - 1];
      StepStaysDisarmed(StateAfter(obs[..j - 1], c), obs[j - 1], c);
    }
  }

  /** Between two confirmed jumps some observation fell back to the baseline of the first
      one, within tolerance. */
  lemma ResetBetweenJumps(obs: seq<Snapshot>, i: nat, j: nat, c: Config)
    requires i < j < |obs| && Confirms(obs, i, c) && Confirms(obs, j, c)
    ensures var pre := StateAfter(obs[..i + 1], c).preJumpBaseline;
            pre.Some? && exists k :: i < k <= j && FellTo(obs[k], ReArmLevel(pre.value, c))
  {
    ConfirmedJumpEvidence(obs, i, c);
    var pre := StateAfter(obs[..i + 1], c).preJumpBaseline.value;
    if forall k :: i < k <= j ==> !FellTo(obs[k], ReArmLevel(pre, c)) {
      StaysDisarmed(obs, i, j, pre, c);
      StepStaysDisarmed(StateAfter(obs[..j], c), obs[j], c);
    }
  }

  // ---- How many jumps a run can confirm -------------------------------------------------

  /** Two successive increases always carry a price past the re-arm level: the tolerance admits
      nothing above the old baseline, or two relative thresholds are more than it. */
  predicate JumpsOutrunReArm(c: Config) {
    || c.reArmTolerance <= 0.0
    || (c.minRelativeIncrease > 0.0
        && (1.0 + c.minRelativeIncrease) * (1.0 + c.minRelativeIncrease) > 1.0 + c.reArmTolerance)
  }

  /** Observations spent since the last jump. */
  function Credit(s: State): int {
    if !s.armed || s.lastStable.None? then 0
    else if s.pending.Some? then 1 + s.pending.value.confirmations
    else 1
  }

  /** No candidate over the price can be at the level or below it. */
  ghost predicate OutOfReach(price: real, level: real, c: Config) {
    price >= level || (c.minRelativeIncrease > 0.0 && Up(price, c) > level)
  }

  /** While disarmed, no candidate over the current baseline can also re-arm. */
  ghost predicate DisarmedIsHigh(s: State, c: Config) {
    !s.armed ==>
      && s.preJumpBaseline.Some? && s.lastStable.Some?
      && (ValidBest(s.lastStable).Some? ==>
            OutOfReach(ValidBest(s.lastStable).value.amount, ReArmLevel(s.preJumpBaseline.value, c), c))
  }

  ghost predicate Accounted(s: State, c: Config) {
    && DisarmedIsHigh(s, c)
    && (s.pending.Some? ==> s.armed && s.lastStable.Some? && s.pending.value.confirmations >= 1)
    && (s.lastStable.None? ==> s == INITIAL)
  }

  /** What a confirmed jump costs: its confirmations, and the observation that made the machine
      ready for it. */
  function JumpCost(c: Config): int { MaxOne(c.requiredConfirmations) + 1 }

  lemma StepPaysForJumps(s: State, o: Snapshot, c: Config)
    requires JumpsOutrunReArm(c) && Accounted(s, c)
    ensures var r := StepOfferHistory(s, o, c);
            Accounted(r.next, c) && (if r.confirmedJump then JumpCost(c) else 0) + Credit(r.next) <= Credit(s) + 1
  {
    var r := StepOfferHistory(s, o, c);
    if r.transition.candidateJump {
      CandidateThresholds(s.lastStable, o, c);
      if r.confirmedJump { CompoundIncrease(s.lastStable.value.best.value.amount, o.best.value.amount, c); }
    }
    hide Up, ReArmLevel, JumpsOutrunReArm;
  }

  lemma CompoundIncrease(a: real, b: real, c: Config)
    requires 0.0 < a < b && JumpsOutrunReArm(c) && b >= Up(a, c)
    ensures OutOfReach(b, ReArmLevel(a, c), c)
  {
    var g, t := 1.0 + c.minRelativeIncrease, 1.0 + c.reArmTolerance;
    if c.reArmTolerance <= 0.0 {
      MultiplyAtMost(a, t, 1.0);
    } else {
      MultiplyLess(a, t, g * g);
      MultiplyAtMost(g, a * g, b);
      assert a * (g * g) == g * (a * g);
    }
  }

  lemma MultiplyLess(a: real, x: real, y: real)
    requires a > 0.0 && x < y
    ensures a * x < a * y
  {
  }

  lemma MultiplyAtMost(a: real, x: real, y: real)
    requires a >= 0.0 && x <= y
    ensures a * x <= a * y
  {
  }

  lemma {:induction false} RunPaysForJumps(obs: seq<Snapshot>, c: Config)
    requires JumpsOutrunReArm(c)
    ensures Accounted(StateAfter(obs, c), c)
    ensures Jumps(obs, c) * JumpCost(c) + Credit(StateAfter(obs, c)) <= |obs|
  {
    if |obs| > 0 {
      var shorter, last := obs[..|obs| - 1], obs[|obs| - 1];
      RunPaysForJumps(shorter, c);
      StepPaysForJumps(StateAfter(shorter, c), last, c);
      hide StepOfferHistory, Accounted, Credit, JumpCost, JumpsOutrunReArm;
      OneMore(Jumps(shorter, c), JumpCost(c));
    }
  }

  lemma OneMore(n: int, r: int)
    ensures (n + 1) * r == n * r + r
  {
  }

  // ---- The bound is exact ---------------------------------------------------------------

  function Offer(price: real): Snapshot { Snapshot(0, Some(Best(Mmm, price))) }

  ghost function Plateau(price: real, n: nat): (obs: seq<Snapshot>)
    ensures |obs| == n
  {
    if n == 0 then [] else Plateau(price, n - 1) + [Offer(price)]
  }

  /** The second price is a candidate over the first. */
  ghost predicate Qualifies(x: real, y: real, c: Config) {
    ComputeOfferTransition(Some(Offer(x)), Offer(y), c) == Transition(OfferIncrease, true)
  }

  lemma QualifiesIf(x: real, y: real, c: Config)
    requires 0.0 < x < y && y - x > c.epsilon && y - x >= c.minAbsoluteIncrease && y - x >= x * c.minRelativeIncrease
    ensures Qualifies(x, y, c)
  {
    DivideAtLeast(y - x, x, c.minRelativeIncrease);
  }

  lemma DivideAtLeast(d: real, x: real, r: real)
    requires x > 0.0 && d >= x * r
    ensures d / x >= r
  {
    var q := d / x;
    assert x * q == d;
    if q < r { MultiplyLess(x, q, r); }
  }

  /** A pending candidate can gather more than one confirmation, or needs only one. */
  predicate CanConfirm(c: Config) { c.epsilon >= 0.0 || c.requiredConfirmations <= 1 }

  /** The machine after n offers at the candidate price y over baseline x. */
  ghost function AfterPlateau(s: State, n: nat, x: real, y: real, c: Config): State {
    if n == 0 then s
    else if n < MaxOne(c.requiredConfirmations) then s.(armed := true, pending := Some(Pending(Best(Mmm, y), 0, n)))
    else State(Some(Offer(y)), None, false, Some(0), Some(x))
  }

  ghost predicate ReadyFor(s: State, x: real, y: real, c: Config) {
    && Qualifies(x, y, c) && s.pending.None? && s.lastStable == Some(Offer(x))
    && (s.armed || ReArms(s, Offer(y), c))
  }

  lemma CandidateStep(s: State, x: real, y: real, n: nat, c: Config)
    requires CanConfirm(c) && 1 <= n <= MaxOne(c.requiredConfirmations) && ReadyFor(s, x, y, c)
    ensures var r := StepOfferHistory(AfterPlateau(s, n - 1, x, y, c), Offer(y), c);
            r.next == AfterPlateau(s, n, x, y, c) && r.confirmedJump == (n == MaxOne(c.requiredConfirmations))
  {
    hide ComputeOfferTransition, ReArmLevel;
  }

  /** A plateau of candidates is confirmed exactly at its `requiredConfirmations`-th offer. */
  lemma {:induction false} PlateauConfirms(obs: seq<Snapshot>, n: nat, x: real, y: real, c: Config)
    requires CanConfirm(c) && n <= MaxOne(c.requiredConfirmations) && ReadyFor(StateAfter(obs, c), x, y, c)
    ensures var run := obs + Plateau(y, n);
            && StateAfter(run, c) == AfterPlateau(StateAfter(obs, c), n, x, y, c)
            && Jumps(run, c) == Jumps(obs, c) + if n == MaxOne(c.requiredConfirmations) then 1 else 0
    decreases n
  {
    hide StepOfferHistory, StateAfter, Jumps, ReadyFor;
    var run := obs + Plateau(y, n);
    if n == 0 {
      assert run == obs;
    } else {
      PlateauConfirms(obs, n - 1, x, y, c);
      CandidateStep(StateAfter(obs, c), x, y, n, c);
      assert run == obs + Plateau(y, n - 1) + [Offer(y)];
      Extend(obs + Plateau(y, n - 1), Offer(y), c);
    }
  }

  lemma Extend(obs: seq<Snapshot>, o: Snapshot, c: Config)
    ensures var r := StepOfferHistory(StateAfter(obs, c), o, c);
            && StateAfter(obs + [o], c) == r.next
            && Jumps(obs + [o], c) == Jumps(obs, c) + if r.confirmedJump then 1 else 0
  {
    hide StepOfferHistory;
    assert (obs + [o])[..|obs + [o]| - 1] == obs;
  }

  /** Two candidates in a row, of which the second is still within tolerance of the baseline. */
  ghost predicate TwoSteps(x: real, y: real, z: real, c: Config) {
    Qualifies(x, y, c) && Qualifies(y, z, c) && z <= ReArmLevel(x, c)
  }

  /** A size that passes both absolute thresholds. */
  function Enough(c: Config): real { Abs(c.minAbsoluteIncrease) + Abs(c.epsilon) + 1.0 }

  lemma Quotient(n: real, d: real)
    requires n > 0.0 && d > 0.0
    ensures n / d > 0.0 && n / d * d == n
  {
    var q := n / d;
    assert q * d == n;
    DivideAtLeast(n, d, 0.0);
  }

  lemma UpQualifies(x: real, c: Config)
    requires x > 0.0 && c.minRelativeIncrease > 0.0 && x * c.minRelativeIncrease >= Enough(c)
    ensures Qualifies(x, Up(x, c), c) && x < Up(x, c) && Up(x, c) * c.minRelativeIncrease >= Enough(c)
  {
    var r, y := c.minRelativeIncrease, Up(x, c);
    UpAdds(x, c);
    hide Qualifies, Up;
    EnoughPasses(c);
    MultiplyLess(r, x, y);
    QualifiesIf(x, y, c);
  }

  lemma UpAdds(x: real, c: Config)
    ensures Up(x, c) == x + x * c.minRelativeIncrease
  {
  }

  lemma EnoughPasses(c: Config)
    ensures Enough(c) > 0.0 && Enough(c) > c.epsilon && Enough(c) > c.minAbsoluteIncrease
  {
  }

  lemma UpTwice(x: real, c: Config)
    requires x > 0.0 && !JumpsOutrunReArm(c) && c.minRelativeIncrease > 0.0
    ensures Up(Up(x, c), c) <= ReArmLevel(x, c)
  {
    var g := 1.0 + c.minRelativeIncrease;
    MultiplyAtMost(x, g * g, 1.0 + c.reArmTolerance);
    assert x * g * g == x * (g * g);
  }

  lemma RelativeSteps(c: Config) returns (x: real)
    requires c.minRelativeIncrease > 0.0 && !JumpsOutrunReArm(c)
    ensures TwoSteps(x, Up(x, c), Up(Up(x, c), c), c)
  {
    x := Enough(c) / c.minRelativeIncrease;
    Quotient(Enough(c), c.minRelativeIncrease);
    hide Up, ReArmLevel, Qualifies, JumpsOutrunReArm, Enough;
    UpQualifies(x, c);
    UpQualifies(Up(x, c), c);
    UpTwice(x, c);
  }

  lemma MoreQualifies(x: real, d: real, c: Config)
    requires x > 0.0 && c.minRelativeIncrease <= 0.0 && d == Enough(c)
    ensures Qualifies(x, x + d, c)
  {
    hide Qualifies, Enough;
    EnoughPasses(c);
    MultiplyAtMost(x, c.minRelativeIncrease, 0.0);
    QualifiesIf(x, x + d, c);
  }

  lemma AbsoluteSteps(c: Config) returns (x: real, d: real)
    requires c.minRelativeIncrease <= 0.0 && c.reArmTolerance > 0.0
    ensures TwoSteps(x, x + d, x + d + d, c)
  {
    var t := c.reArmTolerance;
    d := Enough(c);
    x := (d + d) / t;
    Quotient(d + d, t);
    assert ReArmLevel(x, c) == x + x * t;
    hide Qualifies, ReArmLevel;
    MoreQualifies(x, d, c);
    MoreQualifies(x + d, d, c);
  }

  /** A plateau over a first offer, and a second one that is still close enough to its baseline
      to arm the machine again. */
  lemma TwoPlateaus(x: real, y: real, z: real, c: Config) returns (obs: seq<Snapshot>)
    requires CanConfirm(c) && TwoSteps(x, y, z, c)
    ensures |obs| == 1 + 2 * MaxOne(c.requiredConfirmations) && Jumps(obs, c) == 2
  {
    var n := MaxOne(c.requiredConfirmations);
    var first := [Offer(x)];
    var second := first + Plateau(y, n);
    obs := second + Plateau(z, n);
    AfterOneOffer(x, c);
    hide ComputeOfferTransition, StepOfferHistory, StateAfter, Jumps, CanConfirm, Qualifies, ReArmLevel;
    PlateauConfirms(first, n, x, y, c);
    assert StateAfter(second, c) == State(Some(Offer(y)), None, false, Some(0), Some(x));
    PlateauConfirms(second, n, y, z, c);
  }

  lemma AfterOneOffer(x: real, c: Config)
    ensures StateAfter([Offer(x)], c) == INITIAL.(lastStable := Some(Offer(x))) && Jumps([Offer(x)], c) == 0
  {
    assert [Offer(x)][..0] == [];
  }

  /** When two increases can stay within tolerance and candidates can be confirmed at all, some
      run confirms more jumps than it can pay for. */
  lemma TwoPlateausBreakTheBound(c: Config) returns (obs: seq<Snapshot>)
    requires !JumpsOutrunReArm(c) && CanConfirm(c)
    ensures Jumps(obs, c) * JumpCost(c) > |obs|
  {
    hide TwoSteps, Jumps, CanConfirm;
    if c.minRelativeIncrease > 0.0 {
      var x := RelativeSteps(c);
      obs := TwoPlateaus(x, Up(x, c), Up(Up(x, c), c), c);
    } else {
      var x, d := AbsoluteSteps(c);
      obs := TwoPlateaus(x, x + d, x + d + d, c);
    }
  }

  lemma {:induction false} NeverConfirms(obs: seq<Snapshot>, c: Config)
    requires !CanConfirm(c)
    ensures Jumps(obs, c) == 0
  {
    if |obs| > 0 { NeverConfirms(obs[..|obs| - 1], c); }
  }

  ghost predicate BoundHolds(c: Config) {
    forall obs :: Jumps(obs, c) * JumpCost(c) <= |obs|
  }

  /** For every configuration: confirmed jumps times one more than the confirmations they need
      never exceed the observations, in any run, exactly when two increases outrun the re-arm
      tolerance, or when no candidate can ever be confirmed. */
  lemma JumpBoundExact(c: Config)
    ensures BoundHolds(c) <==> JumpsOutrunReArm(c) || !CanConfirm(c)
  {
    if JumpsOutrunReArm(c) {
      forall obs ensures Jumps(obs, c) * JumpCost(c) <= |obs| { RunPaysForJumps(obs, c); }
    } else if CanConfirm(c) {
      var obs := TwoPlateausBreakTheBound(c);
    } else {
      forall obs ensures Jumps(obs, c) * JumpCost(c) <= |obs| { NeverConfirms(obs, c); }
    }
  }

  /** In particular whenever the relative threshold is above the tolerance. */
  lemma ThresholdAboveTolerance(c: Config)
    requires c.minRelativeIncrease > c.reArmTolerance
    ensures JumpsOutrunReArm(c)
  {
    if c.minRelativeIncrease > 0.0 { MultiplyLess(1.0 + c.minRelativeIncrease, 1.0, 1.0 + c.minRelativeIncrease); }
  }
}
