/** What the two bounded memories of the poller keep and forget (src/ingestion/amm-poller.ts):
    5000 seen signatures, in the order they were marked, and 10000 outcomes, in the order they
    were first remembered. */
module PollerMemory {
  import opened Options
  import opened InsertionOrder
  import opened IngestOutcomes
  import opened PollerPaging
  import opened PollerSweep

  // ---- What a scan takes up -----------------------------------------------------------------

  /** The last `n` entries of a queue. */
  function Last(q: seq<string>, n: nat): (r: seq<string>)
    ensures |r| == Min(n, |q|)
  {
    q[Max(0, |q| - n)..]
  }

  /** After a scan, the seen memory holds the newest entries of the old one and what was new. */
  lemma {:induction false} SeenAfterScan(page: seq<Row>, m: Memory)
    requires |m.seen| <= LOCAL_SEEN_MAX
    ensures var r := ScanPage(page, m); r.seen == Last(m.seen + r.unseen, LOCAL_SEEN_MAX)
    decreases |page|
  {
    if |page| > 0 {
      SeenAfterScan(page[..|page| - 1], m);
      var r := ScanPage(page[..|page| - 1], m);
      assert m.seen + (r.unseen + [page[|page| - 1].sig]) == (m.seen + r.unseen) + [page[|page| - 1].sig];
    }
  }

  /** Rows scanned later change nothing about an earlier row. */
  lemma {:induction false} ScanGoesOn(page: seq<Row>, m: Memory, n: nat, sig: string)
    requires n <= |page|
    ensures var early, r := ScanPage(page[..n], m), ScanPage(page, m);
            && r.outcomes[..n] == early.outcomes
            && early.unseen <= r.unseen
            && (sig in r.unseen <==> sig in early.unseen || sig in r.unseen[|early.unseen|..])
            && ((forall k :: n <= k < |page| ==> page[k].sig != sig) ==> sig !in r.unseen[|early.unseen|..])
            && ((forall k :: 0 <= k < |page| ==> page[k].sig != sig) ==> sig !in r.unseen)
    decreases |page|
  {
    if n < |page| {
      assert page[..|page| - 1][..n] == page[..n];
      ScanGoesOn(page[..|page| - 1], m, n, sig);
    } else {
      assert page[..n] == page;
      if |page| > 0 { ScanGoesOn(page[..|page| - 1], m, |page| - 1, sig); }
    }
  }

  /** A row is taken up exactly when it did not fail and the seen memory has not got it by then. */
  lemma TakenUp(page: seq<Row>, m: Memory, i: nat)
    requires Distinct(page) && i < |page|
    ensures var r, early := ScanPage(page, m), ScanPage(page[..i], m);
            && (page[i].sig in r.unseen <==> !page[i].failed && page[i].sig !in early.seen)
            && r.outcomes[i] == (if page[i].failed then Some(ConfirmedIrrelevant)
                                 else if page[i].sig in early.seen then Recalled(m, page[i].sig) else None)
  {
    var sig := page[i].sig;
    assert page[..i + 1][..i] == page[..i];
    ScanGoesOn(page, m, i + 1, sig);
    ScanGoesOn(page[..i], m, i, sig);
    assert ScanPage(page, m).outcomes[i] == ScanPage(page[..i + 1], m).outcomes[i];
  }

  /** An entry leaves a bounded queue once more came in than there was room behind it. */
  lemma LeavesAt(q: seq<string>, more: seq<string>, at: nat, n: nat)
    requires Unique(q) && at < |q| && q[at] !in more
    ensures q[at] in Last(q + more, n) <==> |q| + |more| <= n + at
  {
    var all, cut := q + more, Max(0, |q| + |more| - n);
    assert all[at] == q[at] && forall k :: 0 <= k < |all| && k != at ==> all[k] != q[at];
    assert at >= cut ==> Last(all, n)[at - cut] == q[at];
  }

  /** A page without the signature leaves it in the seen memory exactly when it brings no more
      than there is room behind it. */
  lemma StillSeen(page: seq<Row>, m: Memory, q: nat)
    requires Unique(m.seen) && |m.seen| <= LOCAL_SEEN_MAX && q < |m.seen|
    requires forall k :: 0 <= k < |page| ==> page[k].sig != m.seen[q]
    ensures var r := ScanPage(page, m); m.seen[q] in r.seen <==> |m.seen| + |r.unseen| <= LOCAL_SEEN_MAX + q
  {
    SeenAfterScan(page, m);
    ScanGoesOn(page, m, |page|, m.seen[q]);
    hide ScanPage, Unique, Last;
    LeavesAt(m.seen, ScanPage(page, m).unseen, q, LOCAL_SEEN_MAX);
  }

  /** A signature at place `q` of the seen memory is taken up again exactly when the newer rows
      of the page pushed it out. Until then the row has whatever outcome is remembered, and when
      that was forgotten it holds the cursor back. */
  lemma ForgottenIsNotRetried(page: seq<Row>, m: Memory, i: nat, q: nat)
    requires Distinct(page) && i < |page| && !page[i].failed
    requires Unique(m.seen) && |m.seen| <= LOCAL_SEEN_MAX && q < |m.seen| && m.seen[q] == page[i].sig
    ensures var r, early := ScanPage(page, m), ScanPage(page[..i], m);
            && (page[i].sig in r.unseen <==> |m.seen| + |early.unseen| > LOCAL_SEEN_MAX + q)
            && (page[i].sig !in r.unseen ==> r.outcomes[i] == Recalled(m, page[i].sig))
            && (page[i].sig !in m.outcomes ==> r.outcomes[i] == None && SafeFrom(r.outcomes) > i)
  {
    hide ScanPage, Unique;
    TakenUp(page, m, i);
    StillSeen(page[..i], m, q);
    assert !Safe(None);
  }

  // ---- How an outcome is forgotten ----------------------------------------------------------

  /** A signature is marked and then gets its outcome. */
  function Touch(m: Memory, sig: string, outcome: IngestOutcome): Memory {
    Remember(m.(seen := MarkSeen(m.seen, sig)), sig, outcome)
  }

  function TouchAll(m: Memory, sigs: seq<string>, outcome: IngestOutcome): Memory {
    if |sigs| == 0 then m
    else Touch(TouchAll(m, sigs[..|sigs| - 1], outcome), sigs[|sigs| - 1], outcome)
  }

  ghost predicate Kept(m: Memory) {
    && |m.seen| <= LOCAL_SEEN_MAX && |m.order| <= SIGNATURE_OUTCOME_MAX
    && |m.order| == |m.outcomes| && Listed(m.outcomes.Keys, m.order)
  }

  /** None of the signatures is in either memory. */
  ghost predicate NewTo(m: Memory, sigs: seq<string>) {
    Unique(sigs) && forall i :: 0 <= i < |sigs| ==> sigs[i] !in m.seen && sigs[i] !in m.order
  }

  lemma RememberNew(m: Memory, sig: string, outcome: IngestOutcome)
    requires Kept(m) && sig !in m.order
    ensures var r := Remember(m, sig, outcome);
            Kept(r) && r.seen == m.seen && r.order == Last(m.order + [sig], SIGNATURE_OUTCOME_MAX)
  {
    hide Unique, Listed, Remember, Forget;
    Unremembered(m, sig);
    AddRemembered(m.outcomes, m.order, sig, outcome);
    HeadRemembered(m.outcomes[sig := outcome], m.order + [sig]);
    if |m.order| < SIGNATURE_OUTCOME_MAX { RememberMore(m, sig, outcome); } else { RememberInstead(m, sig, outcome); }
  }

  lemma Unremembered(m: Memory, sig: string)
    requires Kept(m)
    ensures sig in m.outcomes <==> sig in m.order
  {
    assert sig in m.outcomes.Keys <==> sig in m.order;
  }

  lemma RememberMore(m: Memory, sig: string, outcome: IngestOutcome)
    requires sig !in m.outcomes && |m.order| < SIGNATURE_OUTCOME_MAX
    ensures Remember(m, sig, outcome) == m.(outcomes := m.outcomes[sig := outcome], order := m.order + [sig])
  {
  }

  lemma RememberInstead(m: Memory, sig: string, outcome: IngestOutcome)
    requires sig !in m.outcomes && |m.order| == SIGNATURE_OUTCOME_MAX
    ensures var all, order := m.outcomes[sig := outcome], m.order + [sig];
            Remember(m, sig, outcome) == m.(outcomes := all - {order[0]}, order := order[1..])
  {
    var all, order := m.outcomes[sig := outcome], m.order + [sig];
    assert Forget(all - {order[0]}, order[1..], 0) == all - {order[0]};
  }

  lemma TouchNew(m: Memory, sig: string, outcome: IngestOutcome)
    requires Kept(m) && sig !in m.seen && sig !in m.order
    ensures var r := Touch(m, sig, outcome);
            && Kept(r) && r.seen == Last(m.seen + [sig], LOCAL_SEEN_MAX)
            && r.order == Last(m.order + [sig], SIGNATURE_OUTCOME_MAX)
  {
    hide Unique, Listed, Remember;
    RememberNew(m.(seen := MarkSeen(m.seen, sig)), sig, outcome);
  }

  lemma NewToEarlier(m: Memory, sigs: seq<string>)
    requires NewTo(m, sigs) && |sigs| > 0
    ensures var early, sig := sigs[..|sigs| - 1], sigs[|sigs| - 1];
            NewTo(m, early) && sig !in m.seen + early && sig !in m.order + early
  {
  }

  /** New signatures push out, from both memories, exactly what came first. */
  lemma {:induction false} TouchAllNew(m: Memory, sigs: seq<string>, outcome: IngestOutcome)
    requires Kept(m) && NewTo(m, sigs)
    ensures var r := TouchAll(m, sigs, outcome);
            && Kept(r) && r.seen == Last(m.seen + sigs, LOCAL_SEEN_MAX)
            && r.order == Last(m.order + sigs, SIGNATURE_OUTCOME_MAX)
    decreases |sigs|
  {
    if |sigs| > 0 {
      var early, sig := sigs[..|sigs| - 1], sigs[|sigs| - 1];
      NewToEarlier(m, sigs);
      TouchAllNew(m, early, outcome);
      var r := TouchAll(m, early, outcome);
      hide Kept, Touch, NewTo, Unique, TouchAll;
      TouchNew(r, sig, outcome);
      OneMoreName(m.seen, sigs, LOCAL_SEEN_MAX);
      OneMoreName(m.order, sigs, SIGNATURE_OUTCOME_MAX);
    }
  }

  lemma OneMoreName(q: seq<string>, sigs: seq<string>, n: nat)
    requires |sigs| > 0
    ensures Last(Last(q + sigs[..|sigs| - 1], n) + [sigs[|sigs| - 1]], n) == Last(q + sigs, n)
  {
    assert q + sigs == (q + sigs[..|sigs| - 1]) + [sigs[|sigs| - 1]];
  }

  /** A signature with an outcome keeps its old place when it gets another. */
  lemma TouchAgain(m: Memory, sig: string, outcome: IngestOutcome)
    requires Kept(m) && sig in m.order && sig !in m.seen
    ensures var r := Touch(m, sig, outcome);
            Kept(r) && r.seen == Last(m.seen + [sig], LOCAL_SEEN_MAX) && r.order == m.order
  {
    assert sig in m.outcomes.Keys && m.outcomes[sig := outcome].Keys == m.outcomes.Keys;
  }

  function Name(i: nat): string { seq(i + 1, _ => 'a') }

  function Names(lo: nat, hi: nat): (r: seq<string>)
    requires lo <= hi
    ensures |r| == hi - lo && forall i :: 0 <= i < hi - lo ==> r[i] == Name(lo + i)
  {
    seq(hi - lo, i requires 0 <= i < hi - lo => Name(lo + i))
  }

  lemma NamesDiffer(lo: nat, hi: nat)
    requires lo <= hi
    ensures Unique(Names(lo, hi)) && forall i: nat :: Name(i) in Names(lo, hi) <==> lo <= i < hi
  {
    forall i: nat ensures Name(i) in Names(lo, hi) <==> lo <= i < hi {
      assert |Name(i)| == i + 1;
      if lo <= i < hi {
        assert Names(lo, hi)[i - lo] == Name(i);
      } else {
        forall k | 0 <= k < hi - lo ensures Names(lo, hi)[k] != Name(i) { assert |Names(lo, hi)[k]| == lo + k + 1; }
      }
    }
    forall i, j | 0 <= i < j < hi - lo ensures Names(lo, hi)[i] != Names(lo, hi)[j] {
      assert |Names(lo, hi)[i]| == lo + i + 1 && |Names(lo, hi)[j]| == lo + j + 1;
    }
  }

  /** One signature, 5001 others, the first again, and 4999 more. */
  function AfterManyTouches(outcome: IngestOutcome): Memory {
    var first := TouchAll(NOTHING, Names(0, 5002), outcome);
    TouchAll(Touch(first, Name(0), outcome), Names(5002, 10001), outcome)
  }

  lemma LastNames(lo: nat, mid: nat, hi: nat, n: nat)
    requires lo <= mid <= hi && mid == Max(lo, hi - n)
    ensures Last(Names(lo, hi), n) == Names(mid, hi)
  {
    hide Name;
  }

  lemma FirstTouches(outcome: IngestOutcome)
    ensures var first := TouchAll(NOTHING, Names(0, 5002), outcome);
            Kept(first) && first.seen == Names(2, 5002) && first.order == Names(0, 5002)
  {
    NamesDiffer(0, 5002);
    TouchAllNew(NOTHING, Names(0, 5002), outcome);
    LastNames(0, 2, 5002, LOCAL_SEEN_MAX);
    LastNames(0, 0, 5002, SIGNATURE_OUTCOME_MAX);
    hide *;
    assert [] + Names(0, 5002) == Names(0, 5002);
  }

  lemma SecondTouch(outcome: IngestOutcome)
    ensures var again := Touch(TouchAll(NOTHING, Names(0, 5002), outcome), Name(0), outcome);
            Kept(again) && again.seen == Names(3, 5002) + [Name(0)] && again.order == Names(0, 5002)
  {
    FirstTouches(outcome);
    NamesDiffer(2, 5002);
    NamesDiffer(0, 5002);
    var first := TouchAll(NOTHING, Names(0, 5002), outcome);
    TouchAgain(first, Name(0), outcome);
    SeenAgain();
    hide *;
  }

  lemma SeenAgain()
    ensures Last(Names(2, 5002) + [Name(0)], LOCAL_SEEN_MAX) == Names(3, 5002) + [Name(0)]
  {
    hide Name;
  }

  lemma SeenAtLast()
    ensures Names(0, 5002) + Names(5002, 10001) == Names(0, 10001)
    ensures Last(Names(3, 5002) + [Name(0)] + Names(5002, 10001), LOCAL_SEEN_MAX) == [Name(0)] + Names(5002, 10001)
  {
    hide Name;
  }

  lemma LastTouchesNew(m: Memory)
    requires m.seen == Names(3, 5002) + [Name(0)] && m.order == Names(0, 5002)
    ensures NewTo(m, Names(5002, 10001))
  {
    NamesDiffer(0, 5002);
    NamesDiffer(3, 5002);
    NamesDiffer(5002, 10001);
    assert |Name(0)| == 1;
    forall i | 0 <= i < 4999
      ensures Names(5002, 10001)[i] !in m.seen && Names(5002, 10001)[i] !in m.order
    {
      var k: nat := 5002 + i;
      assert Names(5002, 10001)[i] == Name(k) && |Name(k)| == k + 1;
    }
  }

  lemma LastTouches(again: Memory, outcome: IngestOutcome)
    requires Kept(again) && again.seen == Names(3, 5002) + [Name(0)] && again.order == Names(0, 5002)
    ensures var m := TouchAll(again, Names(5002, 10001), outcome);
            Kept(m) && m.seen == [Name(0)] + Names(5002, 10001) && m.order == Names(1, 10001)
  {
    LastTouchesNew(again);
    TouchAllNew(again, Names(5002, 10001), outcome);
    LastNames(0, 1, 10001, SIGNATURE_OUTCOME_MAX);
    SeenAtLast();
    hide *;
  }

  /** The second time, the first signature gets a new place among the seen but keeps its old one
      among the outcomes, so its outcome is the first to go while it is still seen. */
  lemma FirstIsForgotten(outcome: IngestOutcome)
    ensures var m := AfterManyTouches(outcome);
            && Kept(m) && m.seen == [Name(0)] + Names(5002, 10001) && m.order == Names(1, 10001)
            && Name(0) !in m.outcomes
  {
    hide Kept, Name, Names, Touch, TouchAll, Unique, Last;
    SecondTouch(outcome);
    LastTouches(Touch(TouchAll(NOTHING, Names(0, 5002), outcome), Name(0), outcome), outcome);
    NamesDiffer(1, 10001);
    Unremembered(AfterManyTouches(outcome), Name(0));
  }

  /** So a page can meet a signature that is seen and forgotten: it is not taken up, its row has
      no outcome, and nothing on the page is safe. */
  lemma ForgottenBlocks(outcome: IngestOutcome)
    ensures var r := ScanPage([Row(Name(0), false)], AfterManyTouches(outcome));
            r.unseen == [] && r.outcomes == [None] && SafeFrom(r.outcomes) == |r.outcomes|
  {
    var m := AfterManyTouches(outcome);
    FirstIsForgotten(outcome);
    hide AfterManyTouches, Name, Kept;
    assert m.seen[0] == Name(0);
    SeenRowAlone(m, Name(0));
  }

  lemma SeenRowAlone(m: Memory, sig: string)
    requires sig in m.seen && sig !in m.outcomes
    ensures var r := ScanPage([Row(sig, false)], m); r == Scanned(m.seen, [None], []) && SafeFrom(r.outcomes) == 1
  {
    var page := [Row(sig, false)];
    assert page[..0] == [] && ScanPage([], m) == Scanned(m.seen, [], []);
    assert !Safe(None);
  }
}
