/** The per-collection ceiling on image retries (src/enrichment/image-retry.ts): a rolling
    window whose bucket is compacted in place, against the log of all admissions. */
module ImageRetry {
  import opened Windows

  const COLLECTION_WINDOW_MS: int := 60000
  const COLLECTION_RETRY_LIMIT: nat := 50

  function AtLeast(times: seq<int>, cutoff: int): seq<int> {
    if |times| == 0 then []
    else AtLeast(times[..|times| - 1], cutoff) + if times[|times| - 1] >= cutoff then [times[|times| - 1]] else []
  }

  /** In-place compaction with a write index that never passes the read index. */
  method Prune(bucket: seq<int>, cutoff: int) returns (r: seq<int>)
    ensures r == AtLeast(bucket, cutoff)
  {
    var b, writeIdx := bucket, 0;
    for i := 0 to |bucket|
      invariant writeIdx <= i && |b| == |bucket|
      invariant b[i..] == bucket[i..]
      invariant b[..writeIdx] == AtLeast(bucket[..i], cutoff)
    {
      assert b[i] == b[i..][0] == bucket[i];
      assert bucket[..i + 1][..i] == bucket[..i];
      if b[i] >= cutoff {
        b := b[writeIdx := b[i]];
        writeIdx := writeIdx + 1;
        assert b[..writeIdx] == AtLeast(bucket[..i], cutoff) + [bucket[i]];
      }
    }
    assert bucket[..|bucket|] == bucket;
    return b[..writeIdx];
  }

  lemma {:induction false} AtLeastSorted(times: seq<int>, cutoff: int)
    requires Sorted(times)
    ensures AtLeast(times, cutoff) == times[LeadingBefore(times, cutoff)..]
  {
    hide LeadingBefore;
    if |times| > 0 {
      var n, k := |times| - 1, LeadingBefore(times, cutoff);
      AtLeastSorted(times[..n], cutoff);
      var k' := LeadingBefore(times[..n], cutoff);
      if k <= n {
        assert times[k] <= times[n];
        assert k' < n ==> times[k'] >= cutoff;
        assert times[..n][k..] + [times[n]] == times[k..];
      } else {
        LeadingIs(times[..n], cutoff, n);
        assert times[..n][n..] == [] == times[k..];
      }
    }
  }

  // ---- The bound ------------------------------------------------------------------------------

  /** Admissions that are as many places apart as the limit are further apart than the window. */
  ghost predicate Spaced(times: seq<int>) {
    forall i: nat, j: nat :: i + COLLECTION_RETRY_LIMIT <= j < |times| ==> times[j] - times[i] > COLLECTION_WINDOW_MS
  }

  ghost function CountWithin(times: seq<int>, from: int, to: int): nat {
    if |times| == 0 then 0
    else
      var last := times[|times| - 1];
      CountWithin(times[..|times| - 1], from, to) + if from <= last <= to then 1 else 0
  }

  lemma {:induction false} WithinIsDifference(times: seq<int>, from: int, to: int)
    requires from <= to + 1
    ensures CountWithin(times, from, to) == CountFrom(times, from) - CountFrom(times, to + 1)
  {
    if |times| > 0 { WithinIsDifference(times[..|times| - 1], from, to); }
  }

  lemma CountIsLeading(times: seq<int>, cutoff: int)
    requires Sorted(times)
    ensures CountFrom(times, cutoff) == |times| - LeadingBefore(times, cutoff)
  {
    hide CountFrom;
    var k := LeadingBefore(times, cutoff);
    forall i | k <= i < |times| ensures times[i] >= cutoff { if k < i { assert times[k] <= times[i]; } }
    CountSplits(times, k, cutoff);
  }

  /** No window of 60 s, wherever it starts, holds more than 50 admissions. */
  lemma WindowBound(times: seq<int>, from: int)
    requires Sorted(times) && Spaced(times)
    ensures CountWithin(times, from, from + COLLECTION_WINDOW_MS) <= COLLECTION_RETRY_LIMIT
  {
    hide CountWithin, CountFrom;
    var to := from + COLLECTION_WINDOW_MS;
    WithinIsDifference(times, from, to);
    CountIsLeading(times, from);
    CountIsLeading(times, to + 1);
    var i, j := LeadingBefore(times, from), LeadingBefore(times, to + 1);
    var m := i + COLLECTION_RETRY_LIMIT;
    if m < |times| { assert times[m] - times[i] > COLLECTION_WINDOW_MS; }
  }

  lemma AdmitSpaced(times: seq<int>, now: int)
    requires Sorted(times) && Spaced(times) && (|times| > 0 ==> times[|times| - 1] <= now)
    requires CountFrom(times, now - COLLECTION_WINDOW_MS) < COLLECTION_RETRY_LIMIT
    ensures Sorted(times + [now]) && Spaced(times + [now])
  {
    hide LeadingBefore, CountFrom, Sorted;
    CountIsLeading(times, now - COLLECTION_WINDOW_MS);
    AppendSorted(times, now);
    var all := times + [now];
    forall i: nat, j: nat | i + COLLECTION_RETRY_LIMIT <= j < |all| ensures all[j] - all[i] > COLLECTION_WINDOW_MS {
      if j < |times| { assert times[j] - times[i] > COLLECTION_WINDOW_MS; }
    }
  }

  lemma AppendSorted(times: seq<int>, now: int)
    requires Sorted(times) && (|times| > 0 ==> times[|times| - 1] <= now)
    ensures Sorted(times + [now])
  {
    var all := times + [now];
    forall i, j | 0 <= i < j < |all| ensures all[i] <= all[j] {
      if j == |times| && i < |times| - 1 { assert times[i] <= times[|times| - 1]; }
    }
  }

  // ---- The ceiling ----------------------------------------------------------------------------

  /** The bucket of a collection, without one an empty list, is the recent end of its admissions. */
  ghost predicate BucketOk(admitted: seq<int>, bucket: seq<int>, clock: int) {
    && Sorted(admitted) && Spaced(admitted) && (|admitted| > 0 ==> admitted[|admitted| - 1] <= clock)
    && KeepsFrom(admitted, bucket, clock - COLLECTION_WINDOW_MS)
  }

  ghost function ListOf(m: map<string, seq<int>>, key: string): seq<int> { if key in m then m[key] else [] }

  lemma PruneKeeps(admitted: seq<int>, bucket: seq<int>, clock: int, now: int)
    requires BucketOk(admitted, bucket, clock) && clock <= now
    ensures var kept := AtLeast(bucket, now - COLLECTION_WINDOW_MS);
            BucketOk(admitted, kept, now) && |kept| == CountFrom(admitted, now - COLLECTION_WINDOW_MS)
  {
    hide Sorted, Spaced, CountFrom, LeadingBefore, KeepsFrom;
    var cutoff := now - COLLECTION_WINDOW_MS;
    SortedEnd(admitted, bucket, clock - COLLECTION_WINDOW_MS);
    AtLeastSorted(bucket, cutoff);
    DropKeeps(admitted, bucket, clock - COLLECTION_WINDOW_MS, cutoff, LeadingBefore(bucket, cutoff));
    CutCountsAll(admitted, bucket, clock - COLLECTION_WINDOW_MS, cutoff);
  }

  lemma AdmitKeeps(admitted: seq<int>, kept: seq<int>, now: int)
    requires BucketOk(admitted, kept, now)
    requires CountFrom(admitted, now - COLLECTION_WINDOW_MS) < COLLECTION_RETRY_LIMIT
    ensures BucketOk(admitted + [now], kept + [now], now)
  {
    hide Spaced, CountFrom, KeepsFrom;
    AdmitSpaced(admitted, now);
    AppendKeeps(admitted, kept, now - COLLECTION_WINDOW_MS, now);
  }

  lemma WaitKeeps(admitted: seq<int>, bucket: seq<int>, clock: int, now: int)
    requires BucketOk(admitted, bucket, clock) && clock <= now
    ensures BucketOk(admitted, bucket, now)
  {
  }

  class RetryCeiling {
    var collectionRetries: map<string, seq<int>>
    var collectionSkips: map<string, nat>
    ghost var admitted: map<string, seq<int>>       // every admission of every collection
    ghost var clock: int

    ghost predicate Valid()
      reads this
    {
      forall c :: BucketOk(ListOf(admitted, c), ListOf(collectionRetries, c), clock)
    }

    constructor ()
      ensures Valid() && admitted == map[] && clock == 0
    {
      collectionRetries, collectionSkips, admitted, clock := map[], map[], map[], 0;
      new;
      forall c ensures BucketOk(ListOf(admitted, c), ListOf(collectionRetries, c), clock) {}
    }

    /** A retry for a collection is admitted exactly when its log holds fewer than 50 admissions
        of the last 60 s. */
    method Admit(collection: string, now: int) returns (admit: bool)
      requires Valid() && now >= clock
      modifies this
      ensures Valid() && clock == now
      ensures admit <==> CountFrom(ListOf(old(admitted), collection), now - COLLECTION_WINDOW_MS) < COLLECTION_RETRY_LIMIT
      ensures admitted == if admit then old(admitted)[collection := ListOf(old(admitted), collection) + [now]]
                          else old(admitted)
      ensures !admit ==> collection in collectionSkips
      ensures !admit ==> collectionSkips[collection]
                         == 1 + if collection in old(collectionSkips) then old(collectionSkips)[collection] else 0
    {
      hide BucketOk, CountFrom, AtLeast;
      ghost var log, before, start := ListOf(admitted, collection), clock, collectionRetries;
      PruneKeeps(log, ListOf(collectionRetries, collection), before, now);
      assert AtLeast([], now - COLLECTION_WINDOW_MS) == [] by { EmptyAtLeast(now - COLLECTION_WINDOW_MS); }
      forall c ensures BucketOk(ListOf(admitted, c), ListOf(collectionRetries, c), now) {
        WaitKeeps(ListOf(admitted, c), ListOf(collectionRetries, c), clock, now);
      }
      clock := now;
      var count := 0;
      if collection in collectionRetries {
        var bucket := Prune(collectionRetries[collection], now - COLLECTION_WINDOW_MS);
        count := |bucket|;
        if count == 0 {
          collectionRetries, collectionSkips := collectionRetries - {collection}, collectionSkips - {collection};
        } else {
          collectionRetries := collectionRetries[collection := bucket];
        }
      }
      if count >= COLLECTION_RETRY_LIMIT {
        var next := 1 + if collection in collectionSkips then collectionSkips[collection] else 0;
        collectionSkips := collectionSkips[collection := next];
        return false;
      }
      ghost var kept := ListOf(collectionRetries, collection);
      AdmitKeeps(log, kept, now);
      collectionRetries := collectionRetries[collection :=
        (if collection in collectionRetries then collectionRetries[collection] else []) + [now]];
      admitted := admitted[collection := log + [now]];
      forall c ensures BucketOk(ListOf(admitted, c), ListOf(collectionRetries, c), now) {
        if c != collection {
          assert ListOf(collectionRetries, c) == ListOf(start, c) && ListOf(admitted, c) == ListOf(old(admitted), c);
        } else {
          assert ListOf(collectionRetries, c) == kept + [now];
        }
      }
      return true;
    }

    /** The ceiling only applies to retries with a mint that is neither in flight nor tried
        recently, and only when the collection is known. */
    method ScheduleImageRetry(mint: string, collection: string, triedLately: bool, now: int) returns (scheduled: bool)
      requires Valid() && now >= clock
      modifies this
      ensures Valid()
      ensures scheduled <==>
                (&& mint != "" && !triedLately
                 && (collection != "" ==>
                       CountFrom(ListOf(old(admitted), collection), now - COLLECTION_WINDOW_MS) < COLLECTION_RETRY_LIMIT))
    {
      hide BucketOk, CountFrom;
      if mint == "" || triedLately { return false; }
      if collection != "" {
        var admit := Admit(collection, now);
        return admit;
      }
      return true;
    }
  }

  lemma EmptyAtLeast(cutoff: int)
    ensures AtLeast([], cutoff) == []
  {
  }
}
