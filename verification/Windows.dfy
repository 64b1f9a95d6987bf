/** Sliding windows kept as trimmed lists, against the full log they forget. */
module Windows {

  ghost predicate Sorted(times: seq<int>) {
    forall i, j :: 0 <= i < j < |times| ==> times[i] <= times[j]
  }

  /** `kept` is the end of `times`, and everything before it is older than `limit`. */
  ghost predicate KeepsFrom(times: seq<int>, kept: seq<int>, limit: int) {
    && |kept| <= |times| && kept == times[|times| - |kept|..]
    && forall i :: 0 <= i < |times| - |kept| ==> times[i] < limit
  }

  /** How many of the times are at or after `cutoff`. */
  ghost function CountFrom(times: seq<int>, cutoff: int): nat {
    if |times| == 0 then 0
    else CountFrom(times[..|times| - 1], cutoff) + if times[|times| - 1] >= cutoff then 1 else 0
  }

  lemma {:induction false} CountSplits(times: seq<int>, at: nat, cutoff: int)
    requires at <= |times|
    requires forall i :: 0 <= i < at ==> times[i] < cutoff
    requires forall i :: at <= i < |times| ==> times[i] >= cutoff
    ensures CountFrom(times, cutoff) == |times| - at
  {
    if |times| > 0 {
      CountSplits(times[..|times| - 1], if at == |times| then at - 1 else at, cutoff);
    }
  }

  /** A list that starts at the cutoff and has forgotten only older times counts like the
      full log. */
  lemma KeptCountsAll(times: seq<int>, kept: seq<int>, cutoff: int)
    requires KeepsFrom(times, kept, cutoff) && forall i :: 0 <= i < |kept| ==> kept[i] >= cutoff
    ensures CountFrom(times, cutoff) == |kept|
  {
    var at := |times| - |kept|;
    forall i | at <= i < |times| ensures times[i] >= cutoff { assert kept[i - at] == times[i]; }
    CountSplits(times, at, cutoff);
  }

  /** Number of leading times before the cutoff. */
  function LeadingBefore(times: seq<int>, cutoff: int): (n: nat)
    ensures n <= |times|
    ensures forall i :: 0 <= i < n ==> times[i] < cutoff
    ensures n < |times| ==> times[n] >= cutoff
  {
    if |times| == 0 || times[0] >= cutoff then 0 else 1 + LeadingBefore(times[1..], cutoff)
  }

  lemma LeadingIs(times: seq<int>, cutoff: int, n: nat)
    requires n <= |times| && forall i :: 0 <= i < n ==> times[i] < cutoff
    requires n < |times| ==> times[n] >= cutoff
    ensures LeadingBefore(times, cutoff) == n
  {
  }

  lemma DropKeeps(times: seq<int>, kept: seq<int>, limit: int, cutoff: int, n: nat)
    requires KeepsFrom(times, kept, limit) && limit <= cutoff && n <= |kept|
    requires forall i :: 0 <= i < n ==> kept[i] < cutoff
    ensures KeepsFrom(times, kept[n..], cutoff)
  {
    var at := |times| - |kept|;
    forall i | 0 <= i < at + n ensures times[i] < cutoff {
      if i >= at { assert kept[i - at] == times[i]; }
    }
  }

  lemma AppendKeeps(times: seq<int>, kept: seq<int>, limit: int, t: int)
    requires KeepsFrom(times, kept, limit)
    ensures KeepsFrom(times + [t], kept + [t], limit)
  {
  }

  lemma SortedEnd(times: seq<int>, kept: seq<int>, limit: int)
    requires Sorted(times) && KeepsFrom(times, kept, limit)
    ensures Sorted(kept)
  {
    var at := |times| - |kept|;
    forall i, j | 0 <= i < j < |kept| ensures kept[i] <= kept[j] {
      assert kept[i] == times[at + i] && kept[j] == times[at + j];
    }
  }

  /** Cutting a kept list at a later cutoff counts the whole log from there. */
  lemma CutCountsAll(times: seq<int>, kept: seq<int>, limit: int, cutoff: int)
    requires Sorted(times) && KeepsFrom(times, kept, limit) && limit <= cutoff
    ensures CountFrom(times, cutoff) == |kept| - LeadingBefore(kept, cutoff)
  {
    var n := LeadingBefore(kept, cutoff);
    SortedEnd(times, kept, limit);
    DropKeeps(times, kept, limit, cutoff, n);
    forall i | n <= i < |kept| ensures kept[i] >= cutoff {
      if i > n { assert kept[n] <= kept[i]; }
    }
    KeptCountsAll(times, kept[n..], cutoff);
  }
}
