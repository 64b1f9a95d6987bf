/** The replay buffers of recent metadata patches (src/events/emitter.ts): an array in emit
    order with an index by signature. The mint buffer leaves empty signatures out of its
    index; the sale buffer indexes every signature. */
module ReplayBuffer {

  const REPLAY_MAX: nat := 250

  datatype Patch = Patch(signature: string, body: string)

  // ---- What the buffer stands for -------------------------------------------------------

  predicate Keyed(p: Patch, indexesEmpty: bool) { indexesEmpty || p.signature != "" }

  ghost predicate HoldsAt(entries: seq<Patch>, p: Patch, i: int, indexesEmpty: bool) {
    0 <= i < |entries| && Keyed(p, indexesEmpty) && entries[i].signature == p.signature
  }

  /** Replace in place if present, else append and drop the oldest past the cap. */
  ghost function Remembered(entries: seq<Patch>, p: Patch, indexesEmpty: bool): seq<Patch> {
    if i :| HoldsAt(entries, p, i, indexesEmpty) then entries[i := p]
    else if |entries| < REPLAY_MAX then entries + [p]
    else (entries + [p])[1..]
  }

  ghost predicate SignaturesUnique(entries: seq<Patch>, indexesEmpty: bool) {
    forall i, j :: 0 <= i < j < |entries| && entries[i].signature == entries[j].signature ==>
      !Keyed(entries[i], indexesEmpty)
  }

  ghost function Replayed(history: seq<Patch>, indexesEmpty: bool): seq<Patch> {
    if |history| == 0 then []
    else Remembered(Replayed(history[..|history| - 1], indexesEmpty), history[|history| - 1], indexesEmpty)
  }

  // ---- The class ------------------------------------------------------------------------

  class RecentPatches {
    const indexesEmpty: bool
    var recent: seq<Patch>
    var index: map<string, nat>
    ghost var history: seq<Patch>

    /** The index sends each signature to its position, and holds nothing else. */
    ghost predicate Indexed()
      reads this
    {
      && (forall i :: 0 <= i < |recent| && Keyed(recent[i], indexesEmpty) ==>
            recent[i].signature in index && index[recent[i].signature] == i)
      && (forall sig :: sig in index ==>
            index[sig] < |recent| && recent[index[sig]].signature == sig && Keyed(recent[index[sig]], indexesEmpty))
    }

    ghost predicate Valid()
      reads this
    {
      Indexed() && |recent| <= REPLAY_MAX && recent == Replayed(history, indexesEmpty)
    }

    constructor (indexesEmpty: bool)
      ensures Valid() && history == [] && this.indexesEmpty == indexesEmpty
    {
      this.indexesEmpty, recent, index, history := indexesEmpty, [], map[], [];
    }

    method Remember(p: Patch)
      requires Valid()
      modifies this
      ensures Valid() && history == old(history) + [p]
      ensures if exists i :: 0 <= i < |old(recent)| && old(recent)[i].signature == p.signature && Keyed(p, indexesEmpty)
              then |recent| == |old(recent)|
                   && forall i :: 0 <= i < |recent| ==>
                        recent[i] == if old(recent)[i].signature == p.signature then p else old(recent)[i]
              else recent == if |old(recent)| < 250 then old(recent) + [p] else old(recent)[1..] + [p]
    {
      history := history + [p];
      assert history[..|history| - 1] == old(history);
      assert Replayed(history, indexesEmpty) == Remembered(recent, p, indexesEmpty);
      if Keyed(p, indexesEmpty) && p.signature in index {
        var existing := index[p.signature];
        if existing < |recent| && recent[existing].signature == p.signature {
          assert HoldsAt(recent, p, existing, indexesEmpty);
          assert forall i :: HoldsAt(recent, p, i, indexesEmpty) ==> i == existing;
          recent := recent[existing := p];
          return;
        }
      }
      assert forall i :: !HoldsAt(recent, p, i, indexesEmpty);
      Append(p);
    }

    method Append(p: Patch)
      requires Indexed() && |recent| <= REPLAY_MAX && (Keyed(p, indexesEmpty) ==> p.signature !in index)
      modifies this`recent, this`index
      ensures Indexed()
      ensures recent == if |old(recent)| < REPLAY_MAX then old(recent) + [p] else (old(recent) + [p])[1..]
    {
      recent := recent + [p];
      if Keyed(p, indexesEmpty) { index := index[p.signature := |recent| - 1]; }
      if |recent| > REPLAY_MAX {
        recent := recent[1..];
        RebuildIndex();
      }
    }

    /** Signatures that occur once each get their current positions. */
    method RebuildIndex()
      requires SignaturesUnique(recent, indexesEmpty)
      modifies this`index
      ensures Indexed()
    {
      index := map[];
      for i := 0 to |recent|
        invariant forall k :: 0 <= k < i && Keyed(recent[k], indexesEmpty) ==>
                    recent[k].signature in index && index[recent[k].signature] == k
        invariant forall sig :: sig in index ==>
                    index[sig] < i && recent[index[sig]].signature == sig && Keyed(recent[index[sig]], indexesEmpty)
      {
        if Keyed(recent[i], indexesEmpty) { index := index[recent[i].signature := i]; }
      }
    }

    method Snapshot() returns (patches: seq<Patch>)
      requires Valid()
      ensures patches == Replayed(history, indexesEmpty)
    {
      return recent;
    }
  }

  // ---- What a client that connects late receives ----------------------------------------

  /** Emission k is the last one for its signature. */
  ghost predicate LastFor(history: seq<Patch>, k: int) {
    0 <= k < |history| && forall j :: k < j < |history| ==> history[j].signature != history[k].signature
  }

  /** No signature twice, never past the cap, and the last patch always there. */
  lemma {:induction false} ReplayShape(history: seq<Patch>, indexesEmpty: bool)
    ensures var r := Replayed(history, indexesEmpty);
            && SignaturesUnique(r, indexesEmpty) && |r| <= REPLAY_MAX
            && (|history| > 0 ==> history[|history| - 1] in r)
  {
    if |history| > 0 {
      ReplayShape(history[..|history| - 1], indexesEmpty);
      var before, p := Replayed(history[..|history| - 1], indexesEmpty), history[|history| - 1];
      RememberShape(before, p, indexesEmpty);
    }
  }

  lemma RememberShape(entries: seq<Patch>, p: Patch, indexesEmpty: bool)
    requires SignaturesUnique(entries, indexesEmpty) && |entries| <= REPLAY_MAX
    ensures var r := Remembered(entries, p, indexesEmpty);
            SignaturesUnique(r, indexesEmpty) && |r| <= REPLAY_MAX && p in r
            && forall i :: 0 <= i < |r| && r[i] != p && Keyed(r[i], indexesEmpty) ==>
                 r[i] in entries && r[i].signature != p.signature
  {
    var r := Remembered(entries, p, indexesEmpty);
    if i :| HoldsAt(entries, p, i, indexesEmpty) {
      var k :| HoldsAt(entries, p, k, indexesEmpty) && r == entries[k := p];
      assert r[k] == p;
    } else {
      forall i | 0 <= i < |entries| && entries[i].signature == p.signature ensures !Keyed(entries[i], indexesEmpty) {
        assert !HoldsAt(entries, p, i, indexesEmpty);
      }
      assert r[|r| - 1] == p;
    }
  }

  /** A late client gets, for each signature in the buffer, the latest patch ever emitted
      for it, whatever was replaced, dropped and emitted again in between. */
  lemma {:induction false} LatestPatchWins(history: seq<Patch>, indexesEmpty: bool, p: Patch) returns (k: nat)
    requires p in Replayed(history, indexesEmpty) && Keyed(p, indexesEmpty)
    ensures LastFor(history, k) && history[k] == p
  {
    var n := |history| - 1;
    var before, last := Replayed(history[..n], indexesEmpty), history[n];
    ReplayShape(history[..n], indexesEmpty);
    RememberShape(before, last, indexesEmpty);
    hide Replayed, Remembered, SignaturesUnique;
    if p == last {
      k := n;
    } else {
      k := LatestPatchWins(history[..n], indexesEmpty, p);
    }
  }

  /** Up to the cap nothing is lost: every signature emitted has its latest patch there. */
  lemma {:induction false} NothingLostBelowCap(history: seq<Patch>, indexesEmpty: bool, k: nat)
    requires |history| <= REPLAY_MAX && LastFor(history, k) && Keyed(history[k], indexesEmpty)
    ensures history[k] in Replayed(history, indexesEmpty)
  {
    var n := |history| - 1;
    var before, last := Replayed(history[..n], indexesEmpty), history[n];
    ReplayLength(history, indexesEmpty);
    ReplayLength(history[..n], indexesEmpty);
    ReplayShape(history, indexesEmpty);
    if k < n {
      NothingLostBelowCap(history[..n], indexesEmpty, k);
      var at :| 0 <= at < |before| && before[at] == history[k];
      assert before[at].signature != last.signature;
      assert Replayed(history, indexesEmpty)[at] == history[k];
    }
  }

  lemma {:induction false} ReplayLength(history: seq<Patch>, indexesEmpty: bool)
    ensures |Replayed(history, indexesEmpty)| <= |history|
  {
    if |history| > 0 { ReplayLength(history[..|history| - 1], indexesEmpty); }
  }
}
