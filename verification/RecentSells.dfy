/** Recent sells per (seller, collection) and per seller
    (src/enrichment/recent-sell-tracker.ts). */
module RecentSells {
  import opened Windows
  import opened InsertionOrder

  const WINDOW_MS: int := 600000
  const MAX_KEYS: nat := 50000

  datatype Note = Note(key: string, time: int)

  ghost function TimesOf(notes: seq<Note>, key: string): seq<int> {
    if |notes| == 0 then []
    else
      var last := notes[|notes| - 1];
      TimesOf(notes[..|notes| - 1], key) + if last.key == key then [last.time] else []
  }

  lemma {:induction false} TimesOrdered(notes: seq<Note>, key: string)
    requires forall i, j :: 0 <= i < j < |notes| ==> notes[i].time <= notes[j].time
    ensures Sorted(TimesOf(notes, key))
    ensures forall i :: 0 <= i < |TimesOf(notes, key)| ==> |notes| > 0 && TimesOf(notes, key)[i] <= notes[|notes| - 1].time
  {
    if |notes| > 0 { TimesOrdered(notes[..|notes| - 1], key); }
  }

  lemma TimesAfter(notes: seq<Note>, n: Note, key: string)
    ensures TimesOf(notes + [n], key) == TimesOf(notes, key) + if n.key == key then [n.time] else []
  {
    assert (notes + [n])[..|notes|] == notes;
  }

  ghost predicate InOrder(notes: seq<Note>, clock: int) {
    && (forall i, j :: 0 <= i < j < |notes| ==> notes[i].time <= notes[j].time)
    && (|notes| > 0 ==> notes[|notes| - 1].time <= clock)
  }

  ghost predicate Tracks(notes: seq<Note>, log: map<string, seq<int>>, key: string, limit: int) {
    KeepsFrom(TimesOf(notes, key), if key in log then log[key] else [], limit)
  }

  method Trim(times: seq<int>, cutoff: int) returns (kept: seq<int>)
    ensures kept == times[LeadingBefore(times, cutoff)..]
  {
    var i := 0;
    while i < |times| && times[i] < cutoff
      invariant 0 <= i <= |times| && LeadingBefore(times, cutoff) == i + LeadingBefore(times[i..], cutoff)
    {
      assert times[i..][1..] == times[i + 1..];
      i := i + 1;
    }
    return times[i..];
  }

  ghost predicate AllTracked(notes: seq<Note>, log: map<string, seq<int>>, evicted: set<string>, limit: int) {
    forall key :: key !in evicted ==> Tracks(notes, log, key, limit)
  }

  lemma TrimTracks(notes: seq<Note>, log: map<string, seq<int>>, key: string, limit: int, cutoff: int)
    requires Tracks(notes, log, key, limit) && limit <= cutoff && key in log
    ensures Tracks(notes, log[key := log[key][LeadingBefore(log[key], cutoff)..]], key, cutoff)
  {
    DropKeeps(TimesOf(notes, key), log[key], limit, cutoff, LeadingBefore(log[key], cutoff));
  }

  lemma Later(notes: seq<Note>, log: map<string, seq<int>>, log': map<string, seq<int>>, key: string,
              limit: int, cutoff: int)
    requires Tracks(notes, log, key, limit) && limit <= cutoff
    requires (if key in log then log[key] else []) == if key in log' then log'[key] else []
    ensures Tracks(notes, log', key, cutoff)
  {
  }

  lemma EvictTracks(notes: seq<Note>, log: map<string, seq<int>>, evicted: set<string>, limit: int, dropped: string)
    requires AllTracked(notes, log, evicted, limit)
    ensures AllTracked(notes, log - {dropped}, evicted + {dropped}, limit)
  {
    forall k | k !in evicted + {dropped} ensures Tracks(notes, log - {dropped}, k, limit) {
      Later(notes, log, log - {dropped}, k, limit, limit);
    }
  }

  lemma NewKeyTracks(notes: seq<Note>, log: map<string, seq<int>>, evicted: set<string>, limit: int, key: string)
    requires AllTracked(notes, log, evicted, limit) && key !in log
    ensures AllTracked(notes, log[key := []], evicted, limit)
  {
    forall k | k !in evicted ensures Tracks(notes, log[key := []], k, limit) {
      Later(notes, log, log[key := []], k, limit, limit);
    }
  }

  lemma NoteTracks(notes: seq<Note>, log: map<string, seq<int>>, evicted: set<string>, limit: int,
                   key: string, time: int, cutoff: int)
    requires AllTracked(notes, log, evicted, limit) && key in log && limit <= cutoff
    ensures var times := log[key] + [time];
            AllTracked(notes + [Note(key, time)], log[key := times[LeadingBefore(times, cutoff)..]], evicted, cutoff)
  {
    var times := log[key] + [time];
    var noted, trimmed := notes + [Note(key, time)], log[key := times[LeadingBefore(times, cutoff)..]];
    forall k | k !in evicted ensures Tracks(noted, trimmed, k, cutoff) {
      TimesAfter(notes, Note(key, time), k);
      assert Tracks(notes, log, k, limit);
      if k == key {
        AppendKeeps(TimesOf(notes, k), log[k], limit, time);
        DropKeeps(TimesOf(noted, k), times, limit, cutoff, LeadingBefore(times, cutoff));
      } else {
        assert Tracks(noted, log, k, limit);
        Later(noted, log, trimmed, k, limit, cutoff);
      }
    }
  }

  /** Reading trims one key, and drops it once nothing is left. */
  lemma ReadTracks(notes: seq<Note>, log: map<string, seq<int>>, evicted: set<string>, limit: int,
                   key: string, cutoff: int)
    requires AllTracked(notes, log, evicted, limit) && key in log && limit <= cutoff
    ensures var kept := log[key][LeadingBefore(log[key], cutoff)..];
            && AllTracked(notes, log[key := kept], evicted, cutoff)
            && (kept == [] ==> AllTracked(notes, log - {key}, evicted, cutoff))
  {
    var kept := log[key][LeadingBefore(log[key], cutoff)..];
    forall k | k !in evicted
      ensures Tracks(notes, log[key := kept], k, cutoff)
      ensures kept == [] ==> Tracks(notes, log - {key}, k, cutoff)
    {
      assert Tracks(notes, log, k, limit);
      if k == key {
        TrimTracks(notes, log, key, limit, cutoff);
        if kept == [] { Later(notes, log[key := kept], log - {key}, k, cutoff, cutoff); }
      } else {
        Later(notes, log, log[key := kept], k, limit, cutoff);
        Later(notes, log, log - {key}, k, limit, cutoff);
      }
    }
  }

  lemma ReadCounts(notes: seq<Note>, log: map<string, seq<int>>, key: string, limit: int, cutoff: int, clock: int)
    requires Tracks(notes, log, key, limit) && limit <= cutoff && InOrder(notes, clock)
    ensures CountFrom(TimesOf(notes, key), cutoff)
            == if key in log then |log[key][LeadingBefore(log[key], cutoff)..]| else 0
  {
    hide TimesOf, KeepsFrom, CountFrom;
    TimesOrdered(notes, key);
    CutCountsAll(TimesOf(notes, key), if key in log then log[key] else [], limit, cutoff);
  }

  lemma DropListed(log: map<string, seq<int>>, order: seq<string>)
    requires Listed(log.Keys, order) && |log| > 0
    ensures |order| > 0 && Listed((log - {order[0]}).Keys, order[1..])
  {
    ListedCount(log.Keys, order);
    DropFirst(log.Keys, order);
    hide Listed;
    assert (log - {order[0]}).Keys == log.Keys - {order[0]};
  }

  lemma AddListed(log: map<string, seq<int>>, order: seq<string>, key: string, times: seq<int>)
    requires Listed(log.Keys, order)
    ensures Listed(log[key := times].Keys, if key in log then order else order + [key])
  {
    AddLast(log.Keys, order, key);
    hide Listed;
    assert log[key := times].Keys == log.Keys + {key};
  }

  /** What a new key drops: at the cap, the key inserted first. */
  ghost function Overflow(log: map<string, seq<int>>, order: seq<string>, key: string): set<string> {
    if |log| >= MAX_KEYS && key !in log && |order| > 0 then {order[0]} else {}
  }

  /** One of the two maps of the tracker. `order` is the insertion order of its keys. */
  class WindowLog {
    var log: map<string, seq<int>>
    var order: seq<string>
    ghost var notes: seq<Note>          // everything ever noted
    ghost var evicted: set<string>      // keys ever dropped at the key cap
    ghost var clock: int

    ghost predicate Valid()
      reads this
    {
      && InOrder(notes, clock)
      && AllTracked(notes, log, evicted, clock - WINDOW_MS)
      && Listed(log.Keys, order)
    }

    constructor ()
      ensures Valid() && notes == [] && evicted == {} && clock == 0
    {
      log, order, notes, evicted, clock := map[], [], [], {}, 0;
    }

    /** Makes room for a new key at the cap by dropping the oldest one. */
    method EnsureKey(key: string)
      requires Valid()
      modifies this`log, this`order, this`evicted
      ensures Valid() && key in log
      ensures evicted == old(evicted) + Overflow(old(log), old(order), key)
    {
      hide InOrder, Tracks, TimesOf, KeepsFrom, AllTracked, Listed, Unique;
      if key !in log {
        if |log| >= MAX_KEYS {
          DropListed(log, order);
          EvictTracks(notes, log, evicted, clock - WINDOW_MS, order[0]);
          evicted := evicted + {order[0]};
          log := log - {order[0]};
          order := order[1..];
        }
        NewKeyTracks(notes, log, evicted, clock - WINDOW_MS, key);
        AddListed(log, order, key, []);
        log := log[key := []];
        order := order + [key];
      }
    }

    method NoteSell(key: string, time: int)
      requires Valid() && time >= clock
      modifies this
      ensures Valid() && notes == old(notes) + [Note(key, time)] && clock == time
      ensures evicted == old(evicted) + Overflow(old(log), old(order), key)
    {
      hide Tracks, TimesOf, KeepsFrom, AllTracked, Listed, Unique, LeadingBefore, Overflow;
      EnsureKey(key);
      NoteTracks(notes, log, evicted, clock - WINDOW_MS, key, time, time - WINDOW_MS);
      ghost var before := log;
      log := log[key := log[key] + [time]];
      var kept := Trim(log[key], time - WINDOW_MS);
      AddListed(before, order, key, kept);
      log := log[key := kept];
      assert log == before[key := kept];
      notes := notes + [Note(key, time)];
      clock := time;
    }

    /** The number of notes of the key in the window, over everything ever noted, unless the
        key was dropped at the cap. */
    method RecentCount(key: string, now: int) returns (count: nat)
      requires Valid() && now >= clock
      modifies this
      ensures Valid() && notes == old(notes) && evicted == old(evicted) && clock == now
      ensures key !in evicted ==> count == CountFrom(TimesOf(notes, key), now - WINDOW_MS)
    {
      hide TimesOf, KeepsFrom, Listed;
      ghost var limit := clock - WINDOW_MS;
      var cutoff := now - WINDOW_MS;
      if key !in evicted { ReadCounts(notes, log, key, limit, cutoff, clock); }
      clock := now;
      if key !in log {
        forall k | k !in evicted ensures Tracks(notes, log, k, cutoff) { Later(notes, log, log, k, limit, cutoff); }
        return 0;
      }
      ReadTracks(notes, log, evicted, limit, key, cutoff);
      var kept := Trim(log[key], cutoff);
      if |kept| == 0 {
        DropOne(log.Keys, order, key);
        assert (log - {key}).Keys == log.Keys - {key};
        log := log - {key};
        order := Without(order, key);
        return 0;
      }
      AddListed(log, order, key, kept);
      log := log[key := kept];
      return |kept|;
    }
  }

  function Key(seller: string, collection: string): string { seller + "|" + collection }

  function FirstBar(s: string): nat {
    if |s| == 0 || s[0] == '|' then 0 else 1 + FirstBar(s[1..])
  }

  lemma {:induction false} BarAfterSeller(seller: string, collection: string)
    requires '|' !in seller
    ensures FirstBar(Key(seller, collection)) == |seller|
  {
    if |seller| > 0 {
      assert Key(seller, collection)[1..] == Key(seller[1..], collection);
      BarAfterSeller(seller[1..], collection);
    }
  }

  /** Distinct pairs have distinct keys when no seller contains the separator. */
  lemma KeyInjective(s: string, c: string, s': string, c': string)
    requires '|' !in s && '|' !in s' && Key(s, c) == Key(s', c')
    ensures s == s' && c == c'
  {
    BarAfterSeller(s, c);
    BarAfterSeller(s', c');
    var k := Key(s, c);
    assert s == k[..|s|] && s' == k[..|s'|] && c == k[|s| + 1..] && c' == k[|s'| + 1..];
  }

  class RecentSellTracker {
    const byPair: WindowLog
    const bySeller: WindowLog

    ghost predicate Valid()
      reads byPair, bySeller
    {
      byPair != bySeller && byPair.Valid() && bySeller.Valid()
    }

    constructor ()
      ensures Valid() && fresh(byPair) && fresh(bySeller)
      ensures byPair.notes == [] && bySeller.notes == [] && byPair.evicted == {} && bySeller.evicted == {}
    {
      byPair := new WindowLog();
      bySeller := new WindowLog();
    }

    method NoteRecentSell(seller: string, collection: string, time: int)
      requires Valid() && time >= byPair.clock && time >= bySeller.clock
      modifies byPair, bySeller
      ensures Valid()
      ensures if seller == "" || collection == "" then
                byPair.notes == old(byPair.notes) && bySeller.notes == old(bySeller.notes)
              else
                && byPair.notes == old(byPair.notes) + [Note(Key(seller, collection), time)]
                && bySeller.notes == old(bySeller.notes) + [Note(seller, time)]
    {
      hide WindowLog.Valid;
      if seller == "" || collection == "" { return; }
      byPair.NoteSell(Key(seller, collection), time);
      bySeller.NoteSell(seller, time);
    }

    method GetRecentSellCount(seller: string, collection: string, now: int) returns (count: nat)
      requires Valid() && now >= byPair.clock
      modifies byPair
      ensures Valid() && byPair.notes == old(byPair.notes)
      ensures seller != "" && collection != "" && Key(seller, collection) !in byPair.evicted ==>
                count == CountFrom(TimesOf(byPair.notes, Key(seller, collection)), now - WINDOW_MS)
    {
      if seller == "" || collection == "" { return 0; }
      count := byPair.RecentCount(Key(seller, collection), now);
    }

    method GetRecentSellerCountAny(seller: string, now: int) returns (count: nat)
      requires Valid() && now >= bySeller.clock
      modifies bySeller
      ensures Valid() && bySeller.notes == old(bySeller.notes)
      ensures seller != "" && seller !in bySeller.evicted ==>
                count == CountFrom(TimesOf(bySeller.notes, seller), now - WINDOW_MS)
    {
      if seller == "" { return 0; }
      count := bySeller.RecentCount(seller, now);
    }
  }
}
