/** The decoder of a LaunchMyNFT collection account (src/enrichment/lmnft-state.ts). Every
    read carries the precondition that it stays inside the buffer. Public keys are their 32
    raw bytes. */
module LmnftState {
  import opened Options

  type Byte = b: int | 0 <= b < 256

  const MIN_DATA_LEN: nat := 267
  const OFF_OWNER: nat := 49
  const OFF_STRINGS_START: nat := 81
  const GAP_AFTER_PUBKEY2: nat := 7
  const GAP_AFTER_MINTED: nat := 1
  const MAX_STRING: nat := 4096

  datatype State = State(owner: seq<Byte>, maxSupply: Option<nat>, mintedCount: Option<nat>,
                         collectionMint: seq<Byte>)

  function ReadPubkey(data: seq<Byte>, off: nat): seq<Byte>
    requires off + 32 <= |data|
  {
    data[off..off + 32]
  }

  function ReadUInt32LE(data: seq<Byte>, off: nat): nat
    requires off + 4 <= |data|
  {
    data[off] as int + 256 * data[off + 1] as int + 65536 * data[off + 2] as int + 16777216 * data[off + 3] as int
  }

  function SkipBorshString(data: seq<Byte>, off: nat): (next: Option<nat>)
    ensures next.Some? ==> off + 4 <= next.value <= |data|
  {
    if off + 4 > |data| then None
    else
      var len := ReadUInt32LE(data, off);
      if len > MAX_STRING || off + 4 + len > |data| then None else Some(off + 4 + len)
  }

  function SkipStrings(data: seq<Byte>, off: nat, n: nat): (next: Option<nat>)
    ensures next.Some? ==> off <= next.value
    decreases n
  {
    if n == 0 then Some(off)
    else
      match SkipBorshString(data, off)
      case None => None
      case Some(next) => SkipStrings(data, next, n - 1)
  }

  function StateFrom(owner: seq<Byte>, maxSupplyRaw: nat, mintedRaw: nat, collectionMint: seq<Byte>): State {
    var maxSupply := if maxSupplyRaw > 0 then Some(maxSupplyRaw) else None;
    State(owner, maxSupply,
          if mintedRaw > 0 && (maxSupply.None? || mintedRaw <= maxSupply.value) then Some(mintedRaw) else None,
          collectionMint)
  }

  function Decoded(data: seq<Byte>): Option<State> {
    if |data| < MIN_DATA_LEN then None
    else
      match SkipStrings(data, OFF_STRINGS_START + 1, 3)
      case None => None
      case Some(next) =>
        var off := next + 32 + GAP_AFTER_PUBKEY2;
        if off + 4 + 4 + GAP_AFTER_MINTED + 32 > |data| then None
        else Some(StateFrom(ReadPubkey(data, OFF_OWNER), ReadUInt32LE(data, off), ReadUInt32LE(data, off + 4),
                            ReadPubkey(data, off + 4 + 4 + GAP_AFTER_MINTED)))
  }

  method DecodeState(data: seq<Byte>) returns (state: Option<State>)
    ensures state == Decoded(data)
  {
    if |data| < MIN_DATA_LEN { return None; }
    var owner := ReadPubkey(data, OFF_OWNER);
    var off: nat := OFF_STRINGS_START + 1;
    for i := 0 to 3
      invariant SkipStrings(data, OFF_STRINGS_START + 1, 3) == SkipStrings(data, off, 3 - i)
    {
      var next := SkipBorshString(data, off);
      if next.None? { return None; }
      off := next.value;
    }
    off := off + 32;
    off := off + GAP_AFTER_PUBKEY2;
    if off + 4 + 4 + GAP_AFTER_MINTED + 32 > |data| { return None; }
    var maxSupplyRaw := ReadUInt32LE(data, off);
    var mintedRaw := ReadUInt32LE(data, off + 4);
    var collectionMint := ReadPubkey(data, off + 4 + 4 + GAP_AFTER_MINTED);
    var maxSupply := if maxSupplyRaw > 0 then Some(maxSupplyRaw) else None;
    var mintedCount := if mintedRaw > 0 && (maxSupply.None? || mintedRaw <= maxSupply.value)
                       then Some(mintedRaw) else None;
    return Some(State(owner, maxSupply, mintedCount, collectionMint));
  }

  // ---- The layout -----------------------------------------------------------------------

  datatype Account = Account(prefix: seq<Byte>, owner: seq<Byte>, flag: Byte, symbol: seq<Byte>, uri: seq<Byte>,
                             name: seq<Byte>, creator: seq<Byte>, misc: seq<Byte>, maxSupply: nat, minted: nat,
                             gap: Byte, collectionMint: seq<Byte>, remainder: seq<Byte>)

  function UInt32LE(n: nat): (s: seq<Byte>)
    requires n < 0x1_0000_0000
    ensures |s| == 4
  {
    [n % 256, n / 256 % 256, n / 256 / 256 % 256, n / 256 / 256 / 256]
  }

  function BorshString(s: seq<Byte>): seq<Byte>
    requires |s| <= MAX_STRING
  {
    UInt32LE(|s|) + s
  }

  predicate WellFormed(a: Account) {
    && |a.prefix| == OFF_OWNER && |a.owner| == 32 && |a.creator| == 32 && |a.misc| == GAP_AFTER_PUBKEY2
    && |a.symbol| <= MAX_STRING && |a.uri| <= MAX_STRING && |a.name| <= MAX_STRING
    && a.maxSupply < 0x1_0000_0000 && a.minted < 0x1_0000_0000 && |a.collectionMint| == 32
  }

  function Tail(a: Account): seq<Byte>
    requires WellFormed(a)
  {
    a.creator + a.misc + UInt32LE(a.maxSupply) + UInt32LE(a.minted) + [a.gap] + a.collectionMint + a.remainder
  }

  function Encode(a: Account): seq<Byte>
    requires WellFormed(a)
  {
    a.prefix + a.owner + [a.flag] + BorshString(a.symbol) + BorshString(a.uri) + BorshString(a.name) + Tail(a)
  }

  /** A supply of zero is no limit, and a count is shown when it is positive and within it. */
  ghost predicate Describes(s: State, a: Account) {
    && s.owner == a.owner && s.collectionMint == a.collectionMint
    && (a.maxSupply == 0 ==> s.maxSupply.None?) && (a.maxSupply > 0 ==> s.maxSupply == Some(a.maxSupply))
    && (s.mintedCount.Some? <==> a.minted > 0 && (a.maxSupply == 0 || a.minted <= a.maxSupply))
    && (s.mintedCount.Some? ==> s.mintedCount.value == a.minted)
  }

  lemma StateDescribes(a: Account)
    ensures Describes(StateOf(a), a)
  {
  }

  function StateOf(a: Account): State { StateFrom(a.owner, a.maxSupply, a.minted, a.collectionMint) }

  // ---- Decoding inverts the layout ------------------------------------------------------

  lemma ReadsWhatWasWritten(pre: seq<Byte>, n: nat, post: seq<Byte>)
    requires n < 0x1_0000_0000
    ensures ReadUInt32LE(pre + UInt32LE(n) + post, |pre|) == n
  {
    var s := pre + UInt32LE(n) + post;
    var q := n / 256;
    var r := q / 256;
    assert s[|pre|] == n % 256 && s[|pre| + 1] == q % 256;
    assert s[|pre| + 2] == r % 256 && s[|pre| + 3] == r / 256;
  }

  lemma WritesWhatWasRead(data: seq<Byte>, off: nat)
    requires off + 4 <= |data|
    ensures ReadUInt32LE(data, off) < 0x1_0000_0000
    ensures UInt32LE(ReadUInt32LE(data, off)) == data[off..off + 4]
  {
    var n := ReadUInt32LE(data, off);
    var a: int, b: int, c: int, d: int := data[off], data[off + 1], data[off + 2], data[off + 3];
    assert n % 256 == a && n / 256 == b + 256 * c + 65536 * d;
    assert n / 256 / 256 == c + 256 * d;
  }

  lemma SkipsString(pre: seq<Byte>, s: seq<Byte>, post: seq<Byte>)
    requires |s| <= MAX_STRING
    ensures SkipBorshString(pre + BorshString(s) + post, |pre|) == Some(|pre| + 4 + |s|)
  {
    assert pre + BorshString(s) + post == pre + UInt32LE(|s|) + (s + post);
    ReadsWhatWasWritten(pre, |s|, s + post);
  }

  lemma SkipsOneMore(data: seq<Byte>, pre: seq<Byte>, s: seq<Byte>, post: seq<Byte>, n: nat)
    requires |s| <= MAX_STRING && data == pre + BorshString(s) + post
    ensures SkipStrings(data, |pre|, n + 1) == SkipStrings(data, |pre + BorshString(s)|, n)
  {
    SkipsString(pre, s, post);
  }

  lemma SkipsThree(pre: seq<Byte>, a: seq<Byte>, b: seq<Byte>, c: seq<Byte>, post: seq<Byte>)
    requires |a| <= MAX_STRING && |b| <= MAX_STRING && |c| <= MAX_STRING
    ensures SkipStrings(pre + BorshString(a) + BorshString(b) + BorshString(c) + post, |pre|, 3)
            == Some(|pre + BorshString(a) + BorshString(b) + BorshString(c)|)
  {
    hide SkipBorshString, BorshString;
    var x, y, z := BorshString(a), BorshString(b), BorshString(c);
    var data := pre + x + y + z + post;
    assert data == pre + x + (y + z + post) && data == (pre + x) + y + (z + post);
    SkipsOneMore(data, pre, a, y + z + post, 2);
    SkipsOneMore(data, pre + x, b, z + post, 1);
    SkipsOneMore(data, pre + x + y, c, post, 0);
  }

  lemma ReadsTail(head: seq<Byte>, a: Account)
    requires WellFormed(a)
    ensures var data, off := head + Tail(a), |head| + 32 + GAP_AFTER_PUBKEY2;
            && off + 8 + GAP_AFTER_MINTED + 32 <= |data|
            && ReadUInt32LE(data, off) == a.maxSupply && ReadUInt32LE(data, off + 4) == a.minted
            && ReadPubkey(data, off + 8 + GAP_AFTER_MINTED) == a.collectionMint
  {
    var data := head + Tail(a);
    var h := head + a.creator + a.misc;
    var rest := [a.gap] + a.collectionMint + a.remainder;
    assert data == h + UInt32LE(a.maxSupply) + (UInt32LE(a.minted) + rest);
    ReadsWhatWasWritten(h, a.maxSupply, UInt32LE(a.minted) + rest);
    assert data == (h + UInt32LE(a.maxSupply)) + UInt32LE(a.minted) + rest;
    ReadsWhatWasWritten(h + UInt32LE(a.maxSupply), a.minted, rest);
  }

  /** Decoding an encoded account, at every string length. */
  lemma DecodeOfEncode(a: Account)
    requires WellFormed(a) && |Encode(a)| >= MIN_DATA_LEN
    ensures Decoded(Encode(a)).Some? && Describes(Decoded(Encode(a)).value, a)
    ensures Decoded(Encode(a)) == Some(StateOf(a))
  {
    hide ReadUInt32LE, SkipBorshString, SkipStrings, UInt32LE, StateFrom, Tail, BorshString;
    StateDescribes(a);
    hide Describes;
    var data := Encode(a);
    var pre := a.prefix + a.owner + [a.flag];
    assert data[OFF_OWNER..OFF_OWNER + 32] == a.owner;
    SkipsThree(pre, a.symbol, a.uri, a.name, Tail(a));
    ReadsTail(pre + BorshString(a.symbol) + BorshString(a.uri) + BorshString(a.name), a);
  }

  lemma SkippedString(data: seq<Byte>, off: nat) returns (s: seq<Byte>)
    requires SkipBorshString(data, off).Some?
    ensures |s| <= MAX_STRING && SkipBorshString(data, off).value == off + 4 + |s| <= |data|
    ensures data[off..off + 4 + |s|] == BorshString(s)
  {
    WritesWhatWasRead(data, off);
    var len := ReadUInt32LE(data, off);
    s := data[off + 4..off + 4 + len];
    assert data[off..off + 4 + len] == data[off..off + 4] + s;
  }

  lemma SkippedFirst(data: seq<Byte>, off: nat, n: nat) returns (s: seq<Byte>, next: nat)
    requires SkipStrings(data, off, n + 1).Some?
    ensures |s| <= MAX_STRING && off <= next <= |data| && data[off..next] == BorshString(s)
    ensures SkipStrings(data, next, n) == SkipStrings(data, off, n + 1)
    ensures n == 0 ==> SkipStrings(data, off, n + 1) == Some(next)
  {
    s := SkippedString(data, off);
    next := off + 4 + |s|;
  }

  /** Whatever the decoder accepts is an encoded account, and the state is that account's. */
  lemma AcceptsOnlyAccounts(data: seq<Byte>) returns (a: Account)
    requires Decoded(data).Some?
    ensures WellFormed(a) && Encode(a) == data && Describes(Decoded(data).value, a)
    ensures Decoded(data) == Some(StateOf(a))
  {
    hide ReadUInt32LE, SkipBorshString, SkipStrings, UInt32LE, BorshString, Encode, Tail, StateFrom;
    var start := OFF_STRINGS_START + 1;
    var symbol, o1 := SkippedFirst(data, start, 2);
    var uri, o2 := SkippedFirst(data, o1, 1);
    var name, o3 := SkippedFirst(data, o2, 0);
    var off := o3 + 32 + GAP_AFTER_PUBKEY2;
    WritesWhatWasRead(data, off);
    WritesWhatWasRead(data, off + 4);
    a := Account(data[..OFF_OWNER], data[OFF_OWNER..OFF_OWNER + 32], data[OFF_STRINGS_START], symbol, uri, name,
                 data[o3..o3 + 32], data[o3 + 32..off], ReadUInt32LE(data, off), ReadUInt32LE(data, off + 4),
                 data[off + 8], data[off + 9..off + 41], data[off + 41..]);
    Reassembles(data, a, o1, o2, o3, off);
    StateDescribes(a);
    hide Describes;
  }

  lemma Reassembles(data: seq<Byte>, a: Account, o1: nat, o2: nat, o3: nat, off: nat)
    requires WellFormed(a)
    requires 82 <= o1 <= o2 <= o3 && off == o3 + 32 + GAP_AFTER_PUBKEY2 && off + 41 <= |data|
    requires a.prefix == data[..49] && a.owner == data[49..81] && a.flag == data[81]
    requires BorshString(a.symbol) == data[82..o1] && BorshString(a.uri) == data[o1..o2] && BorshString(a.name) == data[o2..o3]
    requires a.creator == data[o3..o3 + 32] && a.misc == data[o3 + 32..off]
    requires UInt32LE(a.maxSupply) == data[off..off + 4] && UInt32LE(a.minted) == data[off + 4..off + 8]
    requires a.gap == data[off + 8] && a.collectionMint == data[off + 9..off + 41] && a.remainder == data[off + 41..]
    ensures Encode(a) == data
  {
    hide UInt32LE, BorshString;
    assert Tail(a) == data[o3..];
    assert a.prefix + a.owner + [a.flag] == data[..82];
    assert data[..82] + BorshString(a.symbol) + BorshString(a.uri) + BorshString(a.name) == data[..o3];
  }
}
