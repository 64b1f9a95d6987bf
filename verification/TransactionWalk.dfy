/** The transaction walk that counts lookup tables (tools/magiceden-vl-mmm-accept.user.js).
    The byte list is consumed in place; reading past its end yields `undefined`, which the
    bit operations turn into zero. */
module TransactionWalk {
  import opened Options

  type Byte = b: int | 0 <= b < 256

  // ---- 32-bit operators of the source language ------------------------------------------

  const TWO_32: int := 0x1_0000_0000

  function ToInt32(n: int): int {
    var u := n % TWO_32;
    if u < TWO_32 / 2 then u else u - TWO_32
  }

  function Pow2(k: nat): nat {
    if k == 0 then 1 else 2 * Pow2(k - 1)
  }

  function OrBits(a: nat, b: nat): nat
    decreases a + b
  {
    if a == 0 then b else if b == 0 then a
    else (if a % 2 == 1 || b % 2 == 1 then 1 else 0) + 2 * OrBits(a / 2, b / 2)
  }

  function Or32(a: int, b: int): int { ToInt32(OrBits(a % TWO_32, b % TWO_32)) }

  /** The shift distance counts modulo 32. */
  function ShiftLeft32(a: int, distance: nat): int { ToInt32(a * Pow2(distance % 32)) }

  // ---- The byte list --------------------------------------------------------------------

  class ByteList {
    var data: seq<Byte>

    constructor (data: seq<Byte>)
      ensures this.data == data
    {
      this.data := data;
    }

    method Shift() returns (b: Option<Byte>)
      modifies this
      ensures |old(data)| == 0 ==> b.None? && data == []
      ensures |old(data)| > 0 ==> b == Some(old(data)[0]) && data == old(data)[1..]
    {
      if |data| == 0 { return None; }
      b := Some(data[0]);
      data := data[1..];
    }

    /** `splice(0, n)`: a negative count removes nothing, a large one everything. */
    method RemoveFirst(n: int)
      modifies this
      ensures data == Drop(old(data), n)
    {
      data := Drop(data, n);
    }
  }

  function Drop(s: seq<Byte>, n: int): seq<Byte> {
    if n <= 0 then s else if n >= |s| then [] else s[n..]
  }

  function BitsOf(b: Option<Byte>): int { if b.Some? then b.value else 0 }

  // ---- compact-u16 ----------------------------------------------------------------------

  function DecodeFrom(s: seq<Byte>, val: int, shift: nat): (int, seq<Byte>)
    decreases |s|
  {
    if |s| == 0 then (Or32(val, ShiftLeft32(0, shift)), [])
    else
      var v := Or32(val, ShiftLeft32(s[0] % 128, shift));
      if s[0] < 128 then (v, s[1..]) else DecodeFrom(s[1..], v, shift + 7)
  }

  method DecodeCompactU16(bytes: ByteList) returns (val: int)
    modifies bytes
    ensures (val, bytes.data) == DecodeFrom(old(bytes.data), 0, 0)
  {
    val := 0;
    var shift := 0;
    var more := true;
    while more
      invariant shift >= 0
      invariant DecodeFrom(old(bytes.data), 0, 0) ==
                if more then DecodeFrom(bytes.data, val, shift) else (val, bytes.data)
      decreases more, |bytes.data|
    {
      var b := bytes.Shift();
      val := Or32(val, ShiftLeft32(BitsOf(b) % 128, shift));
      if BitsOf(b) < 128 {
        more := false;
      } else {
        shift := shift + 7;
      }
    }
  }

  // ---- The walk -------------------------------------------------------------------------

  function SkipInstruction(s: seq<Byte>): seq<Byte> {
    var (accounts, s1) := DecodeFrom(Drop(s, 1), 0, 0);
    var (length, s2) := DecodeFrom(Drop(s1, accounts), 0, 0);
    Drop(s2, length)
  }

  function SkipInstructions(s: seq<Byte>, n: int): seq<Byte>
    decreases if n > 0 then n else 0
  {
    if n <= 0 then s else SkipInstructions(SkipInstruction(s), n - 1)
  }

  function AltCount(s: seq<Byte>): int {
    var (signatures, s1) := DecodeFrom(s, 0, 0);
    var s2 := Drop(s1, signatures * 64);
    if |s2| == 0 || s2[0] < 128 then -1
    else
      var (keys, s3) := DecodeFrom(Drop(s2[1..], 3), 0, 0);
      var s4 := Drop(Drop(s3, keys * 32), 32);
      var (instructions, s5) := DecodeFrom(s4, 0, 0);
      DecodeFrom(SkipInstructions(s5, instructions), 0, 0).0
  }

  method ConsumeInstruction(bytes: ByteList)
    modifies bytes
    ensures bytes.data == SkipInstruction(old(bytes.data))
  {
    var program := bytes.Shift();
    var nAccts := DecodeCompactU16(bytes);
    bytes.RemoveFirst(nAccts);
    var dLen := DecodeCompactU16(bytes);
    bytes.RemoveFirst(dLen);
  }

  method ParseALTCount(txData: seq<Byte>) returns (count: int)
    ensures count == AltCount(txData)
  {
    hide DecodeFrom, SkipInstruction;
    var bytes := new ByteList(txData);
    var numSigs := DecodeCompactU16(bytes);
    bytes.RemoveFirst(numSigs * 64);
    var version := bytes.Shift();
    if BitsOf(version) < 128 { return -1; }
    bytes.RemoveFirst(3);
    var numKeys := DecodeCompactU16(bytes);
    bytes.RemoveFirst(numKeys * 32);
    bytes.RemoveFirst(32);
    var numIxs := DecodeCompactU16(bytes);
    ghost var body := bytes.data;
    var i := 0;
    while i < numIxs
      invariant SkipInstructions(body, numIxs) == SkipInstructions(bytes.data, numIxs - i)
      invariant i <= numIxs || i == 0
      invariant fresh(bytes)
    {
      ConsumeInstruction(bytes);
      i := i + 1;
    }
    count := DecodeCompactU16(bytes);
  }

  // ---- Serialisation, and the walk undoing it -------------------------------------------

  predicate FitsU16(n: int) { 0 <= n < 65536 }

  function CompactU16(n: int): (s: seq<Byte>)
    requires FitsU16(n)
  {
    if n < 128 then [n]
    else if n < 16384 then [n % 128 + 128, n / 128]
    else [n % 128 + 128, n / 128 % 128 + 128, n / 16384]
  }

  datatype Instruction = Instruction(program: Byte, accounts: seq<Byte>, data: seq<Byte>)

  datatype LookupTable = LookupTable(key: seq<Byte>, writable: seq<Byte>, readonly: seq<Byte>)

  /** A transaction with its signatures; `header` is the three counts of the message. */
  datatype Transaction =
    | V0(signatures: seq<seq<Byte>>, header: seq<Byte>, keys: seq<seq<Byte>>, blockhash: seq<Byte>,
         instructions: seq<Instruction>, tables: seq<LookupTable>)
    | Legacy(signatures: seq<seq<Byte>>, header: seq<Byte>, keys: seq<seq<Byte>>, blockhash: seq<Byte>,
             instructions: seq<Instruction>)

  ghost predicate AllOfLength(items: seq<seq<Byte>>, n: nat) {
    forall i :: 0 <= i < |items| ==> |items[i]| == n
  }

  ghost predicate WellFormed(tx: Transaction) {
    && FitsU16(|tx.signatures|) && AllOfLength(tx.signatures, 64)
    && |tx.header| == 3 && (tx.Legacy? ==> tx.header[0] < 128)
    && FitsU16(|tx.keys|) && AllOfLength(tx.keys, 32) && |tx.blockhash| == 32
    && FitsU16(|tx.instructions|)
    && (forall i :: 0 <= i < |tx.instructions| ==>
          FitsU16(|tx.instructions[i].accounts|) && FitsU16(|tx.instructions[i].data|))
    && (tx.V0? ==> FitsU16(|tx.tables|) && forall i :: 0 <= i < |tx.tables| ==>
          |tx.tables[i].key| == 32 && FitsU16(|tx.tables[i].writable|) && FitsU16(|tx.tables[i].readonly|))
  }

  ghost function Flatten(items: seq<seq<Byte>>): seq<Byte> {
    if |items| == 0 then [] else items[0] + Flatten(items[1..])
  }

  ghost function SerializeInstruction(ix: Instruction): seq<Byte>
    requires FitsU16(|ix.accounts|) && FitsU16(|ix.data|)
  {
    [ix.program] + CompactU16(|ix.accounts|) + ix.accounts + CompactU16(|ix.data|) + ix.data
  }

  ghost function SerializeInstructions(ixs: seq<Instruction>): seq<Byte>
    requires forall i :: 0 <= i < |ixs| ==> FitsU16(|ixs[i].accounts|) && FitsU16(|ixs[i].data|)
  {
    if |ixs| == 0 then [] else SerializeInstruction(ixs[0]) + SerializeInstructions(ixs[1..])
  }

  ghost function SerializeTables(tables: seq<LookupTable>): seq<Byte>
    requires forall i :: 0 <= i < |tables| ==> FitsU16(|tables[i].writable|) && FitsU16(|tables[i].readonly|)
  {
    if |tables| == 0 then []
    else
      var t := tables[0];
      t.key + CompactU16(|t.writable|) + t.writable + CompactU16(|t.readonly|) + t.readonly
      + SerializeTables(tables[1..])
  }

  ghost function Body(tx: Transaction): seq<Byte>
    requires WellFormed(tx)
  {
    tx.header + CompactU16(|tx.keys|) + Flatten(tx.keys) + tx.blockhash
    + CompactU16(|tx.instructions|) + SerializeInstructions(tx.instructions)
  }

  ghost function Serialize(tx: Transaction): seq<Byte>
    requires WellFormed(tx)
  {
    CompactU16(|tx.signatures|) + Flatten(tx.signatures)
    + match tx
      case V0(_, _, _, _, _, tables) => [128] + Body(tx) + CompactU16(|tables|) + SerializeTables(tables)
      case Legacy(_, _, _, _, _) => Body(tx)
  }

  // ---- Bits ----------------------------------------------------------------------------

  /** Disjoint bits add up. */
  lemma {:induction false} OrAdds(a: nat, c: nat, k: nat)
    requires a < Pow2(k)
    ensures OrBits(a, c * Pow2(k)) == a + c * Pow2(k)
  {
    if k > 0 && a > 0 && c > 0 {
      var high := c * Pow2(k - 1);
      assert c * Pow2(k) == 2 * high;
      OrAdds(a / 2, c, k - 1);
    }
  }

  lemma SmallInt32(n: nat)
    requires n < TWO_32 / 2
    ensures n % TWO_32 == n && ToInt32(n) == n
  {
  }

  lemma PowersOf2()
    ensures Pow2(0) == 1 && Pow2(7) == 128 && Pow2(14) == 16384
  {
    assert Pow2(4) == 16 && Pow2(7) == 8 * Pow2(4);
    assert Pow2(10) == 8 * Pow2(7) && Pow2(14) == 16 * Pow2(10);
  }

  /** Adding the seven bits of the next byte, once or twice. */
  lemma NextGroup(val: nat, low: nat, k: nat)
    requires (k == 0 || k == 7 || k == 14) && val < Pow2(k) && low < 128
    ensures Or32(val, ShiftLeft32(low, k)) == val + low * Pow2(k)
  {
    PowersOf2();
    OrAdds(val, low, k);
    hide Pow2, OrBits;
    var shifted := low * Pow2(k);
    assert k % 32 == k;
    assert shifted <= 127 * Pow2(k) && val + shifted < 128 * Pow2(k);
    ShiftSmall(low, k, shifted);
    OrSmall(val, shifted);
  }

  lemma ShiftSmall(low: nat, k: nat, shifted: nat)
    requires k % 32 == k && shifted == low * Pow2(k) && shifted < TWO_32 / 2
    ensures ShiftLeft32(low, k) == shifted
  {
    hide Pow2;
    SmallInt32(shifted);
  }

  lemma OrSmall(val: nat, shifted: nat)
    requires val + shifted < TWO_32 / 2 && OrBits(val, shifted) == val + shifted
    ensures Or32(val, shifted) == val + shifted
  {
    hide OrBits;
    SmallInt32(val);
    SmallInt32(shifted);
    SmallInt32(val + shifted);
  }

  lemma OneByte(n: Byte, rest: seq<Byte>, val: nat, k: nat)
    requires (k == 0 || k == 7 || k == 14) && val < Pow2(k)
    ensures DecodeFrom([n] + rest, val, k) ==
            if n < 128 then (val + n * Pow2(k), rest) else DecodeFrom(rest, val + (n - 128) * Pow2(k), k + 7)
  {
    hide DecodeFrom, Or32, ShiftLeft32, Pow2;
    NextGroup(val, n % 128, k);
    FirstByte(n, rest, val, k);
  }

  /** The first byte of the list gives one group of bits, and the next one if its top bit is set. */
  lemma FirstByte(n: Byte, rest: seq<Byte>, val: int, k: nat)
    ensures var v := Or32(val, ShiftLeft32(n % 128, k));
            DecodeFrom([n] + rest, val, k) == if n < 128 then (v, rest) else DecodeFrom(rest, v, k + 7)
  {
    hide Or32, ShiftLeft32;
    assert ([n] + rest)[1..] == rest;
  }

  /** Decoding undoes encoding and leaves what follows. */
  lemma DecodeUndoesEncode(n: int, rest: seq<Byte>)
    requires FitsU16(n)
    ensures DecodeFrom(CompactU16(n) + rest, 0, 0) == (n, rest)
  {
    hide DecodeFrom;
    PowersOf2();
    if n < 128 {
      OneByte(n, rest, 0, 0);
    } else if n < 16384 {
      assert CompactU16(n) + rest == [n % 128 + 128] + ([n / 128] + rest);
      OneByte(n % 128 + 128, [n / 128] + rest, 0, 0);
      OneByte(n / 128, rest, n % 128, 7);
    } else {
      var a, b, c := n % 128, n / 128 % 128, n / 16384;
      assert CompactU16(n) + rest == [a + 128] + ([b + 128] + ([c] + rest));
      OneByte(a + 128, [b + 128] + ([c] + rest), 0, 0);
      OneByte(b + 128, [c] + rest, a, 7);
      OneByte(c, rest, a + b * 128, 14);
      assert n == a + b * 128 + c * 16384;
    }
  }

  // ---- The walk undoes serialisation ----------------------------------------------------

  lemma {:induction false} FlattenLength(items: seq<seq<Byte>>, n: nat)
    requires AllOfLength(items, n)
    ensures |Flatten(items)| == |items| * n
  {
    if |items| > 0 {
      FlattenLength(items[1..], n);
      assert |items| * n == n + (|items| - 1) * n;
    }
  }

  lemma DropPrefix(a: seq<Byte>, rest: seq<Byte>)
    ensures Drop(a + rest, |a|) == rest
  {
  }

  lemma SkipsOne(ix: Instruction, rest: seq<Byte>)
    requires FitsU16(|ix.accounts|) && FitsU16(|ix.data|)
    ensures SkipInstruction(SerializeInstruction(ix) + rest) == rest
  {
    var afterData := ix.data + rest;
    var afterAccounts := CompactU16(|ix.data|) + afterData;
    var accounts := ix.accounts + afterAccounts;
    assert SerializeInstruction(ix) + rest == [ix.program] + (CompactU16(|ix.accounts|) + accounts);
    DropPrefix([ix.program], CompactU16(|ix.accounts|) + accounts);
    DecodeUndoesEncode(|ix.accounts|, accounts);
    DropPrefix(ix.accounts, afterAccounts);
    DecodeUndoesEncode(|ix.data|, afterData);
    DropPrefix(ix.data, rest);
  }

  lemma {:induction false} SkipsAll(ixs: seq<Instruction>, rest: seq<Byte>)
    requires forall i :: 0 <= i < |ixs| ==> FitsU16(|ixs[i].accounts|) && FitsU16(|ixs[i].data|)
    ensures SkipInstructions(SerializeInstructions(ixs) + rest, |ixs|) == rest
    decreases |ixs|
  {
    if |ixs| > 0 {
      var later := SerializeInstructions(ixs[1..]) + rest;
      assert SerializeInstructions(ixs) + rest == SerializeInstruction(ixs[0]) + later;
      SkipsOne(ixs[0], later);
      SkipsAll(ixs[1..], rest);
    } else {
      assert SerializeInstructions(ixs) + rest == rest;
    }
  }

  /** From the message header to the table count. */
  lemma WalksBody(tx: Transaction, rest: seq<Byte>)
    requires WellFormed(tx)
    ensures var (keys, s3) := DecodeFrom(Drop(Body(tx) + rest, 3), 0, 0);
            var (instructions, s5) := DecodeFrom(Drop(Drop(s3, keys * 32), 32), 0, 0);
            SkipInstructions(s5, instructions) == rest
  {
    hide DecodeFrom, SkipInstructions, SerializeInstructions, Flatten;
    var s5 := SerializeInstructions(tx.instructions) + rest;
    var s4 := CompactU16(|tx.instructions|) + s5;
    var s3 := Flatten(tx.keys) + (tx.blockhash + s4);
    assert Body(tx) + rest == tx.header + (CompactU16(|tx.keys|) + s3);
    DropPrefix(tx.header, CompactU16(|tx.keys|) + s3);
    DecodeUndoesEncode(|tx.keys|, s3);
    FlattenLength(tx.keys, 32);
    DropPrefix(Flatten(tx.keys), tx.blockhash + s4);
    DropPrefix(tx.blockhash, s4);
    DecodeUndoesEncode(|tx.instructions|, s5);
    SkipsAll(tx.instructions, rest);
  }

  /** The walk over a serialised transaction yields its number of lookup tables, and -1 for
      a legacy transaction, whatever the numbers and lengths of its parts. */
  lemma CountsTables(tx: Transaction)
    requires WellFormed(tx)
    ensures AltCount(Serialize(tx)) == if tx.V0? then |tx.tables| else -1
  {
    match tx
    case V0(signatures, _, _, _, _, tables) =>
      var tail := CompactU16(|tables|) + SerializeTables(tables);
      var message := [128] + (Body(tx) + tail);
      assert Serialize(tx) == CompactU16(|signatures|) + (Flatten(signatures) + message);
      hide DecodeFrom, SkipInstructions, Serialize, SerializeTables, Body, Flatten, CompactU16;
      StripsSignatures(signatures, message);
      assert message[1..] == Body(tx) + tail;
      WalksBody(tx, tail);
      DecodeUndoesEncode(|tables|, SerializeTables(tables));
    case Legacy(signatures, header, _, _, _) =>
      var message := Body(tx);
      assert Serialize(tx) == CompactU16(|signatures|) + (Flatten(signatures) + message);
      assert message[0] == header[0];
      hide DecodeFrom, SkipInstructions, Serialize, Body, Flatten, CompactU16;
      StripsSignatures(signatures, message);
  }

  lemma StripsSignatures(signatures: seq<seq<Byte>>, message: seq<Byte>)
    requires FitsU16(|signatures|) && AllOfLength(signatures, 64)
    ensures var (n, s1) := DecodeFrom(CompactU16(|signatures|) + (Flatten(signatures) + message), 0, 0);
            Drop(s1, n * 64) == message
  {
    hide DecodeFrom, Flatten, CompactU16;
    DecodeUndoesEncode(|signatures|, Flatten(signatures) + message);
    FlattenLength(signatures, 64);
    DropPrefix(Flatten(signatures), message);
  }
}
