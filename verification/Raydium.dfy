/** src/raydium_parser.c: a cursor over instruction bytes. Most of its reads are unchecked: a key read
    that does not fit leaves the cursor put, and the parser goes on. */
module Raydium {
  import opened Common
  import opened LittleEndian

  /** read_u64: on success the value and the cursor behind it. */
  method ReadU64(data: seq<byte>, offset: nat) returns (value: Option<uint64>, offset': nat)
    ensures value == (if offset + 8 <= |data| then Some(Read64(data[offset..offset + 8])) else None)
    ensures offset' == if offset + 8 <= |data| then offset + 8 else offset
  {
    if offset + 8 > |data| {
      return None, offset;
    }
    return Some(Read64(data[offset..offset + 8])), offset + 8;
  }

  /** read_pubkey */
  method ReadPubkey(data: seq<byte>, offset: nat) returns (key: Option<pubkey>, offset': nat)
    ensures key == (if offset + 32 <= |data| then Some(data[offset..offset + 32]) else None)
    ensures offset' == AfterKey(|data|, offset)
  {
    if offset + 32 > |data| {
      return None, offset;
    }
    return Some(data[offset..offset + 32]), offset + 32;
  }

  function AfterKey(len: nat, offset: nat): nat {
    if offset + 32 <= len then offset + 32 else offset
  }

  /** The cursor after n key reads. */
  function AfterKeys(len: nat, offset: nat, n: nat): nat {
    if n == 0 then offset else AfterKey(len, AfterKeys(len, offset, n - 1))
  }

  /** Once a read fails the cursor never moves again; n reads all succeed exactly when n keys fit. */
  lemma {:induction false} CursorStops(len: nat, offset: nat, n: nat)
    ensures offset + 32 * n <= len ==> AfterKeys(len, offset, n) == offset + 32 * n
    ensures offset + 32 * n > len ==> AfterKeys(len, offset, n) + 32 > len
    ensures offset <= AfterKeys(len, offset, n) <= offset + 32 * n
  {
    if n > 0 { CursorStops(len, offset, n - 1); }
  }

  /** Where the keys behind the optional target start. */
  function TailStart(data: seq<byte>): nat
    requires 161 <= |data|
  {
    if data[160] != 0 then 193 else 161
  }

  /** The inputs that hold every field the parser returns. */
  predicate Accepted(data: seq<byte>) {
    577 <= |data| && TailStart(data) + 416 <= |data|
  }

  lemma AcceptedLengths(data: seq<byte>)
    ensures Accepted(data) <==> (|data| >= 577 && data[160] == 0) || (|data| >= 609 && data[160] != 0)
  {
  }

  /** yurei_raydium_swap_t, filled field by field: a rejected input leaves the fields read so far. */
  class SwapRecord {
    var amm: pubkey
    var owner: pubkey
    var amountIn: uint64
    var amountOut: uint64
    var slot: uint64

    constructor ()
    {
      var zero: pubkey := seq(32, _ => 0);
      amm, owner := zero, zero;
      amountIn, amountOut, slot := 0, 0, 0;
    }

    /** Lines 31-54: the amounts and the pool key. */
    method ParseHead(data: seq<byte>) returns (ok: bool, offset: nat)
      modifies `amountIn, `amountOut, `amm
      ensures ok <==> 96 <= |data|
      ensures amountIn == if 8 <= |data| then Read64(data[0..8]) else old(amountIn)
      ensures amountOut == if 32 <= |data| then Read64(data[24..32]) else old(amountOut)
      ensures amm == if 96 <= |data| then data[64..96] else old(amm)
      ensures ok ==> offset == AfterKey(|data|, AfterKey(|data|, 96))
    {
      offset := 0;
      var value: Option<uint64>;
      value, offset := ReadU64(data, offset);
      if value.None? { return false, offset; }
      amountIn := value.value;
      value, offset := ReadU64(data, offset);
      if value.None? { return false, offset; }
      value, offset := ReadU64(data, offset);
      if value.None? { return false, offset; }
      value, offset := ReadU64(data, offset);
      if value.None? { return false, offset; }
      amountOut := value.value;

      var tokenProgram, pool, authority, openOrders: Option<pubkey>;
      tokenProgram, offset := ReadPubkey(data, offset);
      pool, offset := ReadPubkey(data, offset);
      if pool.None? { return false, offset; }
      amm := pool.value;
      authority, offset := ReadPubkey(data, offset);
      openOrders, offset := ReadPubkey(data, offset);
      return true, offset;
    }

    /** Lines 64-91: twelve keys that are skipped and the owner. */
    method ParseTail(data: seq<byte>, start: nat) returns (ok: bool)
      modifies `owner
      ensures ok <==> start + 416 <= |data|
      ensures owner == if ok then data[start + 384..start + 416] else old(owner)
    {
      var offset := start;
      var poolCoin, poolPc, serumProgram, serumMarket, serumBids, serumAsks: Option<pubkey>;
      var serumEventQueue, serumCoinVault, serumPcVault, serumSigner: Option<pubkey>;
      var userSource, userDestination, userOwner: Option<pubkey>;
      poolCoin, offset := ReadPubkey(data, offset);
      assert offset == AfterKeys(|data|, start, 1);
      poolPc, offset := ReadPubkey(data, offset);
      assert offset == AfterKeys(|data|, start, 2);
      serumProgram, offset := ReadPubkey(data, offset);
      assert offset == AfterKeys(|data|, start, 3);
      serumMarket, offset := ReadPubkey(data, offset);
      assert offset == AfterKeys(|data|, start, 4);
      serumBids, offset := ReadPubkey(data, offset);
      assert offset == AfterKeys(|data|, start, 5);
      serumAsks, offset := ReadPubkey(data, offset);
      assert offset == AfterKeys(|data|, start, 6);
      serumEventQueue, offset := ReadPubkey(data, offset);
      assert offset == AfterKeys(|data|, start, 7);
      serumCoinVault, offset := ReadPubkey(data, offset);
      assert offset == AfterKeys(|data|, start, 8);
      serumPcVault, offset := ReadPubkey(data, offset);
      assert offset == AfterKeys(|data|, start, 9);
      serumSigner, offset := ReadPubkey(data, offset);
      assert offset == AfterKeys(|data|, start, 10);
      userSource, offset := ReadPubkey(data, offset);
      assert offset == AfterKeys(|data|, start, 11);
      userDestination, offset := ReadPubkey(data, offset);
      assert offset == AfterKeys(|data|, start, 12);
      CursorStops(|data|, start, 12);
      userOwner, offset := ReadPubkey(data, offset);
      if userOwner.None? { return false; }
      owner := userOwner.value;
      return true;
    }

    /** raydium_parse_swap */
    method Parse(data: seq<byte>) returns (ok: bool)
      modifies `amountIn, `amountOut, `amm, `owner
      ensures ok <==> Accepted(data)
      ensures ok <==> (|data| >= 577 && data[160] == 0) || (|data| >= 609 && data[160] != 0)
      ensures ok ==> owner == data[TailStart(data) + 384..TailStart(data) + 416]
      ensures !ok ==> owner == old(owner)
      ensures amountIn == if 8 <= |data| then Read64(data[0..8]) else old(amountIn)
      ensures amountOut == if 32 <= |data| then Read64(data[24..32]) else old(amountOut)
      ensures amm == if 96 <= |data| then data[64..96] else old(amm)
    {
      AcceptedLengths(data);
      var offset: nat;
      ok, offset := ParseHead(data);
      if !ok { return false; }
      if offset >= |data| {
        return false;
      }
      var hasTarget := data[offset];
      offset := offset + 1;
      if hasTarget != 0 {
        var target: Option<pubkey>;
        target, offset := ReadPubkey(data, offset);
        if target.None? { return false; }
      }
      ok := ParseTail(data, offset);
    }
  }
}
