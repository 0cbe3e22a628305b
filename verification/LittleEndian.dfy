/** Fixed-width little-endian integers and public keys in byte records. */
module LittleEndian {
  import opened Common
  import opened Positional

  type pubkey = s: seq<byte> | |s| == 32 witness seq(32, _ => 0)

  /** The number whose byte i has weight 256^i. */
  function Read(bs: seq<byte>): nat {
    if bs == [] then 0 else bs[0] + 256 * Read(bs[1..])
  }

  function Write(n: nat, width: nat): (bs: seq<byte>)
    ensures |bs| == width
  {
    if width == 0 then [] else [n % 256] + Write(n / 256, width - 1)
  }

  lemma {:induction false} ReadBound(bs: seq<byte>)
    ensures Read(bs) < Pow(256, |bs|)
  {
    if bs != [] { ReadBound(bs[1..]); }
  }

  lemma {:induction false} ReadWrite(n: nat, width: nat)
    requires n < Pow(256, width)
    ensures Read(Write(n, width)) == n
  {
    if width > 0 { ReadWrite(n / 256, width - 1); }
  }

  lemma EightBytes()
    ensures Pow(256, 8) == 0x1_0000_0000_0000_0000
  {
    assert Pow(256, 2) == 0x1_0000;
    assert Pow(256, 4) == 0x1_0000_0000;
    assert Pow(256, 6) == 0x1_0000_0000_0000;
  }

  function Read64(bs: seq<byte>): uint64
    requires |bs| == 8
  {
    ReadBound(bs);
    EightBytes();
    Read(bs)
  }

  /** Byte i has weight 256^i. */
  lemma {:induction false} ReadByPosition(bs: seq<byte>, i: nat, x: byte)
    requires i < |bs|
    ensures Read(bs[i := x]) + bs[i] * Pow(256, i) == Read(bs) + x * Pow(256, i)
  {
    if i == 0 {
      assert bs[0 := x][1..] == bs[1..];
    } else {
      ReadByPosition(bs[1..], i - 1, x);
      assert bs[i := x][1..] == bs[1..][i - 1 := x];
    }
  }

  lemma Read64Is(bs: seq<byte>)
    requires |bs| == 8
    ensures Read64(bs) == bs[0] as int + bs[1] as int * 0x100
      + bs[2] as int * 0x1_0000 + bs[3] as int * 0x100_0000
      + bs[4] as int * 0x1_0000_0000 + bs[5] as int * 0x100_0000_0000
      + bs[6] as int * 0x1_0000_0000_0000 + bs[7] as int * 0x100_0000_0000_0000
  {
    ReadTail(bs, 7);
    ReadTail(bs, 6);
    ReadTail(bs, 5);
    ReadTail(bs, 4);
    ReadTail(bs, 3);
    ReadTail(bs, 2);
    ReadTail(bs, 1);
    ReadTail(bs, 0);
    assert bs[8..] == [] && bs[0..] == bs;
  }

  lemma ReadTail(bs: seq<byte>, k: nat)
    requires k < |bs|
    ensures Read(bs[k..]) == bs[k] + 256 * Read(bs[k + 1..])
  {
    assert bs[k..][1..] == bs[k + 1..];
  }

  function Bytes64(n: uint64): (bs: seq<byte>)
    ensures |bs| == 8
  {
    Write(n, 8)
  }

  lemma ReadBytes64(n: uint64)
    ensures Read64(Bytes64(n)) == n
  {
    EightBytes();
    ReadWrite(n, 8);
  }

  /** Two's complement. */
  function Signed(n: uint64): int64 {
    var x: int := n;
    if x >= 0x8000_0000_0000_0000 then x - 0x1_0000_0000_0000_0000 else x
  }

  function Wrap(x: int64): uint64 {
    var n: int := x;
    if n < 0 then n + 0x1_0000_0000_0000_0000 else n
  }

  /** Of the numbers congruent modulo 2^64 the one in the signed range. */
  lemma SignedIs(n: uint64)
    ensures Signed(n) == n || Signed(n) == n - 0x1_0000_0000_0000_0000
  {
  }

  lemma SignedWrap(x: int64)
    ensures Signed(Wrap(x)) == x
  {
  }
}
