/** src/base64.c, the decoder itself: a 32-bit accumulator that takes six bits at a time and gives
    off a byte whenever it holds eight. The accumulator overflows; only its low bits matter. */
module Base64Codec {
  import opened Common
  import opened Positional
  import opened Base64
  import Base64Table

  type uint32 = x: int | 0 <= x < 0x1_0000_0000

  // ---- Sizes ----

  /** The '=' among the last two characters. */
  function Padding(s: string): (p: nat)
    ensures p <= 2 && p <= |s|
  {
    (if |s| >= 1 && s[|s| - 1] == '=' then 1 else 0) + if |s| >= 2 && s[|s| - 2] == '=' then 1 else 0
  }

  /** base64_decoded_size, the bound the capacity is checked against. */
  function DecodedSize(s: string): nat {
    (|s| + 3) / 4 * 3 - Padding(s)
  }

  /** The number of bytes that decoding writes. */
  function Produced(s: string): nat {
    6 * |Sextets(s)| / 8
  }

  /** Exactly when the size that the capacity check uses bounds what is written: '=' counts as data
      when it is read but is subtracted from the size, so enough characters must be skipped. Without
      '=' among the last two characters it always does. */
  lemma SizeBoundsOutput(s: string)
    ensures Padding(s) == 0 ==> Produced(s) <= DecodedSize(s)
    ensures Produced(s) <= DecodedSize(s) <==> |Sextets(s)| + Padding(s) <= (|s| + 3) / 4 * 4
  {
  }

  /** Each '=' among the last two characters, wherever it stands, takes one byte off the size. */
  lemma PaddingSubtracts(s: string, c: char, d: char)
    ensures DecodedSize(s + [c, d]) ==
      (|s| + 5) / 4 * 3 - (if c == '=' then 1 else 0) - (if d == '=' then 1 else 0)
    ensures DecodedSize([d]) == (if d == '=' then 2 else 3) && DecodedSize("") == 0
  {
  }

  lemma PaddingBehind(s: string, t: string)
    requires |t| >= 2
    ensures Padding(s + t) == Padding(t)
  {
  }

  lemma LastQuadPadding(bs: seq<byte>)
    requires 0 < |bs| <= 3
    ensures Padding(Quad(bs)) == PaddingOf(|bs|)
  {
    hide Quad0, Quad1, Quad2, Quad3, SextetOf;
  }

  lemma {:induction false} EncodePadding(bs: seq<byte>)
    ensures Padding(Encode(bs)) == PaddingOf(|bs|)
    decreases |bs|
  {
    if bs != [] {
      var rest := AfterThree(bs);
      EncodePadding(rest);
      assert Encode(bs) == Quad(bs) + Encode(rest);
      if |bs| > 3 {
        hide Quad, Encode;
        PaddingBehind(Quad(bs), Encode(rest));
        assert PaddingOf(|bs|) == PaddingOf(|rest|);
      } else {
        assert Encode(rest) == "" && Encode(bs) == Quad(bs);
        LastQuadPadding(bs);
      }
    }
  }

  lemma WholeGroups(s: string, m: nat)
    requires |Sextets(s)| == |s| == m * 4 && Padding(s) <= m * 3
    ensures Produced(s) == m * 3 && DecodedSize(s) == m * 3 - Padding(s)
  {
    hide Sextets, Padding;
  }

  /** A canonical encoding of n bytes passes the check at capacity n, and writes whole groups. */
  lemma EncodedSizes(bs: seq<byte>)
    ensures DecodedSize(Encode(bs)) == |bs|
    ensures Produced(Encode(bs)) == (|bs| + 2) / 3 * 3
  {
    hide *;
    EncodeHasNoSkips(bs);
    EncodePadding(bs);
    WholeGroups(Encode(bs), (|bs| + 2) / 3);
  }

  // ---- The loop ----

  /** What the accumulator holds after n sextets, the last being `u`: the bits not yet given off. */
  ghost predicate Holds(n: nat, u: sextet, buffer: uint32, bits: nat) {
    && (n % 4 == 0 ==> bits == 0)
    && (n % 4 == 1 ==> bits == 6 && buffer % 64 == u)
    && (n % 4 == 2 ==> bits == 4 && buffer % 16 == u % 16)
    && (n % 4 == 3 ==> bits == 2 && buffer % 4 == u % 4)
  }

  /** The byte that sextet `v` completes when it comes after n sextets, the last being `u`. */
  function Emitted(n: nat, u: int, v: int): (bs: seq<byte>)
    requires 0 <= u < 64 && 0 <= v < 64
  {
    if n % 4 == 0 then [] else
      [if n % 4 == 1 then First(u, v) else if n % 4 == 2 then Second(u, v) else Third(u, v)]
  }

  function Last(vs: seq<sextet>): sextet {
    if vs == [] then 0 else vs[|vs| - 1]
  }

  lemma UnpackAfterOne(vs: seq<sextet>, v: sextet)
    requires |vs| <= 1
    ensures Unpack(vs + [v]) == Unpack(vs) + Emitted(|vs|, Last(vs), v)
  {
    hide First, Second, Third;
    assert Unpack(vs) == [];
    assert Unpack(vs + [v]) == if vs == [] then [] else [First(vs[0], v)];
  }

  lemma UnpackAfterTwo(vs: seq<sextet>, v: sextet)
    requires |vs| == 2
    ensures Unpack(vs + [v]) == Unpack(vs) + Emitted(|vs|, Last(vs), v)
  {
    hide First, Second, Third;
    assert Unpack(vs) == [First(vs[0], vs[1])];
    assert Unpack(vs + [v]) == [First(vs[0], vs[1]), Second(vs[1], v)];
  }

  lemma UnpackAfterThree(vs: seq<sextet>, v: sextet)
    requires |vs| == 3
    ensures Unpack(vs + [v]) == Unpack(vs) + Emitted(|vs|, Last(vs), v)
  {
    hide First, Second, Third;
    var ws := vs + [v];
    assert Unpack(ws[4..]) == [];
    assert Unpack(vs) == [First(vs[0], vs[1]), Second(vs[1], vs[2])];
    assert Unpack(ws) == [First(vs[0], vs[1]), Second(vs[1], vs[2]), Third(vs[2], v)];
  }

  lemma EmittedByTail(vs: seq<sextet>, v: sextet)
    requires |vs| >= 4
    ensures Emitted(|vs[4..]|, Last(vs[4..]), v) == Emitted(|vs|, Last(vs), v)
  {
    hide First, Second, Third;
    if |vs| == 4 {
      assert Last(vs[4..]) == 0;
    } else {
      assert Last(vs[4..]) == Last(vs);
    }
  }

  lemma {:induction false} UnpackSnoc(vs: seq<sextet>, v: sextet)
    ensures Unpack(vs + [v]) == Unpack(vs) + Emitted(|vs|, Last(vs), v)
  {
    if |vs| <= 1 {
      UnpackAfterOne(vs, v);
    } else if |vs| == 2 {
      UnpackAfterTwo(vs, v);
    } else if |vs| == 3 {
      UnpackAfterThree(vs, v);
    } else {
      var tail := vs[4..];
      hide *;
      EmittedByTail(vs, v);
      UnpackSnoc(tail, v);
      UnpackFour(vs);
      UnpackFour(vs + [v]);
      assert (vs + [v])[4..] == tail + [v];
    }
  }

  /** (buffer << 6) | v in 32 bits; the low six bits of the shifted word are clear. */
  function Shift(buffer: uint32, v: sextet): uint32 {
    var b: int := buffer;
    b * 64 % 0x1_0000_0000 + v
  }

  /** (uint8_t)(buffer >> bits) */
  function TopByte(buffer: uint32, bits: nat): byte
    requires bits <= 4
  {
    var b: int := buffer;
    PowPositive(2, bits);
    b / Pow(2, bits) % 256
  }

  lemma TopByteIs(buffer: uint32)
    ensures var b: int := buffer;
      TopByte(buffer, 0) == b % 256 && TopByte(buffer, 2) == b / 4 % 256 && TopByte(buffer, 4) == b / 16 % 256
  {
    assert Pow(2, 0) == 1 && Pow(2, 2) == 4 && Pow(2, 4) == 16;
  }

  /** The part of the shifted word that was not pushed out. */
  function Kept(buffer: uint32): nat {
    var b: int := buffer;
    b % 0x400_0000
  }

  lemma ShiftKept(buffer: uint32, v: sextet)
    ensures var b: int, b': int, k := buffer, Shift(buffer, v), Kept(buffer);
      b' == 64 * k + v && k % 64 == b % 64 && k % 16 == b % 16 && k % 4 == b % 4
  {
    var b: int := buffer;
    var q, k := b / 0x400_0000, b % 0x400_0000;
    assert b == 0x400_0000 * q + k;
    HighBitsDrop(q, 64 * k);
    LowBitsStay(q, k);
    hide *;
    assert b * 64 == 0x1_0000_0000 * q + 64 * k;
  }

  lemma HighBitsDrop(q: nat, low: nat)
    requires low < 0x1_0000_0000
    ensures (0x1_0000_0000 * q + low) % 0x1_0000_0000 == low
  {
  }

  lemma LowBitsStay(q: nat, k: nat)
    ensures (0x400_0000 * q + k) % 64 == k % 64
    ensures (0x400_0000 * q + k) % 16 == k % 16
    ensures (0x400_0000 * q + k) % 4 == k % 4
  {
    Multiples(64, 0x10_0000 * q, k);
    Multiples(16, 0x40_0000 * q, k);
    Multiples(4, 0x100_0000 * q, k);
  }

  lemma Multiples(m: nat, q: nat, k: nat)
    requires m == 4 || m == 16 || m == 64 || m == 256
    ensures (m * q + k) % m == k % m && (m * q + k) / m == q + k / m
  {
  }

  lemma EmitFirst(k: nat, u: int, v: sextet)
    requires k % 64 == u
    ensures (64 * k + v) / 16 % 256 == First(u, v) && (64 * k + v) % 16 == v % 16
  {
    Multiples(16, 4 * k, v);
    var q := k / 64;
    assert 4 * k + v / 16 == 256 * q + First(u, v);
    Multiples(256, q, First(u, v));
  }

  lemma EmitSecond(k: nat, u: int, v: sextet)
    requires 0 <= u && k % 16 == u % 16
    ensures (64 * k + v) / 4 % 256 == Second(u, v) && (64 * k + v) % 4 == v % 4
  {
    Multiples(4, 16 * k, v);
    var q := k / 16;
    assert 16 * k + v / 4 == 256 * q + Second(u, v);
    Multiples(256, q, Second(u, v));
  }

  lemma EmitThird(k: nat, u: int, v: sextet)
    requires 0 <= u && k % 4 == u % 4
    ensures (64 * k + v) % 256 == Third(u, v)
  {
    var q := k / 4;
    assert 64 * k + v == 256 * q + Third(u, v);
    Multiples(256, q, Third(u, v));
  }

  lemma NextResidue(n: nat)
    ensures n % 4 == 0 ==> (n + 1) % 4 == 1
    ensures n % 4 == 1 ==> (n + 1) % 4 == 2
    ensures n % 4 == 2 ==> (n + 1) % 4 == 3
    ensures n % 4 == 3 ==> (n + 1) % 4 == 0
  {
  }

  /** One sextet: the accumulator keeps holding the pending bits, and the byte given off is right. */
  lemma Emit(n: nat, u: sextet, buffer: uint32, bits: nat, v: sextet)
    requires Holds(n, u, buffer, bits)
    ensures bits + 6 < 8 ==> Emitted(n, u, v) == [] && Holds(n + 1, v, Shift(buffer, v), bits + 6)
    ensures bits + 6 >= 8 ==>
      && bits - 2 <= 4 && Emitted(n, u, v) == [TopByte(Shift(buffer, v), bits - 2)]
      && Holds(n + 1, v, Shift(buffer, v), bits - 2)
  {
    ShiftKept(buffer, v);
    var k := Kept(buffer);
    TopByteIs(Shift(buffer, v));
    hide Shift, Kept, First, Second, Third, TopByte;
    NextResidue(n);
    if n % 4 == 1 {
      EmitFirst(k, u, v);
    } else if n % 4 == 2 {
      EmitSecond(k, u, v);
    } else if n % 4 == 3 {
      EmitThird(k, u, v);
    } else {
      EmitNone(k, v);
    }
  }

  lemma EmitNone(k: nat, v: sextet)
    ensures (64 * k + v) % 64 == v
  {
  }

  lemma SextetsSnoc(s: string, i: nat)
    requires i < |s|
    ensures Sextets(s[..i + 1]) == Sextets(s[..i]) + (match SextetOf(s[i]) case Some(v) => [v] case None => [])
    ensures |Unpack(Sextets(s[..i + 1]))| <= Produced(s)
  {
    assert s[..i + 1][..i] == s[..i];
    SextetsConcat(s[..i + 1], s[i + 1..]);
    assert s[..i + 1] + s[i + 1..] == s;
  }

  lemma StartsEmpty(s: string)
    ensures Sextets(s[..0]) == [] && Unpack([]) == [] && Holds(0, Last([]), 0, 0)
  {
  }

  lemma LastSnoc(vs: seq<sextet>, v: sextet)
    ensures Last(vs + [v]) == v
  {
  }

  lemma ProducedIs(s: string)
    ensures Produced(s) == |Unpack(Sextets(s))|
  {
  }

  /** Lines 44-46: the character's cell, None when it is skipped. */
  method ReadCell(table: seq<nat>, c: char) returns (v: Option<sextet>)
    requires |table| == 256 && forall c: char :: c as int < 256 ==> table[c as int] == Base64Table.CellOf(c)
    ensures v == SextetOf(c)
  {
    WideCharacter(c);
    hide SextetOf;
    var cell := if c as int < 256 then table[c as int] else Base64Table.SKIP;
    assert cell == Base64Table.CellOf(c);
    if cell == Base64Table.SKIP {
      v := None;
    } else {
      v := Some(cell);
    }
  }

  lemma WideCharacter(c: char)
    ensures c as int >= 256 ==> SextetOf(c) == None
  {
  }

  /** How a decode ends: the size check fails; n bytes are written; or, although the check passed,
      a write falls behind the end of the output, where the source has no defined behaviour. */
  datatype Decoded = Refused | Bytes(n: nat) | Overrun

  /** base64_decode with capacity `cap`. */
  method Decode(input: string, out: array<byte>, cap: nat) returns (r: Decoded)
    requires cap <= out.Length
    modifies out
    ensures r.Refused? <==> cap < DecodedSize(input)
    ensures r.Overrun? <==> DecodedSize(input) <= cap && out.Length < Produced(input)
    ensures r.Refused? ==> out[..] == old(out[..])
    ensures r.Bytes? ==> r.n == Produced(input) && SameBits(Sextets(input), out[..r.n])
    ensures r.Bytes? ==> out[r.n..] == old(out[r.n..])
  {
    hide *;
    if cap < DecodedSize(input) {
      return Refused;
    }
    var table := Base64Table.InitTable();
    var produced := 0;
    var buffer: uint32 := 0;
    var bits: nat := 0;
    ghost var vs: seq<sextet> := [];
    StartsEmpty(input);
    for i := 0 to |input|
      invariant vs == Sextets(input[..i]) && Holds(|vs|, Last(vs), buffer, bits)
      invariant produced == |Unpack(vs)| <= out.Length
      invariant out[..produced] == Unpack(vs) && out[produced..] == old(out[produced..])
    {
      SextetsSnoc(input, i);
      var sextet := ReadCell(table, input[i]);
      match sextet
      case None =>
      case Some(v) =>
        Emit(|vs|, Last(vs), buffer, bits, v);
        UnpackSnoc(vs, v);
        LastSnoc(vs, v);
        buffer := Shift(buffer, v);
        bits := bits + 6;
        if bits >= 8 {
          bits := bits - 8;
          if produced == out.Length {
            return Overrun;
          }
          out[produced] := TopByte(buffer, bits);
          produced := produced + 1;
        }
        vs := vs + [v];
    }
    assert input[..|input|] == input;
    UnpackIsBitStream(vs);
    ProducedIs(input);
    return Bytes(produced);
  }
}
