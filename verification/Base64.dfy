/** src/base64.c: a decoder that skips characters outside the alphabet and reads '=' as six zero
    bits. The specification is the stream of bits; RFC 4648 section 4 supplies the encoder. */
module Base64 {
  import opened Common
  import opened Positional

  type sextet = x: int | 0 <= x < 64

  // ---- Alphabet ----

  /** The six bits a character stands for, None for a character that is skipped. */
  function SextetOf(c: char): Option<sextet> {
    if 'A' <= c <= 'Z' then Some(c as int - 'A' as int)
    else if 'a' <= c <= 'z' then Some(c as int - 'a' as int + 26)
    else if '0' <= c <= '9' then Some(c as int - '0' as int + 52)
    else if c == '+' then Some(62)
    else if c == '/' then Some(63)
    else if c == '=' then Some(0)
    else None
  }

  /** RFC 4648 table 1. */
  function LetterOf(v: int): (c: char)
    requires 0 <= v < 64
    ensures SextetOf(c) == Some(v) && c != '='
  {
    if v < 26 then ('A' as int + v) as char
    else if v < 52 then ('a' as int + (v - 26)) as char
    else if v < 62 then ('0' as int + (v - 52)) as char
    else if v == 62 then '+' else '/'
  }

  /** The sextets of the characters that are not skipped. */
  function Sextets(s: string): (vs: seq<sextet>)
    ensures |vs| <= |s|
  {
    if s == [] then [] else
      var vs := Sextets(s[..|s| - 1]);
      match SextetOf(s[|s| - 1])
      case Some(v) => vs + [v]
      case None => vs
  }

  // ---- Bits ----

  /** Bit `i` of `x`, the least significant being bit 0. */
  function Bit(x: int, i: nat): int
    requires 0 <= x
  {
    if i == 0 then x % 2 else Bit(x / 2, i - 1)
  }

  /** `bs` is the bit string of `vs`, most significant bits first, cut to whole bytes. */
  ghost predicate SameBits(vs: seq<sextet>, bs: seq<byte>) {
    && |bs| == 6 * |vs| / 8
    && forall k :: 0 <= k < 8 * |bs| ==> Bit(bs[k / 8], 7 - k % 8) == Bit(vs[k / 6], 5 - k % 6)
  }

  // ---- Four sextets make three bytes ----

  function First(a: int, b: int): int {
    a * 4 + b / 16
  }

  function Second(b: int, c: int): int {
    b % 16 * 16 + c / 4
  }

  function Third(c: int, d: int): int {
    c % 4 * 64 + d
  }

  function Unpack(vs: seq<sextet>): (bs: seq<byte>)
    ensures |bs| == 6 * |vs| / 8
  {
    if |vs| < 2 then []
    else if |vs| == 2 then [First(vs[0], vs[1])]
    else if |vs| == 3 then [First(vs[0], vs[1]), Second(vs[1], vs[2])]
    else [First(vs[0], vs[1]), Second(vs[1], vs[2]), Third(vs[2], vs[3])] + Unpack(vs[4..])
  }

  function Quad0(a: int): (v: int)
    requires 0 <= a < 256
    ensures 0 <= v < 64
  {
    a / 4
  }

  function Quad1(a: int, b: int): (v: int)
    requires 0 <= b < 256
    ensures 0 <= v < 64
  {
    a % 4 * 16 + b / 16
  }

  function Quad2(b: int, c: int): (v: int)
    requires 0 <= c < 256
    ensures 0 <= v < 64
  {
    b % 16 * 4 + c / 64
  }

  function Quad3(c: int): (v: int)
    ensures 0 <= v < 64
  {
    c % 64
  }

  /** Byte `i` of the input, zero beyond its end. */
  function At(bs: seq<byte>, i: nat): byte {
    if i < |bs| then bs[i] else 0
  }

  /** The four characters for the first three bytes, '=' where there is no byte. */
  function Quad(bs: seq<byte>): (s: string)
    requires bs != []
    ensures |s| == 4
  {
    [LetterOf(Quad0(bs[0])),
     LetterOf(Quad1(bs[0], At(bs, 1))),
     if |bs| > 1 then LetterOf(Quad2(bs[1], At(bs, 2))) else '=',
     if |bs| > 2 then LetterOf(Quad3(bs[2])) else '=']
  }

  function AfterThree(bs: seq<byte>): seq<byte> {
    if |bs| > 3 then bs[3..] else []
  }

  /** RFC 4648 section 4, with padding. */
  function Encode(bs: seq<byte>): (s: string)
    ensures |s| == (|bs| + 2) / 3 * 4
    decreases |bs|
  {
    if bs == [] then "" else
      assert (|bs| + 2) / 3 == 1 + (|AfterThree(bs)| + 2) / 3;
      Quad(bs) + Encode(AfterThree(bs))
  }

  // ---- The bytes are the bit stream ----

  lemma Halve(x: nat, p: nat, y: nat)
    ensures (x * (2 * p) + y) / 2 == x * p + y / 2
    ensures (x * (2 * p) + y) % 2 == y % 2
  {
    assert x * (2 * p) == 2 * (x * p);
  }

  /** Appending the `m` bits of `y` below `x`. */
  lemma {:induction false} BitAppend(x: nat, m: nat, y: nat, i: nat)
    requires y < Pow(2, m)
    ensures Bit(x * Pow(2, m) + y, i) == if i < m then Bit(y, i) else Bit(x, i - m)
    decreases m
  {
    if m > 0 {
      Halve(x, Pow(2, m - 1), y);
      if i > 0 {
        BitAppend(x, m - 1, y / 2, i - 1);
      }
    }
  }

  /** `x` is its upper bits `q` followed by its `m` lower bits `r`. */
  lemma BitSplit(x: nat, q: nat, m: nat, r: nat, i: nat)
    requires x == q * Pow(2, m) + r && r < Pow(2, m)
    ensures i < m ==> Bit(r, i) == Bit(x, i)
    ensures i >= m ==> Bit(q, i - m) == Bit(x, i)
  {
    BitAppend(q, m, r, i);
  }

  lemma FirstBits(a: sextet, b: sextet, i: nat)
    requires i < 8
    ensures Bit(First(a, b), 7 - i) == if i < 6 then Bit(a, 5 - i) else Bit(b, 11 - i)
  {
    assert Pow(2, 2) == 4 && Pow(2, 4) == 16;
    BitAppend(a, 2, b / 16, 7 - i);
    if i >= 6 { BitSplit(b, b / 16, 4, b % 16, 11 - i); }
  }

  lemma SecondBits(b: sextet, c: sextet, i: nat)
    requires i < 8
    ensures Bit(Second(b, c), 7 - i) == if i < 4 then Bit(b, 3 - i) else Bit(c, 9 - i)
  {
    assert Pow(2, 2) == 4 && Pow(2, 4) == 16;
    BitAppend(b % 16, 4, c / 4, 7 - i);
    if i < 4 { BitSplit(b, b / 16, 4, b % 16, 3 - i); } else { BitSplit(c, c / 4, 2, c % 4, 9 - i); }
  }

  lemma ThirdBits(c: sextet, d: sextet, i: nat)
    requires i < 8
    ensures Bit(Third(c, d), 7 - i) == if i < 2 then Bit(c, 1 - i) else Bit(d, 7 - i)
  {
    assert Pow(2, 2) == 4 && Pow(2, 6) == 64;
    BitAppend(c % 4, 6, d, 7 - i);
    if i < 2 { BitSplit(c, c / 4, 2, c % 4, 1 - i); }
  }

  /** The byte at each index of the output. */
  lemma {:induction false} UnpackAt(vs: seq<sextet>, q: nat, r: nat)
    requires r < 3 && 3 * q + r < 6 * |vs| / 8
    ensures 4 * q + r + 1 < |vs|
    ensures Unpack(vs)[3 * q + r] ==
      if r == 0 then First(vs[4 * q], vs[4 * q + 1])
      else if r == 1 then Second(vs[4 * q + 1], vs[4 * q + 2])
      else Third(vs[4 * q + 2], vs[4 * q + 3])
  {
    if q > 0 {
      UnpackAt(vs[4..], q - 1, r);
      assert Unpack(vs)[3 * q + r] == Unpack(vs[4..])[3 * (q - 1) + r];
    }
  }

  /** Bit t of byte 3 q + r is bit w of sextet 4 q + s. */
  lemma UnpackBitAt(vs: seq<sextet>, q: nat, r: nat, t: nat, s: nat, w: nat)
    requires r < 3 && t < 8 && 3 * q + r < 6 * |vs| / 8
    requires w < 6 && 8 * r + t == 6 * s + w
    ensures 4 * q + s < |vs|
    ensures Bit(Unpack(vs)[3 * q + r], 7 - t) == Bit(vs[4 * q + s], 5 - w)
  {
    UnpackAt(vs, q, r);
    hide Bit, First, Second, Third, Unpack;
    assert s == r || s == r + 1;
    var v, v' := vs[4 * q + r], vs[4 * q + r + 1];
    if r == 0 {
      FirstBits(v, v', t);
    } else if r == 1 {
      SecondBits(v, v', t);
    } else {
      ThirdBits(v, v', t);
    }
  }

  lemma SextetIndex(k: nat, q: nat, s: nat, w: nat)
    requires w < 6 && k == 24 * q + 6 * s + w
    ensures k / 6 == 4 * q + s && k % 6 == w
  {
  }

  /** Decoding a bit stream cuts it into bytes: bit k of the output is bit k of the input. */
  lemma UnpackIsBitStream(vs: seq<sextet>)
    ensures SameBits(vs, Unpack(vs))
  {
    hide Bit, Unpack;
    forall k | 0 <= k < 8 * |Unpack(vs)|
      ensures Bit(Unpack(vs)[k / 8], 7 - k % 8) == Bit(vs[k / 6], 5 - k % 6)
    {
      var j, t := k / 8, k % 8;
      var q, r := j / 3, j % 3;
      var s := if t < 6 - 2 * r then r else r + 1;
      var w := 8 * r + t - 6 * s;
      SextetIndex(k, q, s, w);
      UnpackBitAt(vs, q, r, t, s, w);
    }
  }

  lemma {:induction false} NumberFromBits(x: nat, y: nat, m: nat)
    requires x < Pow(2, m) && y < Pow(2, m)
    requires forall i: nat :: i < m ==> Bit(x, i) == Bit(y, i)
    ensures x == y
  {
    if m > 0 {
      assert Bit(x, 0) == Bit(y, 0);
      forall i: nat | i < m - 1 ensures Bit(x / 2, i) == Bit(y / 2, i) {
        assert Bit(x, i + 1) == Bit(y, i + 1);
      }
      NumberFromBits(x / 2, y / 2, m - 1);
    }
  }

  /** and nothing else has those bits. */
  lemma SameBitsUnique(vs: seq<sextet>, bs: seq<byte>)
    requires SameBits(vs, bs)
    ensures bs == Unpack(vs)
  {
    UnpackIsBitStream(vs);
    forall j | 0 <= j < |bs| ensures bs[j] == Unpack(vs)[j] {
      forall i: nat | i < 8 ensures Bit(bs[j], i) == Bit(Unpack(vs)[j], i) {
        var k := 8 * j + (7 - i);
        assert k / 8 == j && 7 - k % 8 == i;
      }
      assert Pow(2, 8) == 256;
      NumberFromBits(bs[j], Unpack(vs)[j], 8);
    }
  }

  // ---- Round trip with RFC 4648 section 4 ----

  lemma {:induction false} SextetsConcat(s: string, t: string)
    ensures Sextets(s + t) == Sextets(s) + Sextets(t)
    decreases |t|
  {
    if t == "" {
      assert s + t == s;
    } else {
      var t' := t[..|t| - 1];
      assert (s + t)[..|s + t| - 1] == s + t';
      SextetsConcat(s, t');
    }
  }

  lemma SextetsOfGroup(g: string, a: sextet, b: sextet, c: sextet, d: sextet)
    requires |g| == 4
    requires SextetOf(g[0]) == Some(a) && SextetOf(g[1]) == Some(b)
    requires SextetOf(g[2]) == Some(c) && SextetOf(g[3]) == Some(d)
    ensures Sextets(g) == [a, b, c, d]
  {
    hide SextetOf;
    assert g[..1][..0] == "" && g[..2][..1] == g[..1] && g[..3][..2] == g[..2];
    assert Sextets(g[..1]) == [a];
    assert Sextets(g[..2]) == [a, b];
    assert Sextets(g[..3]) == [a, b, c];
  }

  lemma GroupRoundTrip(a: byte, b: byte, c: byte)
    ensures First(Quad0(a), Quad1(a, b)) == a
    ensures Second(Quad1(a, b), Quad2(b, c)) == b
    ensures Third(Quad2(b, c), Quad3(c)) == c
  {
  }

  lemma QuadBytes(bs: seq<byte>)
    requires bs != []
    ensures SextetOf(Quad(bs)[0]) == Some(Quad0(bs[0]))
    ensures SextetOf(Quad(bs)[1]) == Some(Quad1(bs[0], At(bs, 1)))
  {
    hide SextetOf, LetterOf, Quad0, Quad1;
  }

  lemma QuadThird(bs: seq<byte>)
    requires bs != []
    ensures SextetOf(Quad(bs)[2]) == Some(Quad2(At(bs, 1), At(bs, 2)))
  {
    if |bs| == 1 {
      assert Quad(bs)[2] == '=';
    } else {
      hide SextetOf, LetterOf, Quad2;
    }
  }

  lemma QuadFourth(bs: seq<byte>)
    requires bs != []
    ensures SextetOf(Quad(bs)[3]) == Some(Quad3(At(bs, 2)))
  {
    if |bs| <= 2 {
      assert Quad(bs)[3] == '=';
    } else {
      hide SextetOf, LetterOf, Quad3;
    }
  }

  lemma QuadSextets(bs: seq<byte>)
    requires bs != []
    ensures Sextets(Quad(bs)) == [Quad0(bs[0]), Quad1(bs[0], At(bs, 1)), Quad2(At(bs, 1), At(bs, 2)), Quad3(At(bs, 2))]
  {
    hide *;
    QuadBytes(bs);
    QuadThird(bs);
    QuadFourth(bs);
    SextetsOfGroup(Quad(bs), Quad0(bs[0]), Quad1(bs[0], At(bs, 1)), Quad2(At(bs, 1), At(bs, 2)), Quad3(At(bs, 2)));
  }

  /** The zero bytes that padding turns into. */
  function PaddingOf(n: nat): (p: nat)
    ensures n + p == (n + 2) / 3 * 3
  {
    (n + 2) / 3 * 3 - n
  }

  lemma UnpackFour(vs: seq<sextet>)
    requires |vs| >= 4
    ensures Unpack(vs) == [First(vs[0], vs[1]), Second(vs[1], vs[2]), Third(vs[2], vs[3])] + Unpack(vs[4..])
  {
    hide First, Second, Third;
  }

  lemma UnpackQuad(bs: seq<byte>, rest: seq<sextet>)
    requires bs != []
    ensures Unpack(Sextets(Quad(bs)) + rest) == [bs[0], At(bs, 1), At(bs, 2)] + Unpack(rest)
  {
    QuadSextets(bs);
    GroupRoundTrip(bs[0], At(bs, 1), At(bs, 2));
    hide *;
    var vs := Sextets(Quad(bs)) + rest;
    UnpackFour(vs);
    assert vs[4..] == rest;
  }

  /** Decoding the padded encoding of `bs` gives `bs` and then one zero byte for every '='. */
  lemma {:induction false} DecodeEncode(bs: seq<byte>)
    ensures Unpack(Sextets(Encode(bs))) == bs + Zeros(PaddingOf(|bs|))
    decreases |bs|
  {
    if bs != [] {
      var rest := AfterThree(bs);
      DecodeEncode(rest);
      SextetsConcat(Quad(bs), Encode(rest));
      UnpackQuad(bs, Sextets(Encode(rest)));
      PaddedGroup(bs);
    }
  }

  lemma PaddedGroup(bs: seq<byte>)
    requires bs != []
    ensures [bs[0], At(bs, 1), At(bs, 2)] + (AfterThree(bs) + Zeros(PaddingOf(|AfterThree(bs)|)))
            == bs + Zeros(PaddingOf(|bs|))
  {
    if |bs| > 3 {
      assert PaddingOf(|bs[3..]|) == PaddingOf(|bs|);
    }
  }

  /** Every character of an encoding is read, the padding included. */
  lemma {:induction false} EncodeHasNoSkips(bs: seq<byte>)
    ensures |Sextets(Encode(bs))| == |Encode(bs)|
    decreases |bs|
  {
    if bs != [] {
      var rest := AfterThree(bs);
      EncodeHasNoSkips(rest);
      SextetsConcat(Quad(bs), Encode(rest));
      QuadSextets(bs);
    }
  }
}
