/** src/base58.c: base58 text is the big-endian base-58 rendering of a base-256 number, with every
    leading zero byte written as one leading '1'. The specification (`EncodeText`, `DecodeText`)
    speaks of the values of digit strings. */
module Base58 {
  import opened Common
  import opened Positional

  const ALPHABET: string := "123456789" + "ABCDEFGH" + "JKLMN" + "PQRSTUVWXYZ" + "abcdefghijk" + "mnopqrstuvwxyz"

  // ---- Alphabet ----

  /** The digit a character stands for, -1 outside the alphabet (no 0, O, I, l). */
  function DigitOf(c: char): (d: int)
    ensures -1 <= d < 58
  {
    if '1' <= c <= '9' then c as int - '1' as int
    else if 'A' <= c <= 'H' then c as int - 'A' as int + 9
    else if 'J' <= c <= 'N' then c as int - 'J' as int + 17
    else if 'P' <= c <= 'Z' then c as int - 'P' as int + 22
    else if 'a' <= c <= 'k' then c as int - 'a' as int + 33
    else if 'm' <= c <= 'z' then c as int - 'm' as int + 44
    else -1
  }

  predicate InAlphabet(s: string) {
    forall i :: 0 <= i < |s| ==> DigitOf(s[i]) >= 0
  }

  predicate Run(first: char, s: string) {
    forall i :: 0 <= i < |s| ==> s[i] as int == first as int + i
  }

  lemma AlphabetRuns()
    ensures Run('1', "123456789") && Run('A', "ABCDEFGH") && Run('J', "JKLMN")
    ensures Run('P', "PQRSTUVWXYZ") && Run('a', "abcdefghijk") && Run('m', "mnopqrstuvwxyz")
  {
  }

  /** `DigitOf` inverts the alphabet. */
  lemma AlphabetLetter(d: nat)
    requires d < 58
    ensures |ALPHABET| == 58
    ensures DigitOf(ALPHABET[d]) == d && ALPHABET[d] as int < 128
  {
    AlphabetRuns();
  }

  function Letter(d: nat): (c: char)
    requires d < 58
    ensures DigitOf(c) == d && c as int < 128
  {
    AlphabetLetter(d);
    ALPHABET[d]
  }

  lemma SameDigitSameLetter(c: char, c': char)
    requires DigitOf(c) == DigitOf(c') >= 0
    ensures c == c'
  {
  }

  // ---- Specification ----

  function TextOf(ds: seq<nat>): (s: string)
    requires IsDigits(58, ds)
    ensures |s| == |ds| && InAlphabet(s)
  {
    seq(|ds|, i requires 0 <= i < |ds| => Letter(ds[i]))
  }

  function DigitsOf(s: string): (ds: seq<nat>)
    requires InAlphabet(s)
    ensures |ds| == |s| && IsDigits(58, ds)
    ensures TextOf(ds) == s
  {
    var ds := seq(|s|, i requires 0 <= i < |s| => DigitOf(s[i]));
    assert TextOf(ds) == s by {
      forall i | 0 <= i < |s| ensures Letter(ds[i]) == s[i] {
        SameDigitSameLetter(Letter(ds[i]), s[i]);
      }
    }
    ds
  }

  function LeadingOnes(s: string): (z: nat)
    ensures z <= |s|
    ensures forall i :: 0 <= i < z ==> s[i] == '1'
    ensures z < |s| ==> s[z] != '1'
  {
    if s == [] || s[0] != '1' then 0 else 1 + LeadingOnes(s[1..])
  }

  function Ones(n: nat): (s: string)
    ensures |s| == n && forall i :: 0 <= i < n ==> s[i] == '1'
  {
    seq(n, _ => '1')
  }

  /** One '1' for each leading zero byte, then the base-58 digits of the rest. */
  function EncodeText(bs: seq<byte>): string {
    var z := LeadingZeros(bs);
    Ones(z) + TextOf(Digits(58, Val(256, bs[z..])))
  }

  /** One zero byte for each leading '1', then the base-256 digits of the rest. */
  function DecodeText(s: string): Option<seq<byte>> {
    var z := LeadingOnes(s);
    if InAlphabet(s[z..]) then Some(Zeros(z) + Digits(256, Val(58, DigitsOf(s[z..])))) else None
  }

  // ---- The two directions are mutually inverse ----

  lemma DigitsOfText(ds: seq<nat>)
    requires IsDigits(58, ds)
    ensures DigitsOf(TextOf(ds)) == ds
  {
  }

  lemma LeadingOnesOf(z: nat, rest: string)
    requires rest != [] ==> rest[0] != '1'
    ensures LeadingOnes(Ones(z) + rest) == z
  {
    var s := Ones(z) + rest;
    assert rest != [] ==> s[z] == rest[0];
  }

  lemma LeadingZerosOf(z: nat, rest: seq<nat>)
    requires rest != [] ==> rest[0] != 0
    ensures LeadingZeros(Zeros(z) + rest) == z
  {
    var s := Zeros(z) + rest;
    assert rest != [] ==> s[z] == rest[0];
  }

  lemma DecodeParts(z: nat, ds: seq<nat>)
    requires IsDigits(58, ds) && (ds != [] ==> ds[0] != 0)
    ensures DecodeText(Ones(z) + TextOf(ds)) == Some(Zeros(z) + Digits(256, Val(58, ds)))
  {
    LeadingOnesOf(z, TextOf(ds));
    assert (Ones(z) + TextOf(ds))[z..] == TextOf(ds);
    DigitsOfText(ds);
  }

  /** Decoding what encoding produced gives back the bytes, leading zeros included. */
  lemma DecodeEncode(bs: seq<byte>)
    ensures DecodeText(EncodeText(bs)) == Some(bs)
  {
    var z := LeadingZeros(bs);
    var rest: seq<byte> := bs[z..];
    var ds := Digits(58, Val(256, rest));
    assert EncodeText(bs) == Ones(z) + TextOf(ds);
    assert rest != [] ==> rest[0] != 0;
    assert bs == Zeros(z) + rest;
    hide *;
    DecodeParts(z, ds);
    DigitsUnique(256, rest);
  }

  lemma EncodeParts(z: nat, rest: seq<byte>)
    requires rest != [] ==> rest[0] != 0
    ensures EncodeText(Zeros(z) + rest) == Ones(z) + TextOf(Digits(58, Val(256, rest)))
  {
    LeadingZerosOf(z, rest);
    assert (Zeros(z) + rest)[z..] == rest;
  }

  lemma FirstDigitNonZero(s: string, z: nat)
    requires z == LeadingOnes(s) && InAlphabet(s)
    ensures z < |s| ==> DigitsOf(s[z..])[0] != 0
  {
    if z < |s| && DigitOf(s[z]) == 0 {
      SameDigitSameLetter(s[z], '1');
    }
  }

  lemma EncodeDigits(z: nat, ds: seq<nat>)
    requires IsDigits(58, ds) && (ds != [] ==> ds[0] != 0)
    ensures EncodeText(Zeros(z) + Digits(256, Val(58, ds))) == Ones(z) + TextOf(ds)
  {
    EncodeParts(z, Digits(256, Val(58, ds)));
    DigitsUnique(58, ds);
  }

  lemma SplitOnes(s: string, z: nat)
    requires z == LeadingOnes(s) && InAlphabet(s)
    ensures InAlphabet(s[z..]) && Ones(z) + TextOf(DigitsOf(s[z..])) == s
  {
    assert TextOf(DigitsOf(s[z..])) == s[z..];
  }

  /** Encoding what decoding produced gives back the text. */
  lemma EncodeDecode(s: string)
    requires InAlphabet(s)
    ensures DecodeText(s).Some? && EncodeText(DecodeText(s).value) == s
  {
    var z := LeadingOnes(s);
    SplitOnes(s, z);
    FirstDigitNonZero(s, z);
    EncodeDigits(z, DigitsOf(s[z..]));
  }

  /** Decoding succeeds exactly on texts over the alphabet, so encoding is a bijection onto them. */
  lemma DecodeDomain(s: string)
    ensures DecodeText(s).Some? <==> InAlphabet(s)
    ensures InAlphabet(s) <==> exists bs: seq<byte> :: EncodeText(bs) == s
  {
    var z := LeadingOnes(s);
    if InAlphabet(s[z..]) {
      assert InAlphabet(s) by {
        forall i | 0 <= i < |s| ensures DigitOf(s[i]) >= 0 {
          if i >= z { assert s[i] == s[z..][i - z]; }
        }
      }
      EncodeDecode(s);
    }
    forall bs: seq<byte> | EncodeText(bs) == s ensures InAlphabet(s) {
    }
  }

  // ---- Sizes ----

  lemma PowersOf58()
    ensures Pow(58, 1) == 58 && Pow(58, 2) == 3364 && Pow(58, 4) == 11316496
    ensures Pow(58, 13) == 84055070416556869132288
    ensures Pow(58, 26) == 7065254862732333761310239421614111190044114944
  {
    PowProduct(58, 1, 58, 1, 58);
    PowProduct(58, 2, 3364, 2, 3364);
    PowProduct(58, 4, 11316496, 4, 11316496);
    PowProduct(58, 8, 128063081718016, 4, 11316496);
    PowProduct(58, 12, 1449225352009601191936, 1, 58);
    PowProduct(58, 13, 84055070416556869132288, 13, 84055070416556869132288);
  }

  lemma PowersOf256()
    ensures Pow(256, 1) == 256 && Pow(256, 2) == 65536 && Pow(256, 4) == 4294967296
    ensures Pow(256, 16) == 340282366920938463463374607431768211456
  {
    PowProduct(256, 1, 256, 1, 256);
    PowProduct(256, 2, 65536, 2, 65536);
    PowProduct(256, 4, 4294967296, 4, 4294967296);
    PowProduct(256, 8, 18446744073709551616, 8, 18446744073709551616);
  }

  lemma PowerGapUp()
    ensures Pow(256, 19) <= Pow(58, 26)
  {
    hide *;
    PowersOf58();
    PowersOf256();
    PowProduct(256, 16, 340282366920938463463374607431768211456, 2, 65536);
    PowProduct(256, 18, 22300745198530623141535718272648361505980416, 1, 256);
  }

  lemma PowerGapDown()
    ensures Pow(58, 71) <= Pow(256, 52)
  {
    hide *;
    PowersOf58();
    PowersOf256();
    PowProduct(58, 13, 84055070416556869132288, 4, 11316496);
    PowProduct(58, 17, 951208868148684143308060622848, 2, 3364);
    PowProduct(58, 26,
      7065254862732333761310239421614111190044114944,
      26, 7065254862732333761310239421614111190044114944);
    PowProduct(58, 52,
      49917826275362888379944145865841136672514080180843558603146595691105413909515192848284123136,
      19, 3199866632452173458088315935260672);
    PowProduct(256, 16, 340282366920938463463374607431768211456, 4, 4294967296);
    PowProduct(256, 16, 340282366920938463463374607431768211456, 16, 340282366920938463463374607431768211456);
    PowProduct(256, 32,
      115792089237316195423570985008687907853269984665640564039457584007913129639936,
      20, 1461501637330902918203684832716283019655932542976);
  }

  lemma EncodeRatio(n: nat)
    ensures 26 * n <= (n * 138 / 100 + 1) * 19
  {
  }

  /** The base-58 scratch buffer is large enough for every prefix of every input. */
  lemma EncodeScratchSuffices(bs: seq<byte>, from: nat, to: nat)
    requires from <= to <= |bs|
    ensures Val(256, bs[from..to]) < Pow(58, |bs| * 138 / 100 + 1)
  {
    hide *;
    PowerGapUp();
    BytesBound(bs[from..to]);
    PowMono(256, to - from, |bs|);
    EncodeRatio(|bs|);
    PowRatio(256, 19, 58, 26, |bs|, |bs| * 138 / 100 + 1);
  }

  lemma BytesBound(bs: seq<byte>)
    ensures Val(256, bs) < Pow(256, |bs|)
  {
    ValBound(256, bs);
  }

  lemma DecodeRatio(n: nat)
    ensures 52 * n <= (n * 733 / 1000 + 1) * 71
  {
  }

  /** The base-256 scratch buffer is large enough for every prefix of every text. */
  lemma DecodeScratchSuffices(ds: seq<nat>, len: nat)
    requires IsDigits(58, ds) && |ds| <= len
    ensures Val(58, ds) < Pow(256, len * 733 / 1000 + 1)
  {
    hide *;
    PowerGapDown();
    ValBound(58, ds);
    PowMono(58, |ds|, len);
    DecodeRatio(len);
    PowRatio(58, 71, 256, 52, len, len * 733 / 1000 + 1);
  }

  lemma TextLength(bs: seq<byte>, z: nat)
    requires z == LeadingZeros(bs)
    ensures |EncodeText(bs)| == z + |Digits(58, Val(256, bs[z..]))|
  {
    hide Val, Digits, LeadingZeros, Letter;
  }

  lemma RoundedUp(n: nat)
    ensures 26 * n <= (26 * n + 18) / 19 * 19 < 26 * n + 19
  {
  }

  /** The digits behind z leading zeros. */
  lemma DigitsBound(bs: seq<byte>, z: nat)
    requires z <= |bs|
    ensures |Digits(58, Val(256, bs[z..]))| * 19 < 26 * (|bs| - z) + 19
  {
    var n := |bs| - z;
    var m := (26 * n + 18) / 19;
    RoundedUp(n);
    hide *;
    PowerGapUp();
    PowRatio(256, 19, 58, 26, n, m);
    BytesBound(bs[z..]);
    DigitsLength(58, Val(256, bs[z..]), m);
  }

  /** n bytes never encode to more than ceil(26 n / 19) characters, however many are zero. */
  lemma EncodedLength(bs: seq<byte>)
    ensures 19 * |EncodeText(bs)| < 26 * |bs| + 19
  {
    var z := LeadingZeros(bs);
    hide *;
    TextLength(bs, z);
    DigitsBound(bs, z);
  }

  /** Every 32-byte key fits the 64-byte text buffers of the callers. */
  lemma KeyTextLength(key: seq<byte>)
    requires |key| == 32
    ensures 32 <= |EncodeText(key)| <= 44
  {
    EncodedLength(key);
    EncodedLengthAtLeast(key);
  }

  /** Encoding never shortens. */
  lemma EncodedLengthAtLeast(bs: seq<byte>)
    ensures |bs| <= |EncodeText(bs)|
  {
    var z := LeadingZeros(bs);
    var n := |bs| - z;
    if n > 0 {
      ValLowerBound(256, bs[z..]);
      PowBaseMono(58, 256, n - 1);
      DigitsLength(58, Val(256, bs[z..]), n - 1);
    }
  }

  lemma ManyDigits(sig: seq<byte>, z: nat)
    requires z <= 1 && z <= |sig| && forall i :: 0 <= i < z ==> sig[i] == 0
    ensures |Digits(58, Val(256, sig[z..]))| >= 88 - z <==> Val(256, sig) >= Pow(58, 87 - z)
  {
    hide *;
    ValDropZeros(256, sig, z);
    DigitsLength(58, Val(256, sig[z..]), 87 - z);
  }

  lemma FewDigits(sig: seq<byte>, z: nat)
    requires 2 <= z <= |sig| == 64
    ensures z + |Digits(58, Val(256, sig[z..]))| < 88
  {
    hide *;
    DigitsBound(sig, z);
  }

  /** When the text of a 64-byte signature has 88 characters, and so leaves no room for the
      terminator in an 88-character field. */
  lemma SignatureOverflows(sig: seq<byte>)
    requires |sig| == 64
    ensures var z := LeadingZeros(sig);
      |EncodeText(sig)| >= 88 <==> z <= 1 && Val(256, sig) >= Pow(58, 87 - z)
  {
    hide *;
    var z := LeadingZeros(sig);
    TextLength(sig, z);
    if z <= 1 {
      ManyDigits(sig, z);
    } else {
      FewDigits(sig, z);
    }
  }

  lemma PowerGapSignature()
    ensures Pow(58, 29) <= Pow(2, 170)
  {
    PowersOf58();
    PowProduct(58, 26, 7065254862732333761310239421614111190044114944, 2, 3364);
    PowProduct(58, 28, 23767517358231570773047645414309870043308402671616, 1, 58);
    PowProduct(2, 1, 2, 1, 2);
    PowProduct(2, 2, 4, 2, 4);
    PowProduct(2, 4, 16, 4, 16);
    PowProduct(2, 8, 256, 2, 4);
    PowProduct(2, 10, 1024, 10, 1024);
    PowProduct(2, 20, 1048576, 20, 1048576);
    PowProduct(2, 40, 1099511627776, 40, 1099511627776);
    PowProduct(2, 80, 1208925819614629174706176, 80, 1208925819614629174706176);
    PowProduct(2, 160, 1461501637330902918203684832716283019655932542976, 10, 1024);
  }

  lemma SignatureGap()
    ensures Pow(58, 87) <= 64 * Pow(256, 63)
  {
    hide *;
    PowerGapSignature();
    PowRatio(58, 29, 2, 170, 87, 510);
    PowAdd(2, 6, 504);
    PowPow(2, 8, 63);
    SmallPowers();
  }

  /** Signatures that overflow: all whose first byte is 64 or more. */
  lemma FirstByteOverflows(sig: seq<byte>)
    requires |sig| == 64 && sig[0] >= 64
    ensures |EncodeText(sig)| >= 88
  {
    hide Pow, Val, EncodeText;
    SignatureOverflows(sig);
    ValHead(256, sig);
    MulMono(64, sig[0], Pow(256, 63));
    SignatureGap();
  }

  lemma SmallPowers()
    ensures Pow(2, 6) == 64 && Pow(2, 8) == 256
  {
    PowProduct(2, 1, 2, 1, 2);
    PowProduct(2, 2, 4, 2, 4);
    PowProduct(2, 4, 16, 2, 4);
    PowProduct(2, 4, 16, 4, 16);
  }
}
