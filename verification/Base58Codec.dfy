/** src/base58.c, the conversions themselves: a calloc'ed scratch array holds the number seen so far
    and every input symbol multiplies it by the source base and adds the symbol, carrying from the
    last cell to the first. A C string is the sequence of the characters before its terminator. */
module Base58Codec {
  import opened Common
  import opened Positional
  import opened Base58

  /** The table of src/base58.c:17-25: a 7-bit character code to its digit, -1 outside the alphabet. */
  method InitMap() returns (digits: seq<int>)
    ensures IsMap(digits)
  {
    var table := new int[128];
    var i := 0;
    while i < 128
      invariant 0 <= i <= 128
      invariant forall k :: 0 <= k < i ==> table[k] == -1
    {
      table[i] := -1;
      i := i + 1;
    }
    i := 0;
    while i < 58
      invariant 0 <= i <= 58
      invariant forall c: char :: c as int < 128 ==>
        table[c as int] == if DigitOf(c) < i then DigitOf(c) else -1
    {
      AlphabetLetter(i);
      forall c: char | DigitOf(c) == i ensures c == ALPHABET[i] {
        SameDigitSameLetter(c, ALPHABET[i]);
      }
      table[ALPHABET[i] as int] := i;
      i := i + 1;
    }
    digits := table[..];
  }

  // ---- One pass over the scratch array ----

  lemma DivBound(c: nat, base: nat, bound: nat)
    requires 0 < base && c < bound * base
    ensures c / base < bound && c / base * base + c % base == c
  {
    var q, r := c / base, c % base;
    assert c == q * base + r;
    if bound <= q {
      MulMono(bound, q, base);
    }
  }

  lemma CarryBound(carry: nat, digit: nat, factor: nat, base: nat)
    requires carry < factor && digit < base
    ensures carry + factor * digit < factor * base
  {
    MulMono(digit + 1, base, factor);
    assert factor * (digit + 1) == factor * digit + factor;
  }

  ghost predicate CellDone(carry: nat, digit: nat, carry': nat, digit': nat, factor: nat, base: nat) {
    carry' * base + digit' == carry + factor * digit
  }

  /** The body of the inner loop: one cell and the carry into the next. */
  method Cell(carry: nat, digit: nat, factor: nat, base: nat) returns (carry': nat, digit': nat)
    requires carry < factor && digit < base
    ensures CellDone(carry, digit, carry', digit', factor, base)
    ensures carry' < factor && digit' < base
  {
    CarryBound(carry, digit, factor, base);
    var sum := carry + factor * digit;
    DivBound(sum, base, factor);
    carry', digit' := sum / base, sum % base;
  }

  lemma PassArithmetic(carry: nat, carry': nat, digit: nat, digit': nat, factor: nat, base: nat,
      p: nat, low': nat, low: nat, addend: nat)
    requires carry * p + low' == factor * low + addend
    requires carry' * base + digit' == carry + factor * digit
    ensures carry' * (base * p) + (digit' * p + low') == factor * (digit * p + low) + addend
  {
    calc {
      carry' * (base * p) + (digit' * p + low');
      (carry' * base) * p + digit' * p + low';
      (carry' * base + digit') * p + low';
      (carry + factor * digit) * p + low';
      carry * p + (factor * digit) * p + low';
      factor * low + addend + (factor * digit) * p;
      factor * low + addend + factor * (digit * p);
      factor * (digit * p + low) + addend;
    }
  }

  lemma PowNext(base: nat, n: nat)
    ensures Pow(base, n + 1) == base * Pow(base, n)
  {
  }

  /** One more digit of the multiplication: `low` became `low'` with `carry` left over. */
  lemma PassStep(carry: nat, carry': nat, digit: nat, digit': nat, factor: nat, base: nat,
      low': seq<nat>, low: seq<nat>, addend: nat)
    requires |low| == |low'|
    requires carry * Pow(base, |low'|) + Val(base, low') == factor * Val(base, low) + addend
    requires carry' * base + digit' == carry + factor * digit
    ensures carry' * Pow(base, |low'| + 1) + Val(base, [digit'] + low') == factor * Val(base, [digit] + low) + addend
  {
    hide *;
    var p, v', v := Pow(base, |low'|), Val(base, low'), Val(base, low);
    ValPrepend(base, digit', low');
    ValPrepend(base, digit, low);
    PowNext(base, |low'|);
    PassArithmetic(carry, carry', digit, digit', factor, base, p, v', v, addend);
  }

  /** After the cells from `k` on: their digits `done` and the carry are `factor` times what these
      cells held before, plus `addend`. Between cells the carry stays below `factor`. */
  ghost predicate PassInvariant(was: seq<byte>, k: nat, carry: nat, done: seq<nat>,
      factor: nat, base: nat, addend: nat) {
    && k <= |was| && |done| == |was| - k
    && carry < factor && IsDigits(base, done)
    && carry * Pow(base, |done|) + Val(base, done) == factor * Val(base, was[k..]) + addend
  }

  lemma PassStart(was: seq<byte>, factor: nat, base: nat, addend: nat)
    requires addend < factor
    ensures PassInvariant(was, |was|, addend, [], factor, base, addend)
  {
  }

  lemma PassEnd(was: seq<byte>, carry: nat, done: seq<nat>, factor: nat, base: nat, addend: nat)
    requires PassInvariant(was, 0, carry, done, factor, base, addend)
    ensures |done| == |was| && carry < factor && IsDigits(base, done)
    ensures carry * Pow(base, |was|) + Val(base, done) == factor * Val(base, was) + addend
  {
    assert was[0..] == was;
  }

  lemma PassCell(was: seq<byte>, k: nat, carry: nat, done: seq<nat>,
      factor: nat, base: nat, addend: nat, carry': nat, digit': nat)
    requires k < |was| && PassInvariant(was, k + 1, carry, done, factor, base, addend)
    requires CellDone(carry, was[k], carry', digit', factor, base) && carry' < factor && digit' < base
    ensures PassInvariant(was, k, carry', [digit'] + done, factor, base, addend)
  {
    hide Pow, Val;
    PassStep(carry, carry', was[k], digit', factor, base, done, was[k + 1..], addend);
    assert was[k..] == [was[k]] + was[k + 1..];
  }

  /** The inner loop: multiply the number in `tmp` by `factor` and add `addend`. The digits that do
      not fit are returned as the final carry. */
  method MultiplyAdd(tmp: array<byte>, factor: nat, base: nat, addend: nat) returns (carry: nat)
    requires 2 <= base <= 256 && addend < factor
    requires IsDigits(base, tmp[..])
    modifies tmp
    ensures IsDigits(base, tmp[..]) && carry < factor
    ensures carry * Pow(base, tmp.Length) + Val(base, tmp[..]) == factor * Val(base, old(tmp[..])) + addend
  {
    hide Pow, Val, PassInvariant, CellDone;
    carry := addend;
    ghost var was := tmp[..];
    ghost var done: seq<nat> := [];
    var k := tmp.Length - 1;
    PassStart(was, factor, base, addend);
    while k >= 0
      invariant -1 <= k < tmp.Length
      invariant PassInvariant(was, k + 1, carry, done, factor, base, addend) && carry < factor
      invariant |done| == |was| - (k + 1) && tmp[..] == was[..k + 1] + done
    {
      assert tmp[k] == was[k];
      var carry', digit' := Cell(carry, tmp[k], factor, base);
      PassCell(was, k, carry, done, factor, base, addend, carry', digit');
      tmp[k] := digit';
      carry := carry';
      done := [digit'] + done;
      k := k - 1;
    }
    PassEnd(was, carry, done, factor, base, addend);
    assert tmp[..] == done;
  }

  lemma NoCarry(carry: nat, p: nat, v: nat)
    requires carry * p + v < p
    ensures carry == 0
  {
    if carry > 0 { MulMono(1, carry, p); }
  }

  /** One input symbol: when the result fits the scratch array, no carry is left over. */
  method Accumulate(tmp: array<byte>, factor: nat, base: nat, addend: nat) returns (carry: nat)
    requires 2 <= base <= 256 && addend < factor
    requires IsDigits(base, tmp[..])
    requires factor * Val(base, tmp[..]) + addend < Pow(base, tmp.Length)
    modifies tmp
    ensures IsDigits(base, tmp[..]) && carry == 0
    ensures Val(base, tmp[..]) == factor * Val(base, old(tmp[..])) + addend
  {
    carry := MultiplyAdd(tmp, factor, base, addend);
    NoCarry(carry, Pow(base, tmp.Length), Val(base, tmp[..]));
  }

  /** What is left of a number after its leading zero digits. */
  method SkipZeros(tmp: array<byte>, base: nat) returns (start: nat)
    requires 2 <= base && IsDigits(base, tmp[..])
    ensures start <= tmp.Length
    ensures tmp[start..] == Digits(base, Val(base, tmp[..]))
  {
    start := 0;
    while start < tmp.Length && tmp[start] == 0
      invariant start <= tmp.Length
      invariant forall i :: 0 <= i < start ==> tmp[i] == 0
    {
      start := start + 1;
    }
    ValDropZeros(base, tmp[..], start);
    assert tmp[..][start..] == tmp[start..];
    DigitsUnique(base, tmp[start..]);
  }

  /** A zeroed scratch array denotes zero in any base. */
  method NewScratch(size: nat, base: nat) returns (tmp: array<byte>)
    requires 2 <= base
    ensures fresh(tmp) && tmp.Length == size && IsDigits(base, tmp[..]) && Val(base, tmp[..]) == 0
  {
    tmp := new byte[size](_ => 0);
    assert tmp[..] == Zeros(size);
    ValZeros(base, size);
  }

  // ---- base58_encode ----

  method CountZeros(input: seq<byte>) returns (zeros: nat)
    ensures zeros == LeadingZeros(input)
  {
    zeros := 0;
    while zeros < |input| && input[zeros] == 0
      invariant zeros <= |input|
      invariant forall i :: 0 <= i < zeros ==> input[i] == 0
    {
      zeros := zeros + 1;
    }
  }

  lemma EncodeTextIs(input: seq<byte>, zeros: nat, digits: seq<nat>)
    requires zeros == LeadingZeros(input) && digits == Digits(58, Val(256, input[zeros..]))
    ensures EncodeText(input) == Ones(zeros) + TextOf(digits)
  {
  }

  /** Lines 75-87: the scratch array ends up holding the number that the non-zero bytes denote. */
  method EncodeScratch(input: seq<byte>, zeros: nat) returns (tmp: array<byte>)
    requires zeros <= |input|
    ensures fresh(tmp) && IsDigits(58, tmp[..])
    ensures tmp.Length == |input| * 138 / 100 + 1
    ensures Val(58, tmp[..]) == Val(256, input[zeros..])
  {
    tmp := NewScratch(|input| * 138 / 100 + 1, 58);
    assert Val(256, input[zeros..zeros]) == 0;
    hide *;
    var i := zeros;
    while i < |input|
      invariant zeros <= i <= |input|
      invariant fresh(tmp) && IsDigits(58, tmp[..])
      invariant Val(58, tmp[..]) == Val(256, input[zeros..i])
    {
      assert input[zeros..i + 1][..i - zeros] == input[zeros..i];
      EncodeScratchSuffices(input, zeros, i + 1);
      var carry := Accumulate(tmp, 256, 58, input[i]);
      assert carry == 0;
      i := i + 1;
    }
    assert input[zeros..i] == input[zeros..];
  }

  method WriteOnes(zeros: nat, out: array<char>) returns (pos: nat)
    requires zeros <= out.Length
    modifies out
    ensures pos == zeros && out[..] == Ones(zeros) + old(out[zeros..])
  {
    pos := 0;
    while pos < zeros
      invariant 0 <= pos <= zeros
      invariant out[..] == Ones(pos) + old(out[pos..])
    {
      out[pos] := '1';
      pos := pos + 1;
    }
  }

  method WriteDigits(digits: seq<byte>, out: array<char>, from: nat) returns (pos: nat)
    requires IsDigits(58, digits) && from + |digits| <= out.Length
    modifies out
    ensures pos == from + |digits|
    ensures out[..from] == old(out[..from]) && out[from..pos] == TextOf(digits) && out[pos..] == old(out[pos..])
  {
    ghost var was, letters := out[..], TextOf(digits);
    pos := from;
    var i := 0;
    while i < |digits|
      invariant 0 <= i <= |digits| && pos == from + i
      invariant forall k :: 0 <= k < i ==> out[from + k] == letters[k]
      invariant forall k :: 0 <= k < from || pos <= k < out.Length ==> out[k] == was[k]
    {
      AlphabetLetter(digits[i]);
      out[pos] := ALPHABET[digits[i]];
      pos := pos + 1;
      i := i + 1;
    }
  }

  /** Lines 99-104. */
  method WriteText(zeros: nat, digits: seq<byte>, out: array<char>) returns (pos: nat)
    requires IsDigits(58, digits) && zeros + |digits| < out.Length
    modifies out
    ensures pos == zeros + |digits|
    ensures out[..pos] == Ones(zeros) + TextOf(digits) && out[pos] == '\0'
    ensures out[pos + 1..] == old(out[pos + 1..])
  {
    hide Ones, TextOf;
    pos := WriteOnes(zeros, out);
    assert out[..zeros] == Ones(zeros);
    pos := WriteDigits(digits, out, pos);
    assert out[..pos] == out[..zeros] + out[zeros..pos];
    out[pos] := '\0';
  }

  method Encode(input: seq<byte>, out: array<char>) returns (n: int)
    modifies out
    ensures var t := EncodeText(input);
      if |t| < out.Length then
        n == |t| && out[..n] == t && out[n] == '\0' && out[n + 1..] == old(out[n + 1..])
      else
        n == -1 && out[..] == old(out[..])
  {
    hide *;
    var zeros := CountZeros(input);
    var tmp := EncodeScratch(input, zeros);
    var start := SkipZeros(tmp, 58);
    var digits := tmp[start..];
    EncodeTextIs(input, zeros, digits);
    var total := zeros + |digits|;
    if total + 1 > out.Length {
      return -1;
    }
    n := WriteText(zeros, digits, out);
  }

  // ---- base58_decode ----

  lemma DigitsOfSnoc(s: string, c: char)
    requires InAlphabet(s) && DigitOf(c) >= 0
    ensures InAlphabet(s + [c]) && DigitsOf(s + [c]) == DigitsOf(s) + [DigitOf(c)]
    ensures Val(58, DigitsOf(s + [c])) == 58 * Val(58, DigitsOf(s)) + DigitOf(c)
  {
    var ds := DigitsOf(s + [c]);
    assert ds == DigitsOf(s) + [DigitOf(c)];
    assert ds[..|ds| - 1] == DigitsOf(s);
  }

  ghost predicate IsMap(table: seq<int>) {
    |table| == 128 && forall c: char :: c as int < 128 ==> table[c as int] == DigitOf(c)
  }

  /** Line 41. */
  method Lookup(table: seq<int>, c: char) returns (val: int)
    requires IsMap(table)
    ensures val == DigitOf(c)
  {
    val := if c as int >= 128 then -1 else table[c as int];
  }

  method CountOnes(input: string) returns (zeros: nat)
    ensures zeros == LeadingOnes(input)
  {
    zeros := 0;
    while zeros < |input| && input[zeros] == '1'
      invariant zeros <= |input|
      invariant forall i :: 0 <= i < zeros ==> input[i] == '1'
    {
      zeros := zeros + 1;
    }
  }

  lemma DecodeTextIs(input: string, zeros: nat)
    requires zeros == LeadingOnes(input)
    ensures DecodeText(input).Some? <==> InAlphabet(input[zeros..])
    ensures InAlphabet(input[zeros..]) ==>
      DecodeText(input) == Some(Zeros(zeros) + Digits(256, Val(58, DigitsOf(input[zeros..]))))
  {
  }

  /** Lines 41-49: one more character of a text of `len` characters. */
  method DecodeSymbol(table: seq<int>, tmp: array<byte>, len: nat, ghost seen: string, c: char) returns (ok: bool)
    requires IsMap(table)
    requires tmp.Length == len * 733 / 1000 + 1 && |seen| < len
    requires IsDigits(256, tmp[..]) && InAlphabet(seen) && Val(256, tmp[..]) == Val(58, DigitsOf(seen))
    modifies tmp
    ensures IsDigits(256, tmp[..])
    ensures ok <==> InAlphabet(seen + [c])
    ensures ok ==> Val(256, tmp[..]) == Val(58, DigitsOf(seen + [c]))
  {
    var val := Lookup(table, c);
    assert (seen + [c])[|seen|] == c;
    if val < 0 {
      return false;
    }
    DigitsOfSnoc(seen, c);
    DecodeScratchSuffices(DigitsOf(seen + [c]), len);
    var carry := Accumulate(tmp, 58, 256, val);
    assert carry == 0;
    return true;
  }

  lemma NothingRead(s: string)
    requires s == ""
    ensures InAlphabet(s) && Val(58, DigitsOf(s)) == 0
  {
  }

  lemma BadPrefix(s: string, prefix: string)
    requires prefix <= s
    ensures InAlphabet(s) ==> InAlphabet(prefix)
  {
  }

  /** Lines 35-50: false when a character is outside the alphabet. */
  method DecodeScratch(input: string, zeros: nat) returns (ok: bool, tmp: array<byte>)
    requires zeros <= |input|
    ensures fresh(tmp) && IsDigits(256, tmp[..])
    ensures tmp.Length == |input| * 733 / 1000 + 1
    ensures ok <==> InAlphabet(input[zeros..])
    ensures ok ==> Val(256, tmp[..]) == Val(58, DigitsOf(input[zeros..]))
  {
    hide *;
    var table := InitMap();
    tmp := NewScratch(|input| * 733 / 1000 + 1, 256);
    NothingRead(input[zeros..zeros]);
    var i := zeros;
    while i < |input|
      invariant zeros <= i <= |input|
      invariant fresh(tmp) && IsDigits(256, tmp[..]) && InAlphabet(input[zeros..i])
      invariant Val(256, tmp[..]) == Val(58, DigitsOf(input[zeros..i]))
    {
      assert input[zeros..i + 1] == input[zeros..i] + [input[i]];
      ok := DecodeSymbol(table, tmp, |input|, input[zeros..i], input[i]);
      if !ok {
        BadPrefix(input[zeros..], input[zeros..i + 1]);
        return false, tmp;
      }
      i := i + 1;
    }
    assert input[zeros..i] == input[zeros..];
    ok := true;
  }

  /** Lines 60-61. */
  method WriteBytes(zeros: nat, digits: seq<byte>, out: array<byte>)
    requires zeros + |digits| <= out.Length
    modifies out
    ensures out[..zeros + |digits|] == Zeros(zeros) + digits
    ensures out[zeros + |digits|..] == old(out[zeros + |digits|..])
  {
    forall k | 0 <= k < zeros { out[k] := 0; }
    forall k | 0 <= k < |digits| { out[zeros + k] := digits[k]; }
  }

  method Decode(input: string, out: array<byte>) returns (n: int)
    modifies out
    ensures match DecodeText(input)
      case None => n == -1 && out[..] == old(out[..])
      case Some(bytes) =>
        if |bytes| <= out.Length then
          n == |bytes| && out[..n] == bytes && out[n..] == old(out[n..])
        else
          n == -1 && out[..] == old(out[..])
  {
    hide *;
    var zeros := CountOnes(input);
    var ok, tmp := DecodeScratch(input, zeros);
    DecodeTextIs(input, zeros);
    if !ok {
      return -1;
    }
    var start := SkipZeros(tmp, 256);
    var digits := tmp[start..];
    var total := zeros + |digits|;
    if total > out.Length {
      return -1;
    }
    WriteBytes(zeros, digits, out);
    return total;
  }
}
