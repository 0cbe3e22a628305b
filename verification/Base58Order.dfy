/** What the letters of base58 text stand for, without reference to the table of digits: which
    characters are read, and that texts of one length are ordered as the numbers they denote. */
module Base58Order {
  import opened Common
  import opened Positional
  import opened Base58

  // ---- The characters ----

  /** A character is read exactly when it is a digit from 1, an upper-case letter but I and O, or a
      lower-case letter but l. */
  lemma CharacterRead(c: char)
    ensures DecodeText([c]).Some? <==>
      '1' <= c <= '9' || ('A' <= c <= 'Z' && c != 'I' && c != 'O') || ('a' <= c <= 'z' && c != 'l')
  {
    DecodeDomain([c]);
    hide DecodeText;
    assert InAlphabet([c]) <==> DigitOf(c) >= 0 by {
      assert [c][0] == c;
    }
  }

  lemma DigitOrder(c: char, c': char)
    requires DigitOf(c) >= 0 && DigitOf(c') >= 0
    ensures c < c' <==> DigitOf(c) < DigitOf(c')
  {
  }

  // ---- Order ----

  /** The strings have one length, and c comes first where they first differ. */
  predicate TextBefore(s: string, t: string) {
    |s| == |t| && exists i :: 0 <= i < |s| && s[..i] == t[..i] && s[i] < t[i]
  }

  predicate DigitsBefore(ds: seq<nat>, es: seq<nat>) {
    |ds| == |es| && exists i :: 0 <= i < |ds| && ds[..i] == es[..i] && ds[i] < es[i]
  }

  lemma {:induction false} SomeDifference(ds: seq<nat>, es: seq<nat>)
    requires |ds| == |es|
    ensures ds == es || DigitsBefore(ds, es) || DigitsBefore(es, ds)
  {
    if ds != [] {
      var k := |ds| - 1;
      SomeDifference(ds[..k], es[..k]);
      if ds[..k] == es[..k] {
        assert ds == ds[..k] + [ds[k]] && es == es[..k] + [es[k]];
      } else if DigitsBefore(ds[..k], es[..k]) {
        BeforeInPrefix(ds, es, k);
      } else {
        BeforeInPrefix(es, ds, k);
      }
    }
  }

  lemma BeforeInPrefix(ds: seq<nat>, es: seq<nat>, k: nat)
    requires k <= |ds| == |es| && DigitsBefore(ds[..k], es[..k])
    ensures DigitsBefore(ds, es)
  {
    var i :| 0 <= i < k && ds[..k][..i] == es[..k][..i] && ds[..k][i] < es[..k][i];
    assert ds[..i] == ds[..k][..i] && es[..i] == es[..k][..i];
  }

  lemma Larger(x: nat, y: nat, p: nat, r: nat, r': nat)
    requires x < y && r < p
    ensures x * p + r < y * p + r'
  {
    MulMono(x + 1, y, p);
    assert (x + 1) * p == x * p + p;
  }

  lemma ValAt(b: nat, p: seq<nat>, d: nat, r: seq<nat>)
    ensures Val(b, p + ([d] + r)) == Val(b, p) * Pow(b, |r| + 1) + (d * Pow(b, |r|) + Val(b, r))
  {
    hide *;
    ValConcat(b, p, [d] + r);
    ValPrepend(b, d, r);
  }

  lemma LessFrom(b: nat, p: seq<nat>, d: nat, r: seq<nat>, e: nat, r': seq<nat>)
    requires IsDigits(b, r) && |r| == |r'| && d < e
    ensures Val(b, p + ([d] + r)) < Val(b, p + ([e] + r'))
  {
    hide *;
    ValAt(b, p, d, r);
    ValAt(b, p, e, r');
    ValBound(b, r);
    Larger(d, e, Pow(b, |r|), Val(b, r), Val(b, r'));
  }

  lemma SplitAt(ds: seq<nat>, i: nat)
    requires i < |ds|
    ensures ds == ds[..i] + ([ds[i]] + ds[i + 1..])
  {
  }

  lemma LessAt(b: nat, ds: seq<nat>, es: seq<nat>, i: nat)
    requires i < |ds| == |es| && IsDigits(b, ds[i + 1..]) && ds[..i] == es[..i] && ds[i] < es[i]
    ensures Val(b, ds) < Val(b, es)
  {
    hide *;
    SplitAt(ds, i);
    SplitAt(es, i);
    LessFrom(b, ds[..i], ds[i], ds[i + 1..], es[i], es[i + 1..]);
  }

  lemma BeforeIsLess(b: nat, ds: seq<nat>, es: seq<nat>)
    requires IsDigits(b, ds) && IsDigits(b, es) && DigitsBefore(ds, es)
    ensures Val(b, ds) < Val(b, es)
  {
    hide Val;
    var i :| 0 <= i < |ds| && ds[..i] == es[..i] && ds[i] < es[i];
    LessAt(b, ds, es, i);
  }

  /** Digit strings of one length are ordered as their values. */
  lemma DigitsOrder(b: nat, ds: seq<nat>, es: seq<nat>)
    requires IsDigits(b, ds) && IsDigits(b, es) && |ds| == |es|
    ensures Val(b, ds) < Val(b, es) <==> DigitsBefore(ds, es)
  {
    hide DigitsBefore, Val;
    SomeDifference(ds, es);
    if DigitsBefore(ds, es) { BeforeIsLess(b, ds, es); }
    if DigitsBefore(es, ds) { BeforeIsLess(b, es, ds); }
  }

  lemma TextOrder(ds: seq<nat>, es: seq<nat>)
    requires IsDigits(58, ds) && IsDigits(58, es)
    ensures TextBefore(TextOf(ds), TextOf(es)) <==> DigitsBefore(ds, es)
  {
    var s, t := TextOf(ds), TextOf(es);
    forall i | 0 <= i < |s| && i < |t| ensures s[i] < t[i] <==> ds[i] < es[i] {
      DigitOrder(s[i], t[i]);
    }
    forall i | 0 <= i < |s| && |s| == |t| ensures s[..i] == t[..i] <==> ds[..i] == es[..i] {
      SamePrefix(ds[..i], es[..i]);
      assert s[..i] == TextOf(ds[..i]) && t[..i] == TextOf(es[..i]);
    }
  }

  lemma SamePrefix(ds: seq<nat>, es: seq<nat>)
    requires IsDigits(58, ds) && IsDigits(58, es)
    ensures TextOf(ds) == TextOf(es) <==> ds == es
  {
    DigitsOfText(ds);
    DigitsOfText(es);
  }

  /** Byte strings without leading zeros whose texts have one length keep the order of the numbers
      they denote in the order of the characters of their texts. */
  lemma EncodeKeepsOrder(xs: seq<byte>, ys: seq<byte>)
    requires (xs != [] ==> xs[0] != 0) && (ys != [] ==> ys[0] != 0)
    requires |EncodeText(xs)| == |EncodeText(ys)|
    ensures Val(256, xs) < Val(256, ys) <==> TextBefore(EncodeText(xs), EncodeText(ys))
  {
    TextOfNumber(xs);
    TextOfNumber(ys);
    hide *;
    var ds, es := Digits(58, Val(256, xs)), Digits(58, Val(256, ys));
    TextOrder(ds, es);
    DigitsOrder(58, ds, es);
  }

  lemma TextOfNumber(xs: seq<byte>)
    requires xs != [] ==> xs[0] != 0
    ensures EncodeText(xs) == TextOf(Digits(58, Val(256, xs)))
  {
    var none: seq<byte> := [];
    EncodeParts(0, xs);
    assert Zeros(0) + xs == xs;
  }

  /** In particular the 57 letters behind '1', one byte each: they stand in the order of their
      character codes. */
  lemma LettersAscend(d: byte, e: byte)
    requires 0 < d < e < 58
    ensures |EncodeText([d])| == |EncodeText([e])| == 1 && EncodeText([d])[0] < EncodeText([e])[0]
  {
    hide *;
    OneLetter(d);
    OneLetter(e);
    EncodeKeepsOrder([d], [e]);
    OneByte(d);
    OneByte(e);
    OneCharacter(EncodeText([d]), EncodeText([e]));
  }

  lemma OneCharacter(s: string, t: string)
    requires |s| == 1 && TextBefore(s, t)
    ensures s[0] < t[0]
  {
  }

  lemma OneByte(d: byte)
    ensures Val(256, [d]) == d
  {
    var none: seq<nat> := [];
    assert [d][..0] == none;
  }

  lemma OneLetter(d: byte)
    requires 0 < d < 58
    ensures |EncodeText([d])| == 1
  {
    TextOfNumber([d]);
    OneByte(d);
    hide EncodeText, Val;
    DigitsLength(58, d, 1);
    DigitsLength(58, d, 0);
    assert Pow(58, 1) == 58 && Pow(58, 0) == 1;
  }
}
