/** Big-endian positional numbers in any base: the arithmetic behind the base58 and base64
    codecs, the decimal printing of SQL numbers, and the sizing of scratch buffers. */
module Positional {

  function Pow(b: nat, n: nat): nat {
    if n == 0 then 1 else b * Pow(b, n - 1)
  }

  predicate IsDigits(b: nat, ds: seq<nat>) {
    forall i :: 0 <= i < |ds| ==> ds[i] < b
  }

  /** The number that `ds` denotes, most significant digit first. */
  function Val(b: nat, ds: seq<nat>): nat {
    if ds == [] then 0 else Val(b, ds[..|ds| - 1]) * b + ds[|ds| - 1]
  }

  /** The shortest representation of `n`: no leading zero, empty for zero. */
  function Digits(b: nat, n: nat): (ds: seq<nat>)
    requires 2 <= b
    ensures IsDigits(b, ds) && Val(b, ds) == n
    ensures ds != [] ==> ds[0] != 0
    ensures ds == [] <==> n == 0
  {
    if n == 0 then [] else
      DivSmaller(b, n);
      var high := Digits(b, n / b);
      var ds := high + [n % b];
      assert ds[..|ds| - 1] == high;
      ds
  }

  function LeadingZeros(ds: seq<nat>): (z: nat)
    ensures z <= |ds|
    ensures forall i :: 0 <= i < z ==> ds[i] == 0
    ensures z < |ds| ==> ds[z] != 0
  {
    if ds == [] || ds[0] != 0 then 0 else 1 + LeadingZeros(ds[1..])
  }

  function Zeros(n: nat): (ds: seq<nat>)
    ensures |ds| == n && forall i :: 0 <= i < n ==> ds[i] == 0
  {
    seq(n, _ => 0)
  }

  lemma DivSmaller(b: nat, n: nat)
    requires 2 <= b && 0 < n
    ensures n / b < n && (n / b) * b + n % b == n
  {
    assert b * (n / b) + n % b == n;
    if n <= n / b {
      MulMono(2, b, n / b);
    }
  }

  lemma MulMono(x: nat, y: nat, k: nat)
    requires x <= y
    ensures x * k <= y * k && k * x <= k * y
  {
  }

  // Powers

  lemma {:induction false} PowAdd(b: nat, m: nat, n: nat)
    ensures Pow(b, m + n) == Pow(b, m) * Pow(b, n)
  {
    if m > 0 {
      PowAdd(b, m - 1, n);
      assert Pow(b, m + n) == b * Pow(b, m - 1 + n);
      assert b * (Pow(b, m - 1) * Pow(b, n)) == (b * Pow(b, m - 1)) * Pow(b, n);
    }
  }

  lemma {:induction false} PowPow(b: nat, m: nat, n: nat)
    ensures Pow(Pow(b, m), n) == Pow(b, m * n)
  {
    if n > 0 {
      PowPow(b, m, n - 1);
      PowAdd(b, m, m * (n - 1));
      assert m + m * (n - 1) == m * n;
    } else {
      assert m * n == 0;
    }
  }

  lemma {:induction false} PowPositive(b: nat, n: nat)
    requires 0 < b
    ensures 0 < Pow(b, n)
  {
    if n > 0 { PowPositive(b, n - 1); }
  }

  lemma PowMono(b: nat, m: nat, n: nat)
    requires 0 < b && m <= n
    ensures Pow(b, m) <= Pow(b, n)
  {
    PowAdd(b, m, n - m);
    PowPositive(b, n - m);
    MulMono(1, Pow(b, n - m), Pow(b, m));
  }

  lemma {:induction false} PowBaseMono(x: nat, y: nat, n: nat)
    requires x <= y
    ensures Pow(x, n) <= Pow(y, n)
  {
    if n > 0 {
      PowBaseMono(x, y, n - 1);
      MulMono(x, y, Pow(x, n - 1));
      MulMono(Pow(x, n - 1), Pow(y, n - 1), y);
    }
  }

  lemma PowBaseStrict(x: nat, y: nat, n: nat)
    requires x < y && 0 < n
    ensures Pow(x, n) < Pow(y, n)
  {
    PowBaseMono(x, y, n - 1);
    PowPositive(y, n - 1);
    MulMono(Pow(x, n - 1), Pow(y, n - 1), x);
    assert (x + 1) * Pow(y, n - 1) == x * Pow(y, n - 1) + Pow(y, n - 1);
    MulMono(x + 1, y, Pow(y, n - 1));
  }

  /** If `x^p <= y^q` then `x^n <= y^m` for every ratio m/n of at least q/p. */
  lemma PowRatio(x: nat, p: nat, y: nat, q: nat, n: nat, m: nat)
    requires 0 < p && 0 < y && Pow(x, p) <= Pow(y, q) && q * n <= m * p
    ensures Pow(x, n) <= Pow(y, m)
  {
    PowRaisedBelow(x, p, y, q, n, q * n);
    PowRaised(y, m, p, m * p);
    PowMono(y, q * n, m * p);
    PowRoot(Pow(x, n), Pow(y, m), p);
  }

  lemma PowRoot(u: nat, v: nat, p: nat)
    requires 0 < p && Pow(u, p) <= Pow(v, p)
    ensures u <= v
  {
    if v < u {
      PowBaseStrict(v, u, p);
    }
  }

  lemma PowRaised(b: nat, m: nat, n: nat, mn: nat)
    requires mn == m * n
    ensures Pow(Pow(b, m), n) == Pow(b, mn)
  {
    PowPow(b, m, n);
  }

  lemma PowRaisedBelow(x: nat, p: nat, y: nat, q: nat, n: nat, qn: nat)
    requires Pow(x, p) <= Pow(y, q) && qn == q * n
    ensures Pow(Pow(x, n), p) <= Pow(y, qn)
  {
    PowRaised(x, n, p, n * p);
    PowRaised(x, p, n, n * p);
    PowBaseMono(Pow(x, p), Pow(y, q), n);
    PowRaised(y, q, n, qn);
  }

  lemma PowProduct(b: nat, m: nat, x: nat, n: nat, y: nat)
    requires Pow(b, m) == x && Pow(b, n) == y
    ensures Pow(b, m + n) == x * y
  {
    PowAdd(b, m, n);
  }

  // Values

  lemma HornerStep(x: nat, p: nat, y: nat, b: nat, d: nat)
    ensures (x * p + y) * b + d == x * (b * p) + (y * b + d)
  {
    assert (x * p) * b == x * (b * p);
  }

  lemma {:induction false} ValConcat(b: nat, xs: seq<nat>, ys: seq<nat>)
    ensures Val(b, xs + ys) == Val(b, xs) * Pow(b, |ys|) + Val(b, ys)
    decreases |ys|
  {
    if ys == [] {
      assert xs + ys == xs;
    } else {
      var k := |ys| - 1;
      var d := ys[k];
      ValConcat(b, xs, ys[..k]);
      assert (xs + ys)[..|xs + ys| - 1] == xs + ys[..k];
      assert (xs + ys)[|xs + ys| - 1] == d;
      HornerStep(Val(b, xs), Pow(b, k), Val(b, ys[..k]), b, d);
    }
  }

  lemma ValHead(b: nat, ds: seq<nat>)
    requires ds != []
    ensures Val(b, ds) == ds[0] * Pow(b, |ds| - 1) + Val(b, ds[1..])
  {
    assert ds == [ds[0]] + ds[1..];
    ValConcat(b, [ds[0]], ds[1..]);
    assert Val(b, [ds[0]]) == ds[0] by { assert [ds[0]][..0] == []; }
  }

  lemma ValPrepend(b: nat, d: nat, ds: seq<nat>)
    ensures Val(b, [d] + ds) == d * Pow(b, |ds|) + Val(b, ds)
  {
    ValHead(b, [d] + ds);
    assert ([d] + ds)[1..] == ds;
  }

  lemma {:induction false} ValBound(b: nat, ds: seq<nat>)
    requires IsDigits(b, ds)
    ensures Val(b, ds) < Pow(b, |ds|)
  {
    if ds != [] {
      var k := |ds| - 1;
      ValBound(b, ds[..k]);
      MulMono(Val(b, ds[..k]) + 1, Pow(b, k), b);
      assert (Val(b, ds[..k]) + 1) * b == Val(b, ds[..k]) * b + b;
    }
  }

  lemma ValLowerBound(b: nat, ds: seq<nat>)
    requires ds != [] && ds[0] != 0
    ensures Pow(b, |ds| - 1) <= Val(b, ds)
  {
    ValHead(b, ds);
    MulMono(1, ds[0], Pow(b, |ds| - 1));
  }

  lemma {:induction false} ValZeros(b: nat, n: nat)
    ensures Val(b, Zeros(n)) == 0
  {
    if n > 0 {
      ValZeros(b, n - 1);
      assert Zeros(n)[..n - 1] == Zeros(n - 1);
    }
  }

  /** Leading zeros do not change the value. */
  lemma ValDropZeros(b: nat, ds: seq<nat>, z: nat)
    requires z <= |ds| && forall i :: 0 <= i < z ==> ds[i] == 0
    ensures Val(b, ds) == Val(b, ds[z..])
  {
    assert ds == Zeros(z) + ds[z..];
    ValConcat(b, Zeros(z), ds[z..]);
    ValZeros(b, z);
  }

  lemma QuotientOrders(b: nat, q: nat, r: nat, q': nat)
    requires r < b && q < q'
    ensures q * b + r < q' * b
  {
    MulMono(q + 1, q', b);
    assert (q + 1) * b == q * b + b;
  }

  lemma DivModUnique(b: nat, q: nat, r: nat, q': nat, r': nat)
    requires r < b && r' < b && q * b + r == q' * b + r'
    ensures q == q' && r == r'
  {
    if q < q' {
      QuotientOrders(b, q, r, q');
    } else if q' < q {
      QuotientOrders(b, q', r', q);
    }
  }

  lemma DigitsStep(b: nat, q: nat, r: nat)
    requires 2 <= b && r < b && 0 < q * b + r
    ensures Digits(b, q * b + r) == Digits(b, q) + [r]
  {
    var n := q * b + r;
    DivSmaller(b, n);
    DivModUnique(b, n / b, n % b, q, r);
  }

  /** The only digit string with value `n` and no leading zero is `Digits(b, n)`. */
  lemma {:induction false} DigitsUnique(b: nat, ds: seq<nat>)
    requires 2 <= b && IsDigits(b, ds)
    requires ds != [] ==> ds[0] != 0
    ensures Digits(b, Val(b, ds)) == ds
  {
    if ds != [] {
      var k := |ds| - 1;
      if k > 0 { assert ds[..k][0] != 0; }
      DigitsUnique(b, ds[..k]);
      ValLowerBound(b, ds);
      PowPositive(b, k);
      DigitsStep(b, Val(b, ds[..k]), ds[k]);
      assert ds == ds[..k] + [ds[k]];
    }
  }

  /** `Digits` has at most `k` digits exactly for the numbers below `b^k`. */
  lemma DigitsLength(b: nat, n: nat, k: nat)
    requires 2 <= b
    ensures |Digits(b, n)| <= k <==> n < Pow(b, k)
  {
    var ds := Digits(b, n);
    ValBound(b, ds);
    if |ds| <= k {
      PowMono(b, |ds|, k);
    } else {
      ValLowerBound(b, ds);
      PowMono(b, k, |ds| - 1);
    }
  }
}
