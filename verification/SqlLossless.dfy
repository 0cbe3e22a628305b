/** The statement text loses nothing: two batches with the same text insert the same records. Column
    texts hold no comma and no parenthesis, so commas and parentheses delimit. */
module SqlLossless {
  import opened Common
  import opened Positional
  import opened Events
  import opened Sql
  import Base58
  import Pumpfun

  // ---- Delimiters ----

  predicate Plain(s: string) {
    forall i :: 0 <= i < |s| ==> s[i] != ',' && s[i] != '(' && s[i] != ')'
  }

  lemma NotLater(a: string, u: string, b: string, v: string, c: char)
    requires a + [c] + u == b + [c] + v && c !in u
    ensures |b| <= |a|
  {
    assert (b + [c] + v)[|b|] == c;
    if |a| < |b| {
      BehindDelimiter(a, u, c, |b|);
    }
  }

  lemma BehindDelimiter(a: string, u: string, c: char, i: int)
    requires |a| < i < |a| + 1 + |u|
    ensures (a + [c] + u)[i] in u
  {
    assert (a + [c] + u)[i] == u[i - |a| - 1];
  }

  /** The last delimiter of a text splits it in one way only. */
  lemma SplitLast(a: string, u: string, b: string, v: string, c: char)
    requires a + [c] + u == b + [c] + v && c !in u && c !in v
    ensures a == b && u == v
  {
    NotLater(a, u, b, v, c);
    NotLater(b, v, a, u, c);
    var s, t := a + [c] + u, b + [c] + v;
    assert a == s[..|a|] && b == t[..|b|];
    assert u == s[|a| + 1..] && v == t[|b| + 1..];
  }

  lemma JoinSnoc(xs: seq<string>)
    requires |xs| >= 2
    ensures Join(xs) == Join(xs[..|xs| - 1]) + [','] + xs[|xs| - 1]
  {
  }

  lemma {:induction false} JoinInjective(xs: seq<string>, ys: seq<string>)
    requires |xs| == |ys|
    requires forall i :: 0 <= i < |xs| ==> Plain(xs[i]) && Plain(ys[i])
    requires Join(xs) == Join(ys)
    ensures xs == ys
  {
    var k := |xs| - 1;
    if |xs| >= 2 {
      JoinSnoc(xs);
      JoinSnoc(ys);
      SplitLast(Join(xs[..k]), xs[k], Join(ys[..k]), ys[k], ',');
      JoinInjective(xs[..k], ys[..k]);
      assert xs == xs[..k] + [xs[k]] && ys == ys[..k] + [ys[k]];
    }
  }

  lemma {:induction false} JoinPlainParens(xs: seq<string>)
    requires forall i :: 0 <= i < |xs| ==> Plain(xs[i])
    ensures '(' !in Join(xs) && ')' !in Join(xs)
  {
    if |xs| >= 2 { JoinPlainParens(xs[..|xs| - 1]); }
  }

  /** What stands before the opening parenthesis of the last row. */
  function BeforeLast(rows: seq<string>): string
    requires rows != []
  {
    if |rows| == 1 then "" else Join(rows[..|rows| - 1]) + ","
  }

  predicate Parenthesised(row: string) {
    |row| >= 2 && row[0] == '(' && '(' !in row[1..]
  }

  lemma JoinRows(rows: seq<string>)
    requires rows != [] && Parenthesised(rows[|rows| - 1])
    ensures Join(rows) == BeforeLast(rows) + ['('] + rows[|rows| - 1][1..]
  {
    hide Join, BeforeLast;
    if |rows| == 1 { OneRow(rows); } else { SeveralRows(rows); }
    OpenParenthesis(BeforeLast(rows), rows[|rows| - 1]);
  }

  lemma OneRow(rows: seq<string>)
    requires |rows| == 1
    ensures Join(rows) == BeforeLast(rows) + rows[0]
  {
    assert BeforeLast(rows) == "";
  }

  lemma SeveralRows(rows: seq<string>)
    requires |rows| >= 2
    ensures Join(rows) == BeforeLast(rows) + rows[|rows| - 1]
  {
    JoinSnoc(rows);
    hide Join;
  }

  lemma OpenParenthesis(a: string, row: string)
    requires row != "" && row[0] == '('
    ensures a + row == a + ['('] + row[1..]
  {
    assert row == ['('] + row[1..];
  }

  /** Rows are recovered from their join, their number included. */
  lemma {:induction false} JoinRowsInjective(xs: seq<string>, ys: seq<string>)
    requires xs != [] && ys != []
    requires forall i :: 0 <= i < |xs| ==> Parenthesised(xs[i])
    requires forall i :: 0 <= i < |ys| ==> Parenthesised(ys[i])
    requires Join(xs) == Join(ys)
    ensures xs == ys
    decreases |xs|
  {
    var k, m := |xs| - 1, |ys| - 1;
    JoinRows(xs);
    JoinRows(ys);
    SplitLast(BeforeLast(xs), xs[k][1..], BeforeLast(ys), ys[m][1..], '(');
    assert xs[k] == ['('] + xs[k][1..] && ys[m] == ['('] + ys[m][1..];
    assert k > 0 <==> m > 0;
    if k > 0 {
      var a, b := Join(xs[..k]), Join(ys[..m]);
      assert a == BeforeLast(xs)[..|a|] && b == BeforeLast(ys)[..|b|];
      JoinRowsInjective(xs[..k], ys[..m]);
    }
    assert xs == xs[..k] + [xs[k]] && ys == ys[..m] + [ys[m]];
  }

  // ---- Columns ----

  lemma DecimalInjective(m: nat, n: nat)
    requires Decimal(m) == Decimal(n)
    ensures m == n
  {
    if m == 0 || n == 0 {
      ZeroAlone(m);
      ZeroAlone(n);
    } else {
      var a, b := Digits(10, m), Digits(10, n);
      assert |a| == |Decimal(m)| && |b| == |Decimal(n)|;
      forall i | 0 <= i < |a| ensures a[i] == b[i] {
        assert Decimal(m)[i] == DigitChar(a[i]) && Decimal(n)[i] == DigitChar(b[i]);
      }
      assert a == b;
    }
  }

  lemma ZeroAlone(n: nat)
    ensures Decimal(n) == "0" ==> n == 0
  {
    if n != 0 {
      var ds := Digits(10, n);
      assert Decimal(n)[0] == DigitChar(ds[0]);
    }
  }

  lemma RenderInjective(c: Column, d: Column)
    requires Render(c) == Render(d)
    ensures c == d
  {
    QuoteMeansText(c);
    QuoteMeansText(d);
    match (c, d)
    case (Number(m), Number(n)) => DecimalInjective(m, n);
    case (Text(s), Text(t)) =>
      assert Render(c)[1..|Render(c)| - 1] == s && Render(d)[1..|Render(d)| - 1] == t;
    case _ =>
  }

  lemma QuoteMeansText(c: Column)
    ensures Render(c) != "" && (Render(c)[0] == '\'' <==> c.Text?)
  {
    if c.Number? { assert '0' <= Decimal(c.n)[0] <= '9'; }
  }

  predicate PlainColumns(cs: seq<Column>) {
    forall i :: 0 <= i < |cs| ==> cs[i].Text? ==> Plain(cs[i].s)
  }

  lemma RenderPlain(c: Column)
    requires c.Text? ==> Plain(c.s)
    ensures Plain(Render(c))
  {
  }

  lemma RowInjective(cs: seq<Column>, ds: seq<Column>)
    requires |cs| == |ds| && PlainColumns(cs) && PlainColumns(ds) && Row(cs) == Row(ds)
    ensures cs == ds
  {
    var a, b := Join(Rendered(cs)), Join(Rendered(ds));
    assert Row(cs)[1..|Row(cs)| - 1] == a && Row(ds)[1..|Row(ds)| - 1] == b;
    RenderedPlain(cs);
    RenderedPlain(ds);
    JoinInjective(Rendered(cs), Rendered(ds));
    forall i | 0 <= i < |cs| ensures cs[i] == ds[i] {
      assert Rendered(cs)[i] == Rendered(ds)[i];
      RenderInjective(cs[i], ds[i]);
    }
  }

  lemma RenderedPlain(cs: seq<Column>)
    requires PlainColumns(cs)
    ensures forall i :: 0 <= i < |cs| ==> Plain(Rendered(cs)[i])
  {
    forall i | 0 <= i < |cs| ensures Plain(Rendered(cs)[i]) { RenderPlain(cs[i]); }
  }

  lemma RowParenthesised(cs: seq<Column>)
    requires PlainColumns(cs)
    ensures Parenthesised(Row(cs))
  {
    RenderedPlain(cs);
    JoinPlainParens(Rendered(cs));
    assert Row(cs)[1..] == Join(Rendered(cs)) + ")";
  }

  // ---- Events ----

  lemma AlphabetPlain(s: string)
    requires Base58.InAlphabet(s)
    ensures Plain(s)
  {
  }

  lemma EncodedPlain(key: seq<byte>)
    ensures Plain(Base58.EncodeText(key))
  {
    Base58.DecodeDomain(Base58.EncodeText(key));
    Base58.DecodeEncode(key);
    AlphabetPlain(Base58.EncodeText(key));
  }

  /** The signatures that the client writes: base58 text, possibly empty. */
  predicate Signed(e: Event) {
    !e.Unknown? && Base58.InAlphabet(e.signature)
  }

  ghost predicate AllSigned(es: seq<Event>) {
    forall i :: 0 <= i < |es| ==> Signed(es[i])
  }

  lemma ColumnsPlain(e: Event)
    requires Signed(e)
    ensures PlainColumns(Columns(e))
  {
    AlphabetPlain(e.signature);
    hide Base58.EncodeText, Base58.InAlphabet;
    match e
    case TradeEvent(_, t) =>
      EncodedPlain(t.mint);
      EncodedPlain(t.trader);
      EncodedPlain(t.creator);
    case SwapEvent(_, w) =>
      EncodedPlain(w.amm);
      EncodedPlain(w.owner);
  }

  /** What of an event the tables hold: everything but the timestamp of a trade. */
  function Recorded(e: Event): Event {
    match e
    case TradeEvent(s, t) => TradeEvent(s, t.(timestamp := 0))
    case _ => e
  }

  lemma KeyTextInjective(x: seq<byte>, y: seq<byte>)
    requires Base58.EncodeText(x) == Base58.EncodeText(y)
    ensures x == y
  {
    Base58.DecodeEncode(x);
    Base58.DecodeEncode(y);
  }

  lemma TradeColumnsInjective(s: signature, t: Pumpfun.Trade, s': signature, u: Pumpfun.Trade)
    requires Columns(TradeEvent(s, t)) == Columns(TradeEvent(s', u))
    ensures s == s' && t.(timestamp := 0) == u.(timestamp := 0)
  {
    hide Base58.EncodeText;
    var cs, ds := Columns(TradeEvent(s, t)), Columns(TradeEvent(s', u));
    assert cs[0] == ds[0] && cs[1] == ds[1] && cs[2] == ds[2] && cs[3] == ds[3] && cs[4] == ds[4] && cs[5] == ds[5];
    assert cs[6] == ds[6] && cs[7] == ds[7] && cs[8] == ds[8] && cs[9] == ds[9] && cs[10] == ds[10];
    assert cs[11] == ds[11] && cs[12] == ds[12] && cs[13] == ds[13] && cs[14] == ds[14] && cs[15] == ds[15];
    hide Columns;
    KeyTextInjective(t.mint, u.mint);
    KeyTextInjective(t.trader, u.trader);
    KeyTextInjective(t.creator, u.creator);
    assert t.isBuy == u.isBuy by { assert |"BUY"| != |"SELL"|; }
  }

  lemma SwapColumnsInjective(s: signature, t: Swap, s': signature, u: Swap)
    requires Columns(SwapEvent(s, t)) == Columns(SwapEvent(s', u))
    ensures s == s' && t == u
  {
    hide Base58.EncodeText;
    var cs, ds := Columns(SwapEvent(s, t)), Columns(SwapEvent(s', u));
    assert cs[0] == ds[0] && cs[1] == ds[1] && cs[2] == ds[2] && cs[3] == ds[3] && cs[4] == ds[4] && cs[5] == ds[5];
    KeyTextInjective(t.amm, u.amm);
    KeyTextInjective(t.owner, u.owner);
  }

  lemma ColumnsInjective(d: Event, e: Event)
    requires !d.Unknown? && !e.Unknown? && d.TradeEvent? == e.TradeEvent? && Columns(d) == Columns(e)
    ensures Recorded(d) == Recorded(e)
  {
    hide Columns;
    match (d, e)
    case (TradeEvent(s, t), TradeEvent(s', u)) => TradeColumnsInjective(s, t, s', u);
    case (SwapEvent(s, t), SwapEvent(s', u)) => SwapColumnsInjective(s, t, s', u);
  }

  /** The text of an INSERT determines how many events it records and what each of them is. */
  lemma InsertLossless(k: Kind, xs: seq<Event>, ys: seq<Event>)
    requires AllOf(k, xs) && AllOf(k, ys) && xs != [] && ys != []
    requires AllSigned(xs) && AllSigned(ys)
    ensures Insert(k, xs) == Insert(k, ys) ==>
      |xs| == |ys| && forall i :: 0 <= i < |xs| ==> Recorded(xs[i]) == Recorded(ys[i])
  {
    if Insert(k, xs) == Insert(k, ys) {
      var n := |Header(k)|;
      assert Insert(k, xs)[n..] == Join(Rows(k, xs)) && Insert(k, ys)[n..] == Join(Rows(k, ys));
      hide Header, RowOf, Columns;
      RowsParenthesised(k, xs);
      RowsParenthesised(k, ys);
      JoinRowsInjective(Rows(k, xs), Rows(k, ys));
      forall i | 0 <= i < |xs| ensures Recorded(xs[i]) == Recorded(ys[i]) {
        assert Rows(k, xs)[i] == Rows(k, ys)[i];
        RowDetermines(xs[i], ys[i]);
      }
    }
  }

  lemma RowDetermines(d: Event, e: Event)
    requires Signed(d) && Signed(e) && d.TradeEvent? == e.TradeEvent?
    ensures RowOf(d) == RowOf(e) ==> Recorded(d) == Recorded(e)
  {
    ColumnsPlain(d);
    ColumnsPlain(e);
    hide Columns, Row, PlainColumns;
    if RowOf(d) == RowOf(e) {
      RowInjective(Columns(d), Columns(e));
      ColumnsInjective(d, e);
    }
  }

  lemma RowsParenthesised(k: Kind, xs: seq<Event>)
    requires AllOf(k, xs) && AllSigned(xs)
    ensures forall i :: 0 <= i < |xs| ==> Parenthesised(Rows(k, xs)[i])
  {
    forall i | 0 <= i < |xs| ensures Parenthesised(Rows(k, xs)[i]) {
      ColumnsPlain(xs[i]);
      RowParenthesised(Columns(xs[i]));
    }
  }

  lemma Headers(k: Kind)
    ensures |Header(k)| > 12 && Header(k)[12] == if k.PumpfunKind? then 'p' else 'r'
  {
    hide NameList, ColumnNames;
    assert Table(k)[0] == if k.PumpfunKind? then 'p' else 'r';
    assert Header(k)[12] == Table(k)[0];
  }

  /** A statement also tells which table it is for. */
  lemma TablesDiffer(k: Kind, xs: seq<Event>, j: Kind, ys: seq<Event>)
    requires AllOf(k, xs) && AllOf(j, ys) && Insert(k, xs) == Insert(j, ys)
    ensures k == j
  {
    Headers(k);
    Headers(j);
    hide Header, Rows, Join;
    assert Insert(k, xs)[12] == Header(k)[12] && Insert(j, ys)[12] == Header(j)[12];
  }
}
