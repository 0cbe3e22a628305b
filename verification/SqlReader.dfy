/** Reading a statement back: its parenthesised parts, each split at its commas, give the column names
    and, row by row, the value under each name. Nothing here knows how the statement was built. */
module SqlReader {
  import opened Common
  import opened Positional
  import opened Events
  import opened Sql
  import opened SqlLossless
  import Base58
  import Pumpfun

  // ---- Parenthesised parts ----

  /** The parts closed so far and the one that is open, if any. */
  datatype Scan = Scan(done: seq<string>, open: Option<string>)

  function ScanOf(s: string): Scan {
    if s == "" then Scan([], None) else
      var before, c := ScanOf(s[..|s| - 1]), s[|s| - 1];
      match before.open
      case None => if c == '(' then Scan(before.done, Some("")) else before
      case Some(x) => if c == ')' then Scan(before.done + [x], None) else Scan(before.done, Some(x + [c]))
  }

  function Parts(s: string): seq<string> {
    ScanOf(s).done
  }

  predicate NoParentheses(s: string) {
    forall i :: 0 <= i < |s| ==> s[i] != '(' && s[i] != ')'
  }

  lemma ScanSnoc(s: string, c: char)
    ensures ScanOf(s + [c]) ==
      match ScanOf(s).open
      case None => if c == '(' then Scan(ScanOf(s).done, Some("")) else ScanOf(s)
      case Some(x) => if c == ')' then Scan(ScanOf(s).done + [x], None) else Scan(ScanOf(s).done, Some(x + [c]))
  {
    assert (s + [c])[..|s|] == s;
  }

  lemma {:induction false} ScanText(s: string, t: string)
    requires NoParentheses(t)
    ensures ScanOf(s + t) ==
      match ScanOf(s).open case None => ScanOf(s) case Some(x) => Scan(ScanOf(s).done, Some(x + t))
    decreases |t|
  {
    hide ScanOf;
    if t == "" {
      assert s + t == s;
      assert ScanOf(s).open.Some? ==> ScanOf(s).open.value + t == ScanOf(s).open.value;
    } else {
      var k := |t| - 1;
      ScanText(s, t[..k]);
      assert s + t == s + t[..k] + [t[k]] && t == t[..k] + [t[k]];
      ScanSnoc(s + t[..k], t[k]);
      assert ScanOf(s).open.Some? ==>
        ScanOf(s).open.value + t[..k] + [t[k]] == ScanOf(s).open.value + t;
    }
  }

  lemma ScanGroup(s: string, inner: string)
    requires ScanOf(s).open == None && NoParentheses(inner)
    ensures ScanOf(s + "(" + inner + ")") == Scan(ScanOf(s).done + [inner], None)
  {
    hide ScanOf, NoParentheses;
    ScanSnoc(s, '(');
    ScanText(s + "(", inner);
    ScanSnoc(s + "(" + inner, ')');
    assert "" + inner == inner;
  }

  // ---- Split at commas ----

  function Split(s: string): (xs: seq<string>)
    ensures xs != []
  {
    if s == "" then [""] else
      var xs, c := Split(s[..|s| - 1]), s[|s| - 1];
      if c == ',' then xs + [""] else xs[..|xs| - 1] + [xs[|xs| - 1] + [c]]
  }

  predicate NoCommas(s: string) {
    forall i :: 0 <= i < |s| ==> s[i] != ','
  }

  lemma SplitSnoc(s: string, c: char)
    ensures Split(s + [c]) ==
      var xs := Split(s);
      if c == ',' then xs + [""] else xs[..|xs| - 1] + [xs[|xs| - 1] + [c]]
  {
    assert (s + [c])[..|s|] == s;
  }

  lemma {:induction false} SplitText(s: string, t: string)
    requires NoCommas(t)
    ensures var xs := Split(s); Split(s + t) == xs[..|xs| - 1] + [xs[|xs| - 1] + t]
    decreases |t|
  {
    hide Split;
    var xs := Split(s);
    var last := xs[|xs| - 1];
    if t == "" {
      assert s + t == s && last + t == last;
    } else {
      var k := |t| - 1;
      SplitText(s, t[..k]);
      assert s + t == s + t[..k] + [t[k]];
      SplitSnoc(s + t[..k], t[k]);
      assert last + t[..k] + [t[k]] == last + t;
    }
  }

  lemma SplitComma(s: string, t: string)
    requires NoCommas(t)
    ensures Split(s + "," + t) == Split(s) + [t]
  {
    hide Split, NoCommas;
    SplitSnoc(s, ',');
    SplitText(s + ",", t);
    assert "" + t == t;
  }

  lemma {:induction false} SplitJoin(xs: seq<string>)
    requires xs != [] && forall i :: 0 <= i < |xs| ==> NoCommas(xs[i])
    ensures Split(Join(xs)) == xs
  {
    hide NoCommas;
    var k := |xs| - 1;
    if k == 0 {
      assert xs == [xs[0]];
      SplitText("", xs[0]);
      assert "" + xs[0] == xs[0];
      hide *;
      SplitNothing();
    } else {
      SplitJoin(xs[..k]);
      hide Split;
      SplitComma(Join(xs[..k]), xs[k]);
      assert xs == xs[..k] + [xs[k]];
    }
  }

  lemma SplitNothing()
    ensures Split("") == [""]
  {
  }

  /** Names without the space in front of them. */
  function Names(xs: seq<string>): seq<string> {
    seq(|xs|, i requires 0 <= i < |xs| => if xs[i] != "" && xs[i][0] == ' ' then xs[i][1..] else xs[i])
  }

  // ---- The statement ----

  /** What stands between the parentheses of a row. */
  function Inner(e: Event): string
    requires !e.Unknown?
  {
    Join(Rendered(Columns(e)))
  }

  function Inners(k: Kind, batch: seq<Event>): (xs: seq<string>)
    requires AllOf(k, batch)
    ensures |xs| == |batch| && forall i :: 0 <= i < |batch| ==> xs[i] == Inner(batch[i])
  {
    seq(|batch|, i requires 0 <= i < |batch| => Inner(batch[i]))
  }

  lemma PlainIsBoth(s: string)
    ensures Plain(s) ==> NoParentheses(s) && NoCommas(s)
  {
  }

  lemma InnerNoParentheses(e: Event)
    requires Signed(e)
    ensures NoParentheses(Inner(e))
  {
    ColumnsPlain(e);
    hide Columns;
    RenderedPlain(Columns(e));
    JoinPlainParens(Rendered(Columns(e)));
    var s := Inner(e);
    assert forall i :: 0 <= i < |s| ==> s[i] in s;
  }

  lemma RowIsGroup(e: Event)
    requires !e.Unknown?
    ensures RowOf(e) == "(" + Inner(e) + ")"
  {
    hide Columns;
  }

  lemma TradeColumnNames()
    ensures var n := ColumnNames(PumpfunKind);
      && |n| == 16
      && n[0] == "slot" && n[1] == "tx_signature" && n[2] == "mint" && n[3] == "trader" && n[4] == "creator"
      && n[5] == "side" && n[6] == "sol_amount" && n[7] == "token_amount" && n[8] == "fee_bps"
      && n[9] == "fee_lamports" && n[10] == "creator_fee" + "_bps" && n[11] == "creator_fee" + "_lamports"
      && n[12] == "virtual_sol" + "_reserves" && n[13] == "virtual_token" + "_reserves"
      && n[14] == "real_sol" + "_reserves" && n[15] == "real_token" + "_reserves"
  {
  }

  lemma SwapColumnNames()
    ensures var n := ColumnNames(RaydiumKind);
      && |n| == 6
      && n[0] == "slot" && n[1] == "tx_signature" && n[2] == "pool" && n[3] == "user_owner"
      && n[4] == "amount_in" && n[5] == "amount_out"
  {
  }

  lemma PlainConcat(s: string, t: string)
    requires Plain(s) && Plain(t)
    ensures Plain(s + t)
  {
  }

  lemma PlainSpace()
    ensures Plain(" ")
  {
  }

  lemma PlainWords()
    ensures Plain("slot") && Plain("tx_signature") && Plain("mint") && Plain("trader") && Plain("creator")
    ensures Plain("side") && Plain("sol_amount") && Plain("token_amount") && Plain("fee_bps") && Plain("fee_lamports")
  {
  }

  lemma PlainPieces()
    ensures Plain("creator_fee") && Plain("_bps") && Plain("_lamports") && Plain("virtual_sol")
    ensures Plain("virtual_token")
    ensures Plain("real_sol") && Plain("real_token") && Plain("_reserves")
    ensures Plain("pool") && Plain("user_owner") && Plain("amount_in") && Plain("amount_out")
  {
  }

  lemma PlainNames(k: Kind)
    ensures forall i :: 0 <= i < |ColumnNames(k)| ==> Plain(ColumnNames(k)[i])
    ensures |ColumnNames(k)| >= 1 && ColumnNames(k)[0] == "slot"
  {
    PlainWords();
    PlainPieces();
    TradeColumnNames();
    SwapColumnNames();
    hide Plain, ColumnNames;
    PlainConcat("creator_fee", "_bps");
    PlainConcat("creator_fee", "_lamports");
    PlainConcat("virtual_sol", "_reserves");
    PlainConcat("virtual_token", "_reserves");
    PlainConcat("real_sol", "_reserves");
    PlainConcat("real_token", "_reserves");
  }

  lemma SpacedPlain(k: Kind)
    ensures forall i :: 0 <= i < |Spaced(ColumnNames(k))| ==> Plain(Spaced(ColumnNames(k))[i])
    ensures Names(Spaced(ColumnNames(k))) == ColumnNames(k) && ColumnNames(k) != []
  {
    PlainNames(k);
    PlainSpace();
    hide ColumnNames, Plain;
    var names := ColumnNames(k);
    forall i | 0 <= i < |names| ensures Plain(Spaced(names)[i]) {
      if i > 0 { PlainConcat(" ", names[i]); }
    }
    forall i | 0 <= i < |names| ensures Names(Spaced(names))[i] == names[i] {
    }
  }

  lemma NamesRead(k: Kind)
    ensures Names(Split(NameList(ColumnNames(k)))) == ColumnNames(k) && NoParentheses(NameList(ColumnNames(k)))
  {
    SpacedPlain(k);
    hide ColumnNames, Spaced, Plain;
    var xs := Spaced(ColumnNames(k));
    forall i | 0 <= i < |xs| ensures NoCommas(xs[i]) { PlainIsBoth(xs[i]); }
    SplitJoin(xs);
    JoinPlainParens(xs);
    hide Split, Join, Names;
    var s := NameList(ColumnNames(k));
    assert forall i :: 0 <= i < |s| ==> s[i] in s;
  }

  lemma TablePlain(k: Kind)
    ensures NoParentheses("INSERT INTO " + Table(k) + " ") && NoParentheses(" VALUES ")
  {
  }

  lemma HeaderScanned(k: Kind)
    ensures ScanOf(Header(k)) == Scan([NameList(ColumnNames(k))], None)
  {
    TablePlain(k);
    NamesRead(k);
    hide ColumnNames, NameList, Table, NoParentheses, ScanOf;
    var list := NameList(ColumnNames(k));
    var front := "INSERT INTO " + Table(k) + " ";
    assert Header(k) == front + "(" + list + ")" + " VALUES ";
    hide Header;
    ScanNothing();
    ScanText("", front);
    assert "" + front == front;
    ScanGroup(front, list);
    ScanText(front + "(" + list + ")", " VALUES ");
    assert [] + [list] == [list];
  }

  lemma ScanNothing()
    ensures ScanOf("") == Scan([], None)
  {
  }

  lemma RowScanned(before: string, comma: string, e: Event)
    requires Signed(e) && ScanOf(before).open == None && (comma == "" || comma == ",")
    ensures ScanOf(before + comma + RowOf(e)) == Scan(ScanOf(before).done + [Inner(e)], None)
  {
    RowIsGroup(e);
    InnerNoParentheses(e);
    CommaPlain();
    hide *;
    ScanText(before, comma);
    ScanGroup(before + comma, Inner(e));
    RowBehind(before + comma, Inner(e));
  }

  lemma InnersSnoc(k: Kind, batch: seq<Event>, list: string)
    requires AllOf(k, batch) && batch != []
    ensures var n := |batch| - 1;
      AllOf(k, batch[..n]) && !batch[n].Unknown?
      && [list] + Inners(k, batch) == [list] + Inners(k, batch[..n]) + [Inner(batch[n])]
  {
    hide Inner;
    var n := |batch| - 1;
    assert Inners(k, batch) == Inners(k, batch[..n]) + [Inner(batch[n])];
  }

  lemma InsertLast(k: Kind, batch: seq<Event>)
    requires AllOf(k, batch) && batch != []
    ensures var n := |batch| - 1;
      AllOf(k, batch[..n]) && batch[n].Is(k) && !batch[n].Unknown?
      && Insert(k, batch) == Insert(k, batch[..n]) + (if n == 0 then "" else ",") + RowOf(batch[n])
  {
    var n := |batch| - 1;
    hide Insert, RowOf;
    assert batch == batch[..n] + [batch[n]];
    InsertSnoc(k, batch[..n], batch[n]);
  }

  /** The parts of a statement: the list of names, then one part for each event. */
  lemma {:induction false} StatementScanned(k: Kind, batch: seq<Event>)
    requires AllOf(k, batch) && AllSigned(batch)
    ensures ScanOf(Insert(k, batch)) == Scan([NameList(ColumnNames(k))] + Inners(k, batch), None)
  {
    var n := |batch| - 1;
    if batch == [] {
      hide *;
      InsertNothing(k);
      HeaderScanned(k);
      assert Inners(k, batch) == [];
    } else {
      assert AllSigned(batch[..n]) && Signed(batch[n]);
      hide *;
      InsertLast(k, batch);
      StatementScanned(k, batch[..n]);
      RowScanned(Insert(k, batch[..n]), if n == 0 then "" else ",", batch[n]);
      InnersSnoc(k, batch, NameList(ColumnNames(k)));
    }
  }

  lemma RowBehind(a: string, inner: string)
    ensures a + ("(" + inner + ")") == a + "(" + inner + ")"
  {
  }

  lemma CommaPlain()
    ensures NoParentheses("") && NoParentheses(",")
  {
  }

  // ---- Values ----

  function DigitValues(s: string): (ds: seq<nat>)
    requires forall i :: 0 <= i < |s| ==> '0' <= s[i] <= '9'
  {
    seq(|s|, i requires 0 <= i < |s| => s[i] as int - 48)
  }

  /** The decimal digits of n, without leading zeros. */
  predicate IsNumber(s: string, n: nat) {
    && s != "" && (forall i :: 0 <= i < |s| ==> '0' <= s[i] <= '9')
    && (|s| > 1 ==> s[0] != '0')
    && Val(10, DigitValues(s)) == n
  }

  predicate IsText(s: string, t: string) {
    s == "'" + t + "'"
  }

  /** Quoted base-58 text that decodes to the key. */
  predicate IsKey(s: string, key: seq<byte>) {
    |s| >= 2 && IsText(s, s[1..|s| - 1]) && Base58.DecodeText(s[1..|s| - 1]) == Some(key)
  }

  lemma DecimalReads(n: nat)
    ensures IsNumber(Decimal(n), n)
  {
    var s := Decimal(n);
    if n == 0 {
      assert DigitValues(s) == [0];
      assert [0][..0] == [];
      assert Val(10, [0]) == 0;
    } else {
      assert DigitValues(s) == Digits(10, n);
    }
  }

  lemma KeyReads(key: seq<byte>)
    ensures IsKey(Render(Text(Base58.EncodeText(key))), key)
  {
    Base58.DecodeEncode(key);
    hide Base58.EncodeText, Base58.DecodeText;
    var t := Base58.EncodeText(key);
    var s := Render(Text(t));
    assert s[1..|s| - 1] == t;
  }

  /** The i-th row of a statement, split. */
  lemma ValuesSplit(k: Kind, batch: seq<Event>, i: nat)
    requires AllOf(k, batch) && AllSigned(batch) && i < |batch|
    ensures var parts := Parts(Insert(k, batch));
      && |parts| == 1 + |batch|
      && Names(Split(parts[0])) == ColumnNames(k)
      && !batch[i].Unknown? && Split(parts[1 + i]) == Rendered(Columns(batch[i]))
  {
    StatementScanned(k, batch);
    NamesRead(k);
    var e := batch[i];
    ColumnsPlain(e);
    hide Columns, ScanOf, Insert, ColumnNames, NameList, Names;
    var xs := Rendered(Columns(e));
    RenderedPlain(Columns(e));
    hide Rendered, Plain;
    forall j | 0 <= j < |xs| ensures NoCommas(xs[j]) { PlainIsBoth(xs[j]); }
    SplitJoin(xs);
    assert Parts(Insert(k, batch))[1 + i] == Inner(e);
  }

  lemma TextColumns(e: Event)
    requires e.TradeEvent?
    ensures var c, t := Columns(e), e.trade;
      && c[0] == Number(t.slot) && c[1] == Text(e.signature) && c[2] == Text(Base58.EncodeText(t.mint))
      && c[3] == Text(Base58.EncodeText(t.trader)) && c[4] == Text(Base58.EncodeText(t.creator))
      && c[5] == Text(if t.isBuy then "BUY" else "SELL")
  {
    hide Base58.EncodeText;
  }

  lemma NumberColumns(e: Event)
    requires e.TradeEvent?
    ensures var c, t := Columns(e), e.trade;
      && c[6] == Number(t.solAmount) && c[7] == Number(t.tokenAmount)
      && c[8] == Number(t.feeBasisPoints) && c[9] == Number(t.feeLamports)
      && c[10] == Number(t.creatorFeeBasisPoints) && c[11] == Number(t.creatorFeeLamports)
      && c[12] == Number(t.virtualSol) && c[13] == Number(t.virtualToken)
      && c[14] == Number(t.realSol) && c[15] == Number(t.realToken)
  {
    hide Base58.EncodeText;
  }

  lemma TradeTexts(e: Event)
    requires e.TradeEvent?
    ensures var v, t := Rendered(Columns(e)), e.trade;
      && |v| == 16
      && IsNumber(v[0], t.slot) && IsText(v[1], e.signature)
      && IsKey(v[2], t.mint) && IsKey(v[3], t.trader) && IsKey(v[4], t.creator)
      && IsText(v[5], if t.isBuy then "BUY" else "SELL")
  {
    TextColumns(e);
    KeyReads(e.trade.mint);
    KeyReads(e.trade.trader);
    KeyReads(e.trade.creator);
    NumberReads(e.trade.slot);
    TextReads(e.signature);
    TextReads(if e.trade.isBuy then "BUY" else "SELL");
    hide *;
  }

  lemma NumberReads(n: uint64)
    ensures IsNumber(Render(Number(n)), n)
  {
    DecimalReads(n);
    hide IsNumber, Decimal;
  }

  lemma TradeNumbers(e: Event)
    requires e.TradeEvent?
    ensures var v, t := Rendered(Columns(e)), e.trade;
      && |v| == 16
      && IsNumber(v[6], t.solAmount) && IsNumber(v[7], t.tokenAmount)
      && IsNumber(v[8], t.feeBasisPoints) && IsNumber(v[9], t.feeLamports)
      && IsNumber(v[10], t.creatorFeeBasisPoints) && IsNumber(v[11], t.creatorFeeLamports)
      && IsNumber(v[12], t.virtualSol) && IsNumber(v[13], t.virtualToken)
      && IsNumber(v[14], t.realSol) && IsNumber(v[15], t.realToken)
  {
    var t := e.trade;
    NumberColumns(e);
    hide *;
    NumberReads(t.solAmount);
    NumberReads(t.tokenAmount);
    NumberReads(t.feeBasisPoints);
    NumberReads(t.feeLamports);
    NumberReads(t.creatorFeeBasisPoints);
    NumberReads(t.creatorFeeLamports);
    NumberReads(t.virtualSol);
    NumberReads(t.virtualToken);
    NumberReads(t.realSol);
    NumberReads(t.realToken);
  }

  lemma SwapColumnsAre(e: Event)
    requires e.SwapEvent?
    ensures var c, w := Columns(e), e.swap;
      && c[0] == Number(w.slot) && c[1] == Text(e.signature) && c[2] == Text(Base58.EncodeText(w.amm))
      && c[3] == Text(Base58.EncodeText(w.owner)) && c[4] == Number(w.amountIn) && c[5] == Number(w.amountOut)
  {
    hide Base58.EncodeText;
  }

  lemma SwapValues(e: Event)
    requires e.SwapEvent?
    ensures var v, w := Rendered(Columns(e)), e.swap;
      && |v| == 6
      && IsNumber(v[0], w.slot) && IsText(v[1], e.signature) && IsKey(v[2], w.amm) && IsKey(v[3], w.owner)
      && IsNumber(v[4], w.amountIn) && IsNumber(v[5], w.amountOut)
  {
    SwapColumnsAre(e);
    KeyReads(e.swap.amm);
    KeyReads(e.swap.owner);
    NumberReads(e.swap.slot);
    NumberReads(e.swap.amountIn);
    NumberReads(e.swap.amountOut);
    TextReads(e.signature);
    hide *;
  }

  lemma TextReads(s: string)
    ensures IsText(Render(Text(s)), s)
  {
  }

  /** Every row of a PumpFun statement has the fields of its event under their names. */
  lemma TradeReadsBack(batch: seq<Event>, i: nat)
    requires AllOf(PumpfunKind, batch) && AllSigned(batch) && i < |batch|
    ensures batch[i].TradeEvent?
    ensures var parts, t := Parts(Insert(PumpfunKind, batch)), batch[i].trade;
      && |parts| == 1 + |batch|
      && var n, v := Names(Split(parts[0])), Split(parts[1 + i]);
      && |n| == |v| == 16
      && n[0] == "slot" && IsNumber(v[0], t.slot)
      && n[1] == "tx_signature" && IsText(v[1], batch[i].signature)
      && n[2] == "mint" && IsKey(v[2], t.mint)
      && n[3] == "trader" && IsKey(v[3], t.trader)
      && n[4] == "creator" && IsKey(v[4], t.creator)
      && n[5] == "side" && IsText(v[5], if t.isBuy then "BUY" else "SELL")
      && n[6] == "sol_amount" && IsNumber(v[6], t.solAmount)
      && n[7] == "token_amount" && IsNumber(v[7], t.tokenAmount)
      && n[8] == "fee_bps" && IsNumber(v[8], t.feeBasisPoints)
      && n[9] == "fee_lamports" && IsNumber(v[9], t.feeLamports)
      && n[10] == "creator_fee" + "_bps" && IsNumber(v[10], t.creatorFeeBasisPoints)
      && n[11] == "creator_fee" + "_lamports" && IsNumber(v[11], t.creatorFeeLamports)
      && n[12] == "virtual_sol" + "_reserves" && IsNumber(v[12], t.virtualSol)
      && n[13] == "virtual_token" + "_reserves" && IsNumber(v[13], t.virtualToken)
      && n[14] == "real_sol" + "_reserves" && IsNumber(v[14], t.realSol)
      && n[15] == "real_token" + "_reserves" && IsNumber(v[15], t.realToken)
  {
    ValuesSplit(PumpfunKind, batch, i);
    assert batch[i].TradeEvent?;
    hide *;
    TradeColumnNames();
    TradeTexts(batch[i]);
    TradeNumbers(batch[i]);
  }

  /** And every row of a Raydium statement. */
  lemma SwapReadsBack(batch: seq<Event>, i: nat)
    requires AllOf(RaydiumKind, batch) && AllSigned(batch) && i < |batch|
    ensures batch[i].SwapEvent?
    ensures var parts, w := Parts(Insert(RaydiumKind, batch)), batch[i].swap;
      && |parts| == 1 + |batch|
      && var n, v := Names(Split(parts[0])), Split(parts[1 + i]);
      && |n| == |v| == 6
      && n[0] == "slot" && IsNumber(v[0], w.slot)
      && n[1] == "tx_signature" && IsText(v[1], batch[i].signature)
      && n[2] == "pool" && IsKey(v[2], w.amm)
      && n[3] == "user_owner" && IsKey(v[3], w.owner)
      && n[4] == "amount_in" && IsNumber(v[4], w.amountIn)
      && n[5] == "amount_out" && IsNumber(v[5], w.amountOut)
  {
    ValuesSplit(RaydiumKind, batch, i);
    assert batch[i].SwapEvent?;
    hide *;
    SwapColumnNames();
    SwapValues(batch[i]);
  }

  /** What stands around the parts: the table before the names, VALUES behind them, and commas between
      the rows. */
  lemma StatementShape(k: Kind, batch: seq<Event>)
    requires AllOf(k, batch) && AllSigned(batch)
    ensures var parts := Parts(Insert(k, batch));
      && |parts| == 1 + |batch|
      && Insert(k, batch) ==
         "INSERT INTO " + (if k.PumpfunKind? then "pumpfun" + "_trades" else "raydium" + "_swaps")
         + " (" + parts[0] + ") VALUES " + Join(Bracketed(parts[1..]))
  {
    StatementScanned(k, batch);
    hide ScanOf, NameList, ColumnNames, Join, Inner;
    forall i | 0 <= i < |batch| ensures Rows(k, batch)[i] == Bracketed(Inners(k, batch))[i] {
      RowIsGroup(batch[i]);
    }
    assert Rows(k, batch) == Bracketed(Inners(k, batch));
    assert Parts(Insert(k, batch))[1..] == Inners(k, batch);
  }

  function Bracketed(xs: seq<string>): (ys: seq<string>)
    ensures |ys| == |xs| && forall i :: 0 <= i < |xs| ==> ys[i] == "(" + xs[i] + ")"
  {
    seq(|xs|, i requires 0 <= i < |xs| => "(" + xs[i] + ")")
  }
}
