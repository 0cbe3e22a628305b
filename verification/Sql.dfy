/** The multi-row INSERT statements of src/db_writer.c. */
module Sql {
  import opened Common
  import opened Positional
  import opened Events
  import Base58

  // ---- The statement ----

  datatype Column = Number(n: uint64) | Text(s: string)

  function DigitChar(d: nat): (c: char)
    requires d < 10
    ensures '0' <= c <= '9' && c as int - '0' as int == d
  {
    ('0' as int + d) as char
  }

  /** %lu */
  function Decimal(n: nat): (s: string)
    ensures s != "" && forall i :: 0 <= i < |s| ==> '0' <= s[i] <= '9'
  {
    if n == 0 then "0" else
      var ds := Digits(10, n);
      seq(|ds|, i requires 0 <= i < |ds| => DigitChar(ds[i]))
  }

  function Render(c: Column): string {
    match c
    case Number(n) => Decimal(n)
    case Text(s) => "'" + s + "'"
  }

  /** The elements with a comma between each two. */
  function Join(xs: seq<string>): string {
    if xs == [] then ""
    else if |xs| == 1 then xs[0]
    else Join(xs[..|xs| - 1]) + "," + xs[|xs| - 1]
  }

  function Rendered(cs: seq<Column>): (xs: seq<string>)
    ensures |xs| == |cs| && forall i :: 0 <= i < |cs| ==> xs[i] == Render(cs[i])
  {
    seq(|cs|, i requires 0 <= i < |cs| => Render(cs[i]))
  }

  function Row(cs: seq<Column>): string {
    "(" + Join(Rendered(cs)) + ")"
  }

  /** Lines 96-111 and 168-174: the inserted columns. */
  function Columns(e: Event): (cs: seq<Column>)
    requires !e.Unknown?
    ensures |cs| == if e.TradeEvent? then 16 else 6
  {
    match e
    case TradeEvent(sig, t) =>
      [Number(t.slot), Text(sig), Text(Base58.EncodeText(t.mint)), Text(Base58.EncodeText(t.trader)),
       Text(Base58.EncodeText(t.creator)), Text(if t.isBuy then "BUY" else "SELL")]
      + [Number(t.solAmount), Number(t.tokenAmount), Number(t.feeBasisPoints), Number(t.feeLamports),
         Number(t.creatorFeeBasisPoints)]
      + [Number(t.creatorFeeLamports), Number(t.virtualSol), Number(t.virtualToken), Number(t.realSol),
         Number(t.realToken)]
    case SwapEvent(sig, w) =>
      [Number(w.slot), Text(sig), Text(Base58.EncodeText(w.amm)), Text(Base58.EncodeText(w.owner)),
       Number(w.amountIn), Number(w.amountOut)]
  }

  /** Lines 76-78: the columns of the statement. Long names are written in two pieces so that the
      verifier sees their characters; so is the table's name below. */
  const TRADE_COLUMNS: seq<string> :=
    ["slot", "tx_signature", "mint", "trader", "creator", "side", "sol_amount", "token_amount"]
    + ["fee_bps", "fee_lamports", "creator_fee" + "_bps", "creator_fee" + "_lamports"]
    + ["virtual_sol" + "_reserves", "virtual_token" + "_reserves", "real_sol" + "_reserves", "real_token" + "_reserves"]

  /** Line 151. */
  const SWAP_COLUMNS: seq<string> := ["slot", "tx_signature", "pool", "user_owner", "amount_in", "amount_out"]

  /** The names with a comma and a space between each two. */
  function NameList(names: seq<string>): string {
    Join(Spaced(names))
  }

  function Spaced(names: seq<string>): (xs: seq<string>)
    ensures |xs| == |names|
    ensures forall i :: 0 <= i < |names| ==> xs[i] == if i == 0 then names[i] else " " + names[i]
  {
    seq(|names|, i requires 0 <= i < |names| => if i == 0 then names[i] else " " + names[i])
  }

  function Table(k: Kind): string {
    match k
    case PumpfunKind => "pumpfun" + "_trades"
    case RaydiumKind => "raydium" + "_swaps"
  }

  function ColumnNames(k: Kind): seq<string> {
    match k
    case PumpfunKind => TRADE_COLUMNS
    case RaydiumKind => SWAP_COLUMNS
  }

  function Header(k: Kind): string {
    "INSERT INTO " + Table(k) + " (" + NameList(ColumnNames(k)) + ") VALUES "
  }

  predicate AllOf(k: Kind, batch: seq<Event>) {
    forall i :: 0 <= i < |batch| ==> batch[i].Is(k)
  }

  function RowOf(e: Event): string
    requires !e.Unknown?
  {
    Row(Columns(e))
  }

  function Rows(k: Kind, batch: seq<Event>): (rows: seq<string>)
    requires AllOf(k, batch)
    ensures |rows| == |batch| && forall i :: 0 <= i < |batch| ==> rows[i] == RowOf(batch[i])
  {
    seq(|batch|, i requires 0 <= i < |batch| => RowOf(batch[i]))
  }

  /** One row for every event of the batch, in order. */
  function Insert(k: Kind, batch: seq<Event>): string
    requires AllOf(k, batch)
  {
    Header(k) + Join(Rows(k, batch))
  }

  // ---- Sizes ----

  function HeaderRoom(k: Kind): nat {
    match k
    case PumpfunKind => 512
    case RaydiumKind => 256
  }

  function RowRoom(k: Kind): nat {
    match k
    case PumpfunKind => 600
    case RaydiumKind => 300
  }

  /** Lines 72 and 147. */
  function BufferSize(k: Kind, n: nat): nat {
    HeaderRoom(k) + n * RowRoom(k)
  }

  lemma {:induction false} JoinBound(xs: seq<string>, bound: nat)
    requires forall i :: 0 <= i < |xs| ==> |xs[i]| <= bound
    ensures |Join(xs)| <= (bound + 1) * |xs|
  {
    if |xs| >= 2 { JoinBound(xs[..|xs| - 1], bound); }
  }

  lemma ColumnNamesFit(k: Kind)
    ensures |ColumnNames(k)| == if k.PumpfunKind? then 16 else 6
    ensures forall i :: 0 <= i < |ColumnNames(k)| ==> |ColumnNames(k)[i]| <= 22
  {
  }

  lemma HeaderFits(k: Kind)
    ensures |Header(k)| < HeaderRoom(k)
  {
    ColumnNamesFit(k);
    assert |Table(k)| <= 14;
    hide Join, ColumnNames, Table;
    JoinBound(Spaced(ColumnNames(k)), 23);
  }

  lemma TenTo20()
    ensures Pow(10, 20) == 100000000000000000000
  {
    PowProduct(10, 1, 10, 1, 10);
    PowProduct(10, 2, 100, 2, 100);
    PowProduct(10, 4, 10000, 4, 10000);
    PowProduct(10, 8, 100000000, 8, 100000000);
    PowProduct(10, 16, 10000000000000000, 4, 10000);
  }

  /** A 64-bit number prints in at most 20 digits. */
  lemma DecimalLength(n: uint64)
    ensures |Decimal(n)| <= 20
  {
    TenTo20();
    DigitsLength(10, n, 20);
  }

  /** Room for one column: 20 digits, or a text and its quotes. */
  function ColumnRoom(c: Column): nat {
    match c
    case Number(_) => 20
    case Text(s) => |s| + 2
  }

  lemma RenderLength(c: Column)
    ensures |Render(c)| <= ColumnRoom(c)
  {
    match c
    case Number(n) => DecimalLength(n);
    case Text(s) =>
  }

  function TotalRoom(cs: seq<Column>): nat {
    if cs == [] then 0 else TotalRoom(cs[..|cs| - 1]) + ColumnRoom(cs[|cs| - 1]) + 1
  }

  lemma {:induction false} JoinLength(cs: seq<Column>)
    ensures |Join(Rendered(cs))| <= TotalRoom(cs)
  {
    if cs != [] {
      var k := |cs| - 1;
      RenderLength(cs[k]);
      JoinLength(cs[..k]);
      assert Rendered(cs)[..k] == Rendered(cs[..k]);
    }
  }

  lemma TotalRoomConcat(a: seq<Column>, b: seq<Column>)
    ensures TotalRoom(a + b) == TotalRoom(a) + TotalRoom(b)
  {
    if b == [] {
      assert a + b == a;
    } else {
      TotalRoomConcat(a, b[..|b| - 1]);
      assert (a + b)[..|a + b| - 1] == a + b[..|b| - 1];
    }
  }

  /** Room for a list of numbers. */
  lemma {:induction false} NumbersRoom(cs: seq<Column>)
    requires forall i :: 0 <= i < |cs| ==> cs[i].Number?
    ensures TotalRoom(cs) == 21 * |cs|
  {
    if cs != [] { NumbersRoom(cs[..|cs| - 1]); }
  }

  lemma {:induction false} TextsRoom(cs: seq<Column>, bound: nat)
    requires forall i :: 0 <= i < |cs| ==> cs[i].Text? && |cs[i].s| <= bound
    ensures TotalRoom(cs) <= (bound + 3) * |cs|
  {
    if cs != [] { TextsRoom(cs[..|cs| - 1], bound); }
  }

  /** A row of a slot, a signature, key texts and numbers. */
  lemma RowRoomOf(cs: seq<Column>, texts: nat)
    requires 2 + texts <= |cs| && cs[0].Number? && cs[1].Text? && |cs[1].s| < SIGNATURE_CELLS
    requires forall i :: 2 <= i < 2 + texts ==> cs[i].Text? && |cs[i].s| <= 44
    requires forall i :: 2 + texts <= i < |cs| ==> cs[i].Number?
    ensures |Row(cs)| <= 113 + 47 * texts + 21 * (|cs| - 2 - texts)
  {
    JoinLength(cs);
    hide Join, Rendered, TotalRoom;
    var keys, numbers := cs[2..2 + texts], cs[2 + texts..];
    assert cs == [cs[0], cs[1]] + keys + numbers;
    assert |Row(cs)| == |Join(Rendered(cs))| + 2;
    HeadRoom(cs[0], cs[1]);
    TextsRoom(keys, 44);
    NumbersRoom(numbers);
    hide *;
    TotalRoomConcat([cs[0], cs[1]] + keys, numbers);
    TotalRoomConcat([cs[0], cs[1]], keys);
  }

  /** No row outgrows its share of the buffer, comma included. */
  lemma RowFits(k: Kind, e: Event)
    requires e.Is(k)
    ensures 1 + |RowOf(e)| < RowRoom(k)
  {
    match e
    case TradeEvent(sig, t) =>
      Base58.KeyTextLength(t.mint);
      Base58.KeyTextLength(t.trader);
      Base58.KeyTextLength(t.creator);
      hide Base58.EncodeText, Row;
      RowRoomOf(Columns(e), 4);
    case SwapEvent(sig, w) =>
      Base58.KeyTextLength(w.amm);
      Base58.KeyTextLength(w.owner);
      hide Base58.EncodeText, Row;
      RowRoomOf(Columns(e), 2);
  }

  lemma HeadRoom(a: Column, b: Column)
    ensures TotalRoom([a, b]) == ColumnRoom(a) + ColumnRoom(b) + 2
  {
    assert [a, b][..1] == [a] && [a][..0] == [];
    assert TotalRoom([a]) == ColumnRoom(a) + 1;
  }

  lemma InsertNothing(k: Kind)
    ensures Insert(k, []) == Header(k)
  {
    hide Header;
  }

  /** The statement of every batch leaves room for its terminator. */
  lemma {:induction false} InsertFits(k: Kind, batch: seq<Event>)
    requires AllOf(k, batch)
    ensures |Insert(k, batch)| < BufferSize(k, |batch|)
    ensures BufferSize(k, |batch|) == if k.PumpfunKind? then 512 + 600 * |batch| else 256 + 300 * |batch|
  {
    HeaderFits(k);
    InsertNothing(k);
    hide Header, RowOf, Insert;
    if batch != [] {
      var n := |batch| - 1;
      InsertFits(k, batch[..n]);
      RowFits(k, batch[n]);
      InsertSnoc(k, batch[..n], batch[n]);
      assert batch == batch[..n] + [batch[n]];
      assert BufferSize(k, n + 1) == BufferSize(k, n) + RowRoom(k);
    }
  }

  /** One more event appends a comma, if need be, and its row. */
  lemma InsertSnoc(k: Kind, batch: seq<Event>, e: Event)
    requires AllOf(k, batch) && e.Is(k)
    ensures Insert(k, batch + [e]) == Insert(k, batch) + (if batch == [] then "" else ",") + RowOf(e)
  {
    hide Header, RowOf;
    var rows := Rows(k, batch + [e]);
    assert rows[..|batch|] == Rows(k, batch);
    assert rows[|batch|] == RowOf(e);
  }
}
