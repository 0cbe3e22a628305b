/** src/db_writer.c:70-112 and 147-175: the statement is written into one buffer by snprintf calls
    that advance an offset. */
module SqlBuilder {
  import opened Common
  import Positional
  import opened LittleEndian
  import opened Events
  import opened Sql
  import Base58
  import Base58Codec

  /** snprintf(buf + offset, buf_size - offset, ...): the text, cut off to leave room for the
      terminator, and the length that the whole text has. */
  method Snprintf(buf: array<char>, offset: nat, text: string) returns (n: nat)
    requires offset < buf.Length
    modifies buf
    ensures n == |text|
    ensures buf[..offset] == old(buf[..offset])
    ensures offset + |text| < buf.Length ==> buf[offset..offset + |text|] == text && buf[offset + |text|] == '\0'
    ensures offset + |text| >= buf.Length ==>
      buf[offset..buf.Length - 1] == text[..buf.Length - 1 - offset] && buf[buf.Length - 1] == '\0'
  {
    var shown := if offset + |text| < buf.Length then |text| else buf.Length - 1 - offset;
    forall i | 0 <= i < shown {
      buf[offset + i] := text[i];
    }
    buf[offset + shown] := '\0';
    return |text|;
  }

  /** A key in its 64-character buffer, None when the encoder reports failure. */
  method KeyText(key: pubkey) returns (text: Option<string>)
    ensures text == Some(Base58.EncodeText(key))
  {
    hide *;
    var out := new char[64];
    var n := Base58Codec.Encode(key, out);
    Base58.KeyTextLength(key);
    if n < 0 {
      text := None;
    } else {
      text := Some(out[..n]);
    }
  }

  /** The buffer holds `done` as a C string. */
  ghost predicate Holds(buf: seq<char>, offset: nat, done: string) {
    offset < |buf| && |done| == offset && buf[..offset] == done && buf[offset] == '\0'
  }

  method Append(buf: array<char>, offset: nat, ghost done: string, text: string) returns (n: nat)
    requires Holds(buf[..], offset, done) && offset + |text| < buf.Length
    modifies buf
    ensures n == |text| && Holds(buf[..], offset + n, done + text)
  {
    n := Snprintf(buf, offset, text);
    assert buf[..offset + n] == buf[..offset] + buf[offset..offset + n];
  }

  /** Lines 85-90 and 96-111: the columns of a trade, None when a key does not encode. */
  method TradeRow(e: Event) returns (row: Option<string>)
    requires e.TradeEvent?
    ensures row == Some(RowOf(e))
  {
    hide Base58.EncodeText, Row;
    var t := e.trade;
    var mint := KeyText(t.mint);
    var trader := KeyText(t.trader);
    var creator := KeyText(t.creator);
    if mint.None? || trader.None? || creator.None? {
      row := None;
    } else {
      var cs :=
        [Number(t.slot), Text(e.signature), Text(mint.value), Text(trader.value), Text(creator.value),
         Text(if t.isBuy then "BUY" else "SELL")]
        + [Number(t.solAmount), Number(t.tokenAmount), Number(t.feeBasisPoints), Number(t.feeLamports),
           Number(t.creatorFeeBasisPoints)]
        + [Number(t.creatorFeeLamports), Number(t.virtualSol), Number(t.virtualToken), Number(t.realSol),
           Number(t.realToken)];
      row := Some(Row(cs));
    }
  }

  /** Lines 158-162 and 168-174. */
  method SwapRow(e: Event) returns (row: Option<string>)
    requires e.SwapEvent?
    ensures row == Some(RowOf(e))
  {
    hide Base58.EncodeText, Row;
    var w := e.swap;
    var amm := KeyText(w.amm);
    var owner := KeyText(w.owner);
    if amm.None? || owner.None? {
      row := None;
    } else {
      var cs := [Number(w.slot), Text(e.signature), Text(amm.value), Text(owner.value),
                 Number(w.amountIn), Number(w.amountOut)];
      row := Some(Row(cs));
    }
  }

  lemma InsertPrefixFits(k: Kind, batch: seq<Event>, i: nat)
    requires AllOf(k, batch) && i < |batch|
    ensures AllOf(k, batch[..i]) && AllOf(k, batch[..i + 1]) && !batch[i].Unknown?
    ensures Insert(k, batch[..i + 1]) == Insert(k, batch[..i]) + (if i == 0 then "" else ",") + RowOf(batch[i])
    ensures |Insert(k, batch[..i + 1])| < BufferSize(k, |batch|)
  {
    hide Insert, RowOf;
    assert batch[..i + 1] == batch[..i] + [batch[i]];
    InsertSnoc(k, batch[..i], batch[i]);
    InsertFits(k, batch[..i + 1]);
    BufferGrows(k, i + 1, |batch|);
  }

  lemma BufferGrows(k: Kind, m: nat, n: nat)
    requires m <= n
    ensures BufferSize(k, m) <= BufferSize(k, n)
  {
    Positional.MulMono(m, n, RowRoom(k));
  }

  /** Build the statement for a batch. The skip of lines 89 and 161 is never taken, every snprintf
      has room, and the finished text is the whole statement. */
  method Build(k: Kind, batch: seq<Event>) returns (query: array<char>, offset: nat)
    requires AllOf(k, batch)
    ensures fresh(query) && query.Length == BufferSize(k, |batch|)
    ensures Holds(query[..], offset, Insert(k, batch))
  {
    hide *;
    BufferHoldsHeader(k, |batch|);
    query := new char[BufferSize(k, |batch|)](_ => '\0');
    offset := 0;
    var n := Snprintf(query, 0, Header(k));
    offset := offset + n;
    ghost var done := Header(k);
    InsertStarts(k, batch, query[..]);
    for i := 0 to |batch|
      invariant fresh(query) && query.Length == BufferSize(k, |batch|)
      invariant AllOf(k, batch[..i]) && done == Insert(k, batch[..i]) && Holds(query[..], offset, done)
    {
      InsertPrefixFits(k, batch, i);
      var row: Option<string>;
      IsKind(k, batch, i);
      if k.PumpfunKind? {
        row := TradeRow(batch[i]);
      } else {
        row := SwapRow(batch[i]);
      }
      if row.Some? {
        HoldsLength(query[..], offset, done);
        if i > 0 {
          n := Append(query, offset, done, ",");
          offset := offset + n;
          done := done + ",";
        }
        n := Append(query, offset, done, row.value);
        offset := offset + n;
        done := done + row.value;
      }
    }
    assert batch[..|batch|] == batch;
  }

  lemma IsKind(k: Kind, batch: seq<Event>, i: nat)
    requires AllOf(k, batch) && i < |batch|
    ensures if k.PumpfunKind? then batch[i].TradeEvent? else batch[i].SwapEvent?
  {
  }

  lemma HoldsLength(buf: seq<char>, offset: nat, done: string)
    requires Holds(buf, offset, done)
    ensures |done| == offset < |buf|
  {
  }

  lemma BufferHoldsHeader(k: Kind, n: nat)
    ensures |Header(k)| < BufferSize(k, n)
  {
    HeaderFits(k);
    BufferGrows(k, 0, n);
  }

  lemma InsertStarts(k: Kind, batch: seq<Event>, buf: seq<char>)
    requires |Header(k)| < |buf| && buf[0..|Header(k)|] == Header(k) && buf[|Header(k)|] == '\0'
    ensures AllOf(k, batch[..0]) && Insert(k, batch[..0]) == Header(k)
    ensures Holds(buf, |Header(k)|, Header(k))
  {
    assert batch[..0] == [];
    InsertNothing(k);
  }
}
