/** src/geyser_client.c: what a transaction update puts on the queue. */
module GeyserClient {
  import opened Common
  import opened LittleEndian
  import opened Events
  import Positional
  import Base58
  import Base58Codec
  import Base64
  import Base64Codec
  import Pumpfun
  import Raydium
  import SqlLossless

  const PUMPFUN_SCRATCH: nat := 768
  const RAYDIUM_SCRATCH: nat := 512

  /** What of a transaction update the two processors read; no log messages when there is no meta. */
  datatype Update = Update(slot: Option<uint64>, signature: seq<byte>, lines: seq<string>)

  // ---- The signature field ----

  /** The text of the signature if the field holds it with its terminator. */
  function SignatureText(sig: seq<byte>): signature {
    if |sig| > 0 && |Base58.EncodeText(sig)| < SIGNATURE_CELLS then Base58.EncodeText(sig) else ""
  }

  method WriteSignature(sig: seq<byte>) returns (text: signature)
    ensures text == SignatureText(sig)
  {
    var field := new char[SIGNATURE_CELLS](_ => '\0');
    if |sig| > 0 {
      var n := Base58Codec.Encode(sig, field);
      if n >= 0 {
        return field[..n];
      }
    }
    return "";
  }

  /** A 64-byte signature is left blank exactly when its value needs 88 digits; otherwise the text
      decodes to the signature. */
  lemma SignatureRecorded(sig: seq<byte>)
    requires |sig| == 64
    ensures var z := Positional.LeadingZeros(sig);
      SignatureText(sig) == "" <==> z <= 1 && Positional.Val(256, sig) >= Positional.Pow(58, 87 - z)
    ensures SignatureText(sig) != "" ==> Base58.DecodeText(SignatureText(sig)) == Some(sig)
  {
    Base58.SignatureOverflows(sig);
    Base58.DecodeEncode(sig);
    Base58.EncodedLengthAtLeast(sig);
    hide Base58.EncodeText, Base58.DecodeText;
  }

  /** Such as every signature whose first byte is at least 64. */
  lemma SignatureBlank(sig: seq<byte>)
    requires |sig| == 64 && sig[0] >= 64
    ensures SignatureText(sig) == ""
  {
    Base58.FirstByteOverflows(sig);
    hide Base58.EncodeText;
  }

  // ---- PumpFun ----

  function LineTrade(line: string): Option<Pumpfun.Trade> {
    Pumpfun.LogLineTrade(line, PUMPFUN_SCRATCH)
  }

  /** The first log line that holds a trade makes the event. */
  function PumpfunEvent(u: Update): Option<Event> {
    FirstTrade(u, u.lines)
  }

  function FirstTrade(u: Update, lines: seq<string>): Option<Event> {
    if lines == [] then None
    else match LineTrade(lines[0])
      case Some(t) => Some(EventOf(u, t))
      case None => FirstTrade(u, lines[1..])
  }

  function EventOf(u: Update, t: Pumpfun.Trade): (e: Event)
    ensures e.TradeEvent?
  {
    TradeEvent(SignatureText(u.signature), t.(slot := if u.slot.Some? then u.slot.value else 0))
  }

  /** process_pumpfun, with the event it dispatches, if any. The decode buffer is shared by all lines. */
  method ProcessPumpfun(u: Update) returns (event: Option<Event>)
    ensures event == PumpfunEvent(u)
  {
    hide Pumpfun.ScratchHolds, Pumpfun.LineData, Pumpfun.Overlay, SignatureText;
    var buffer := new byte[PUMPFUN_SCRATCH](_ => 0);
    var i := 0;
    while i < |u.lines|
      invariant 0 <= i <= |u.lines|
      invariant PumpfunEvent(u) == FirstTrade(u, u.lines[i..])
    {
      Pumpfun.ScratchOfGroups(u.lines[i], PUMPFUN_SCRATCH);
      assert u.lines[i..][1..] == u.lines[i + 1..];
      var decoded := Pumpfun.DecodeLine(u.lines[i], buffer);
      if decoded.Bytes? {
        var trade := new Pumpfun.TradeRecord();
        var ok := trade.Parse(buffer[..decoded.n]);
        if ok {
          trade.slot := if u.slot.Some? then u.slot.value else 0;
          var text := WriteSignature(u.signature);
          return Some(TradeEvent(text, trade.Value()));
        }
      }
      i := i + 1;
    }
    return None;
  }

  /** Log line i carries a serialised trade, with `extra` behind it, and no earlier line holds one. */
  ghost predicate CarriesTrade(u: Update, i: nat, l: Pumpfun.Layout, extra: seq<byte>) {
    && i < |u.lines| && Pumpfun.Carries(u.lines[i], Pumpfun.Serialize(l) + extra)
    && Pumpfun.RECORD_SIZE + |extra| <= PUMPFUN_SCRATCH
    && forall j :: 0 <= j < i ==> LineTrade(u.lines[j]) == None
  }

  /** Such an update becomes an event with the fields of the trade. */
  lemma TradeArrives(u: Update, i: nat, l: Pumpfun.Layout, extra: seq<byte>)
    requires CarriesTrade(u, i, l, extra)
    ensures PumpfunEvent(u) == Some(EventOf(u, Pumpfun.TradeOf(l)))
  {
    Pumpfun.LogLineRoundTrip(u.lines[i], l, extra, PUMPFUN_SCRATCH);
    hide Pumpfun.TradeOf, EventOf, LineTrade;
    ScanLine(u.lines[i]);
    FirstTradeAt(u, u.lines, i);
  }

  /** What the event of such an update holds: each field from its field of the layout, the slot of the
      update or 0, and the text of the signature, blank exactly when there is none or it does not fit. */
  lemma EventHolds(u: Update, i: nat, l: Pumpfun.Layout, extra: seq<byte>)
    requires CarriesTrade(u, i, l, extra)
    ensures PumpfunEvent(u).Some? && PumpfunEvent(u).value.TradeEvent?
    ensures var t := PumpfunEvent(u).value.trade;
      && t.mint == l.mint && t.trader == l.user && t.creator == l.creator && t.isBuy == (l.isBuy != 0)
      && t.solAmount == l.solAmount && t.tokenAmount == l.tokenAmount
      && t.virtualSol == l.virtualSol && t.virtualToken == l.virtualToken
      && t.realSol == l.realSol && t.realToken == l.realToken
      && t.feeBasisPoints == l.feeBasisPoints && t.feeLamports == l.fee
      && t.creatorFeeBasisPoints == l.creatorFeeBasisPoints && t.creatorFeeLamports == l.creatorFee
      && t.timestamp == l.timestamp && t.slot == if u.slot.Some? then u.slot.value else 0
    ensures var s := PumpfunEvent(u).value.signature;
      && (s == "" <==> u.signature == [] || |Base58.EncodeText(u.signature)| >= 88)
      && (s != "" ==> Base58.DecodeText(s) == Some(u.signature))
  {
    TradeArrives(u, i, l, extra);
    hide PumpfunEvent, CarriesTrade;
    SignatureHolds(u.signature);
    hide SignatureText, Base58.EncodeText, Base58.DecodeText;
  }

  lemma SignatureHolds(sig: seq<byte>)
    ensures var s := SignatureText(sig);
      && (s == "" <==> sig == [] || |Base58.EncodeText(sig)| >= 88)
      && (s != "" ==> Base58.DecodeText(s) == Some(sig))
  {
    Base58.DecodeEncode(sig);
    Base58.EncodedLengthAtLeast(sig);
    hide Base58.EncodeText, Base58.DecodeText;
  }

  /** A line carrying bytes makes an event exactly when there are 250 to 768 of them. */
  lemma LineMakesEvent(u: Update, data: seq<byte>)
    requires |u.lines| == 1 && Pumpfun.Carries(u.lines[0], data)
    ensures PumpfunEvent(u).Some? <==> 250 <= |data| <= 768
  {
    Pumpfun.LogLineAccepts(u.lines[0], data, 768);
    ScanLine(u.lines[0]);
    hide LineTrade, EventOf, Pumpfun.LogLineTrade;
    assert FirstTrade(u, u.lines[1..]) == None;
  }

  /** Every trade can arrive: in an update with one log line. */
  lemma EveryTradeArrives(slot: Option<uint64>, signature: seq<byte>, l: Pumpfun.Layout)
    ensures var u := Update(slot, signature, [Pumpfun.MARKER + Base64.Encode(Pumpfun.Serialize(l))]);
      CarriesTrade(u, 0, l, []) && PumpfunEvent(u) == Some(EventOf(u, Pumpfun.TradeOf(l)))
  {
    var u := Update(slot, signature, [Pumpfun.MARKER + Base64.Encode(Pumpfun.Serialize(l))]);
    Pumpfun.MarkerCarries(Pumpfun.Serialize(l));
    assert Pumpfun.Serialize(l) + [] == Pumpfun.Serialize(l);
    TradeArrives(u, 0, l, []);
  }

  lemma ScanLine(line: string)
    ensures Pumpfun.LogLineTrade(line, PUMPFUN_SCRATCH) == LineTrade(line)
  {
  }

  lemma {:induction false} FirstTradeAt(u: Update, lines: seq<string>, i: nat)
    requires i < |lines| && LineTrade(lines[i]).Some? && forall j :: 0 <= j < i ==> LineTrade(lines[j]) == None
    ensures FirstTrade(u, lines) == Some(EventOf(u, LineTrade(lines[i]).value))
  {
    hide LineTrade, EventOf;
    if i > 0 {
      assert LineTrade(lines[0]) == None;
      FirstTradeAt(u, lines[1..], i - 1);
    }
  }

  /** Events that the client makes have signatures over the base-58 alphabet, as the lossless
      statement text needs. */
  lemma EventSigned(u: Update)
    ensures PumpfunEvent(u).Some? ==> PumpfunEvent(u).value.TradeEvent? && SqlLossless.Signed(PumpfunEvent(u).value)
  {
    FirstTradeSigned(u, u.lines);
  }

  lemma {:induction false} FirstTradeSigned(u: Update, lines: seq<string>)
    ensures FirstTrade(u, lines).Some? ==>
      FirstTrade(u, lines).value.TradeEvent? && SqlLossless.Signed(FirstTrade(u, lines).value)
  {
    hide LineTrade;
    if lines != [] {
      TextInAlphabet(u.signature);
      hide SignatureText;
      FirstTradeSigned(u, lines[1..]);
    }
  }

  lemma TextInAlphabet(sig: seq<byte>)
    ensures Base58.InAlphabet(SignatureText(sig))
  {
    Base58.DecodeDomain(Base58.EncodeText(sig));
  }

  // ---- Raydium ----

  /** Whatever the decode of a log line admits into 512 bytes is shorter than any swap the parser
      accepts. */
  lemma NoSwapInScratch(line: string)
    ensures Pumpfun.LineData(line, 512).Some? ==> !Raydium.Accepted(Pumpfun.LineData(line, 512).value)
  {
    if Pumpfun.LineData(line, RAYDIUM_SCRATCH).Some? {
      var text := Pumpfun.Payload(line).value;
      ShortOf(|Pumpfun.LineData(line, RAYDIUM_SCRATCH).value|, |text|, Base64Codec.Padding(text));
    }
  }

  lemma ShortOf(n: nat, len: nat, padding: nat)
    requires 8 * n <= 6 * len && padding <= 2 && (len + 3) / 4 * 3 <= RAYDIUM_SCRATCH + padding
    ensures n < 577
  {
  }

  /** The swap has the fields that the bytes hold, and the slot of the update. */
  predicate HoldsSwap(swap: Swap, u: Update, data: seq<byte>)
    requires Raydium.Accepted(data)
  {
    var owner := Raydium.TailStart(data) + 384;
    && swap.amm == data[64..96] && swap.owner == data[owner..owner + 32]
    && swap.amountIn == Read64(data[0..8]) && swap.amountOut == Read64(data[24..32])
    && swap.slot == if u.slot.Some? then u.slot.value else 0
  }

  /** One turn of process_raydium's loop; not `inside` when the decoding overruns the buffer. */
  method SwapInLine(u: Update, line: string, buffer: array<byte>) returns (event: Option<Event>, inside: bool)
    modifies buffer
    ensures inside <==> Pumpfun.ScratchHolds(line, buffer.Length)
    ensures var data := Pumpfun.LineData(line, buffer.Length);
      && (!inside || data.None? || !Raydium.Accepted(data.value) ==> event == None)
      && (inside && data.Some? && Raydium.Accepted(data.value) ==>
          && event.Some? && event.value.SwapEvent? && event.value.signature == SignatureText(u.signature)
          && HoldsSwap(event.value.swap, u, data.value))
  {
    hide Pumpfun.ScratchHolds, Pumpfun.LineData, SignatureText, Read64;
    var decoded := Pumpfun.DecodeLine(line, buffer);
    match decoded {
      case Refused => return None, true;
      case Overrun => return None, false;
      case Bytes(n) =>
        var swap := new Raydium.SwapRecord();
        var ok := swap.Parse(buffer[..n]);
        if !ok { return None, true; }
        swap.slot := if u.slot.Some? then u.slot.value else 0;
        var text := WriteSignature(u.signature);
        return Some(SwapEvent(text, Swap(swap.amm, swap.owner, swap.amountIn, swap.amountOut, swap.slot))), true;
    }
  }

  /** process_raydium: no line ever makes it dispatch an event. It stays inside its buffer unless
      some line's decoding overruns it. */
  method ProcessRaydium(u: Update) returns (event: Option<Event>, inside: bool)
    ensures event == None
    ensures inside <==> forall i :: 0 <= i < |u.lines| ==> Pumpfun.ScratchHolds(u.lines[i], 512)
  {
    hide Pumpfun.ScratchHolds, Pumpfun.LineData, Raydium.Accepted;
    var buffer := new byte[RAYDIUM_SCRATCH](_ => 0);
    event, inside := None, true;
    var i := 0;
    while i < |u.lines| && event.None? && inside
      invariant 0 <= i <= |u.lines|
      invariant event == None
      invariant inside <==> forall j :: 0 <= j < i ==> Pumpfun.ScratchHolds(u.lines[j], RAYDIUM_SCRATCH)
    {
      NoSwapInScratch(u.lines[i]);
      event, inside := SwapInLine(u, u.lines[i], buffer);
      i := i + 1;
    }
  }
}
