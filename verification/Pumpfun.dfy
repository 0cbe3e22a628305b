/** src/pumpfun_parser.c: a packed 250-byte little-endian record overlaid on decoded bytes, and the
    log-line scanner that finds and decodes the record. */
module Pumpfun {
  import opened Common
  import opened Positional
  import opened LittleEndian
  import opened Strings
  import Base64
  import opened Base64Codec

  // ---- The record ----

  /** pumpfun_trade_layout_t */
  datatype Layout = Layout(
    mint: pubkey, solAmount: uint64, tokenAmount: uint64, isBuy: byte, user: pubkey, timestamp: int64,
    virtualSol: uint64, virtualToken: uint64, realSol: uint64, realToken: uint64, feeRecipient: pubkey,
    feeBasisPoints: uint64, fee: uint64, creator: pubkey, creatorFeeBasisPoints: uint64, creatorFee: uint64,
    trackVolume: byte, totalUnclaimed: uint64, totalClaimed: uint64, currentSolVolume: uint64,
    lastUpdate: int64)

  /** The fields in declaration order, packed. */
  function Fields(l: Layout): (fs: seq<seq<byte>>)
    ensures |fs| == 21 && forall k :: 0 <= k < 21 ==> |fs[k]| == FieldSize(k)
  {
    [l.mint, Bytes64(l.solAmount), Bytes64(l.tokenAmount), [l.isBuy], l.user, Bytes64(Wrap(l.timestamp))]
    + [Bytes64(l.virtualSol), Bytes64(l.virtualToken), Bytes64(l.realSol), Bytes64(l.realToken), l.feeRecipient]
    + [Bytes64(l.feeBasisPoints), Bytes64(l.fee), l.creator, Bytes64(l.creatorFeeBasisPoints), Bytes64(l.creatorFee)]
    + [[l.trackVolume], Bytes64(l.totalUnclaimed), Bytes64(l.totalClaimed), Bytes64(l.currentSolVolume),
       Bytes64(Wrap(l.lastUpdate))]
  }

  function FieldSize(k: nat): nat {
    if k == 0 || k == 4 || k == 10 || k == 13 then 32 else if k == 3 || k == 16 then 1 else 8
  }

  function Concat(fs: seq<seq<byte>>): seq<byte> {
    if fs == [] then [] else Concat(fs[..|fs| - 1]) + fs[|fs| - 1]
  }

  function Serialize(l: Layout): seq<byte> {
    Concat(Fields(l))
  }

  // ---- The event ----

  /** yurei_pumpfun_trade_t */
  datatype Trade = Trade(
    mint: pubkey, trader: pubkey, creator: pubkey, solAmount: uint64, tokenAmount: uint64, isBuy: bool,
    virtualSol: uint64, virtualToken: uint64, realSol: uint64, realToken: uint64,
    feeBasisPoints: uint64, feeLamports: uint64, creatorFeeBasisPoints: uint64, creatorFeeLamports: uint64,
    slot: uint64, timestamp: int64)

  /** What the trade carries over from the record. */
  function TradeOf(l: Layout): Trade {
    Trade(l.mint, l.user, l.creator, l.solAmount, l.tokenAmount, l.isBuy != 0,
          l.virtualSol, l.virtualToken, l.realSol, l.realToken,
          l.feeBasisPoints, l.fee, l.creatorFeeBasisPoints, l.creatorFee, 0, l.timestamp)
  }

  const RECORD_SIZE: nat := 250

  /** The overlay: every field at its byte offset. */
  function Overlay(data: seq<byte>): Trade
    requires RECORD_SIZE <= |data|
  {
    Trade(data[0..32], data[49..81], data[169..201], Read64(data[32..40]), Read64(data[40..48]), data[48] != 0,
          Read64(data[89..97]), Read64(data[97..105]), Read64(data[105..113]), Read64(data[113..121]),
          Read64(data[153..161]), Read64(data[161..169]), Read64(data[201..209]), Read64(data[209..217]),
          0, Signed(Read64(data[81..89])))
  }

  // ---- Parsing what was serialised ----

  function Offset(k: nat): nat {
    if k == 0 then 0 else Offset(k - 1) + FieldSize(k - 1)
  }

  lemma Offsets()
    ensures Offset(0) == 0 && Offset(1) == 32 && Offset(2) == 40 && Offset(3) == 48 && Offset(4) == 49
    ensures Offset(5) == 81 && Offset(6) == 89 && Offset(7) == 97 && Offset(8) == 105 && Offset(9) == 113
    ensures Offset(10) == 121 && Offset(11) == 153 && Offset(12) == 161 && Offset(13) == 169 && Offset(14) == 201
    ensures Offset(15) == 209 && Offset(16) == 217 && Offset(21) == RECORD_SIZE
  {
    assert Offset(2) == 40;
    assert Offset(4) == 49;
    assert Offset(6) == 89;
    assert Offset(8) == 105;
    assert Offset(10) == 121;
    assert Offset(12) == 161;
    assert Offset(14) == 201;
    assert Offset(16) == 217;
    assert Offset(18) == 226;
    assert Offset(20) == 242;
  }

  lemma {:induction false} ConcatSize(fs: seq<seq<byte>>, k: nat)
    requires k <= |fs| && forall i :: 0 <= i < |fs| ==> |fs[i]| == FieldSize(i)
    ensures |Concat(fs[..k])| == Offset(k)
  {
    if k > 0 {
      ConcatSize(fs, k - 1);
      assert fs[..k][..k - 1] == fs[..k - 1];
    }
  }

  lemma ConcatSnoc(fs: seq<seq<byte>>, n: nat)
    requires 0 < n <= |fs|
    ensures Concat(fs[..n]) == Concat(fs[..n - 1]) + fs[n - 1]
  {
    assert fs[..n][..n - 1] == fs[..n - 1];
  }

  lemma SliceSuffix(s: seq<byte>, tail: seq<byte>, m: nat, n: nat)
    requires |s| == m && |tail| == n
    ensures (s + tail)[m..m + n] == tail
  {
  }

  /** Every field sits at the sum of the sizes before it. */
  lemma {:induction false} FieldAt(fs: seq<seq<byte>>, k: nat, n: nat)
    requires k < n <= |fs| && forall i :: 0 <= i < |fs| ==> |fs[i]| == FieldSize(i)
    ensures Offset(k) + FieldSize(k) <= |Concat(fs[..n])|
    ensures Concat(fs[..n])[Offset(k)..Offset(k) + FieldSize(k)] == fs[k]
    decreases n
  {
    hide *;
    ConcatSnoc(fs, n);
    if k < n - 1 {
      FieldAt(fs, k, n - 1);
      SlicePrefix(Concat(fs[..n - 1]), fs[n - 1], Offset(k), Offset(k) + FieldSize(k));
    } else {
      ConcatSize(fs, k);
      SliceSuffix(Concat(fs[..k]), fs[k], Offset(k), FieldSize(k));
    }
  }

  lemma SerializedField(l: Layout, tail: seq<byte>, k: nat)
    requires k < 21
    ensures |Serialize(l)| == Offset(21)
    ensures Offset(k) + FieldSize(k) <= |Serialize(l)|
    ensures (Serialize(l) + tail)[Offset(k)..Offset(k) + FieldSize(k)] == Fields(l)[k]
  {
    hide Fields, Concat, Offset, FieldSize;
    var fs := Fields(l);
    ConcatSize(fs, 21);
    FieldAt(fs, k, 21);
    assert fs[..21] == fs;
    SlicePrefix(Serialize(l), tail, Offset(k), Offset(k) + FieldSize(k));
  }

  lemma FieldIs(l: Layout, k: nat, from: nat, to: nat)
    requires k < 21 && from == Offset(k) && to == from + FieldSize(k)
    ensures |Serialize(l)| == Offset(21) && to <= |Serialize(l)| && Serialize(l)[from..to] == Fields(l)[k]
  {
    hide *;
    var none: seq<byte> := [];
    SerializedField(l, none, k);
    assert Serialize(l) + none == Serialize(l);
  }

  lemma FieldBytes(l: Layout)
    ensures var f := Fields(l);
      && f[0] == l.mint && f[1] == Bytes64(l.solAmount) && f[2] == Bytes64(l.tokenAmount) && f[3] == [l.isBuy]
      && f[4] == l.user && f[5] == Bytes64(Wrap(l.timestamp)) && f[6] == Bytes64(l.virtualSol)
      && f[7] == Bytes64(l.virtualToken) && f[8] == Bytes64(l.realSol) && f[9] == Bytes64(l.realToken)
      && f[10] == l.feeRecipient && f[11] == Bytes64(l.feeBasisPoints) && f[12] == Bytes64(l.fee)
      && f[13] == l.creator && f[14] == Bytes64(l.creatorFeeBasisPoints) && f[15] == Bytes64(l.creatorFee)
      && f[16] == [l.trackVolume] && f[17] == Bytes64(l.totalUnclaimed) && f[18] == Bytes64(l.totalClaimed)
      && f[19] == Bytes64(l.currentSolVolume) && f[20] == Bytes64(Wrap(l.lastUpdate))
  {
  }

  /** The packed layout byte by byte. */
  lemma SerializedAt(l: Layout)
    ensures var s := Serialize(l);
      && |s| == 250
      && s[0..32] == l.mint && s[32..40] == Bytes64(l.solAmount) && s[40..48] == Bytes64(l.tokenAmount)
      && s[48..49] == [l.isBuy] && s[49..81] == l.user && s[81..89] == Bytes64(Wrap(l.timestamp))
      && s[89..97] == Bytes64(l.virtualSol) && s[97..105] == Bytes64(l.virtualToken)
      && s[105..113] == Bytes64(l.realSol) && s[113..121] == Bytes64(l.realToken) && s[121..153] == l.feeRecipient
      && s[153..161] == Bytes64(l.feeBasisPoints) && s[161..169] == Bytes64(l.fee) && s[169..201] == l.creator
      && s[201..209] == Bytes64(l.creatorFeeBasisPoints) && s[209..217] == Bytes64(l.creatorFee)
      && s[217..218] == [l.trackVolume] && s[218..226] == Bytes64(l.totalUnclaimed)
      && s[226..234] == Bytes64(l.totalClaimed) && s[234..242] == Bytes64(l.currentSolVolume)
      && s[242..250] == Bytes64(Wrap(l.lastUpdate))
  {
    Offsets();
    LastOffsets();
    FieldBytes(l);
    hide Serialize, Fields, Offset, Bytes64;
    FieldIs(l, 0, 0, 32);
    FieldIs(l, 1, 32, 40);
    FieldIs(l, 2, 40, 48);
    FieldIs(l, 3, 48, 49);
    FieldIs(l, 4, 49, 81);
    FieldIs(l, 5, 81, 89);
    FieldIs(l, 6, 89, 97);
    FieldIs(l, 7, 97, 105);
    FieldIs(l, 8, 105, 113);
    FieldIs(l, 9, 113, 121);
    FieldIs(l, 10, 121, 153);
    FieldIs(l, 11, 153, 161);
    FieldIs(l, 12, 161, 169);
    FieldIs(l, 13, 169, 201);
    FieldIs(l, 14, 201, 209);
    FieldIs(l, 15, 209, 217);
    FieldIs(l, 16, 217, 218);
    FieldIs(l, 17, 218, 226);
    FieldIs(l, 18, 226, 234);
    FieldIs(l, 19, 234, 242);
    FieldIs(l, 20, 242, 250);
  }

  lemma LastOffsets()
    ensures Offset(17) == 218 && Offset(18) == 226 && Offset(19) == 234 && Offset(20) == 242
  {
    Offsets();
  }

  lemma SlicePrefix(s: seq<byte>, tail: seq<byte>, from: nat, to: nat)
    requires from <= to <= |s|
    ensures (s + tail)[from..to] == s[from..to]
  {
  }

  /** The overlay of a serialised record, whatever follows it, is the record. */
  lemma OverlaySerialize(l: Layout, tail: seq<byte>)
    ensures |Serialize(l)| == RECORD_SIZE
    ensures Overlay(Serialize(l) + tail) == TradeOf(l)
  {
    Offsets();
    SerializedField(l, tail, 0);
    OverlayKeys(l, tail);
    OverlayNumbers(l, tail);
  }

  lemma OverlayKeys(l: Layout, tail: seq<byte>)
    requires |Serialize(l)| == RECORD_SIZE
    ensures var data := Serialize(l) + tail;
      data[0..32] == l.mint && data[49..81] == l.user && data[169..201] == l.creator && data[48] == l.isBuy
  {
    Offsets();
    SerializedField(l, tail, 0);
    SerializedField(l, tail, 4);
    SerializedField(l, tail, 13);
    SerializedField(l, tail, 3);
    assert (Serialize(l) + tail)[48..49] == [l.isBuy];
    hide Serialize, Offset;
  }

  lemma NumberAt(l: Layout, tail: seq<byte>, k: nat, v: uint64)
    requires k < 21 && Fields(l)[k] == Bytes64(v)
    ensures |Serialize(l)| == Offset(21) && Offset(k) + 8 <= |Serialize(l)|
    ensures Read64((Serialize(l) + tail)[Offset(k)..Offset(k) + 8]) == v
  {
    SerializedField(l, tail, k);
    assert FieldSize(k) == 8;
    ReadBytes64(v);
  }

  lemma OverlayNumbers(l: Layout, tail: seq<byte>)
    requires |Serialize(l)| == RECORD_SIZE
    ensures var data := Serialize(l) + tail;
      && Read64(data[32..40]) == l.solAmount && Read64(data[40..48]) == l.tokenAmount
      && Signed(Read64(data[81..89])) == l.timestamp
      && Read64(data[89..97]) == l.virtualSol && Read64(data[97..105]) == l.virtualToken
      && Read64(data[105..113]) == l.realSol && Read64(data[113..121]) == l.realToken
      && Read64(data[153..161]) == l.feeBasisPoints && Read64(data[161..169]) == l.fee
      && Read64(data[201..209]) == l.creatorFeeBasisPoints && Read64(data[209..217]) == l.creatorFee
  {
    Offsets();
    NumberAt(l, tail, 1, l.solAmount);
    NumberAt(l, tail, 2, l.tokenAmount);
    NumberAt(l, tail, 5, Wrap(l.timestamp));
    SignedWrap(l.timestamp);
    NumberAt(l, tail, 6, l.virtualSol);
    NumberAt(l, tail, 7, l.virtualToken);
    NumberAt(l, tail, 8, l.realSol);
    NumberAt(l, tail, 9, l.realToken);
    NumberAt(l, tail, 11, l.feeBasisPoints);
    NumberAt(l, tail, 12, l.fee);
    NumberAt(l, tail, 14, l.creatorFeeBasisPoints);
    NumberAt(l, tail, 15, l.creatorFee);
  }

  // ---- pumpfun_parse_trade ----

  /** The event structure that the parser fills in place. */
  class TradeRecord {
    var mint: pubkey
    var trader: pubkey
    var creator: pubkey
    var solAmount: uint64
    var tokenAmount: uint64
    var isBuy: bool
    var virtualSol: uint64
    var virtualToken: uint64
    var realSol: uint64
    var realToken: uint64
    var feeBasisPoints: uint64
    var feeLamports: uint64
    var creatorFeeBasisPoints: uint64
    var creatorFeeLamports: uint64
    var slot: uint64
    var timestamp: int64

    constructor ()
    {
      var zero: pubkey := seq(32, _ => 0);
      mint, trader, creator := zero, zero, zero;
      solAmount, tokenAmount, isBuy := 0, 0, false;
      virtualSol, virtualToken, realSol, realToken := 0, 0, 0, 0;
      feeBasisPoints, feeLamports, creatorFeeBasisPoints, creatorFeeLamports := 0, 0, 0, 0;
      slot, timestamp := 0, 0;
    }

    function Value(): Trade
      reads this
    {
      Trade(mint, trader, creator, solAmount, tokenAmount, isBuy, virtualSol, virtualToken, realSol, realToken,
            feeBasisPoints, feeLamports, creatorFeeBasisPoints, creatorFeeLamports, slot, timestamp)
    }

    /** False, and nothing written, when the record is cut short; bytes behind it are ignored. */
    method Parse(data: seq<byte>) returns (ok: bool)
      modifies this
      ensures ok <==> RECORD_SIZE <= |data|
      ensures Value() == if ok then Overlay(data) else old(Value())
    {
      hide Read64, Signed;
      if |data| < RECORD_SIZE {
        return false;
      }
      CopyKeys(data);
      CopyReserves(data);
      CopyFees(data);
      return true;
    }

    method CopyKeys(data: seq<byte>)
      requires RECORD_SIZE <= |data|
      modifies `mint, `trader, `creator
      ensures mint == data[0..32] && trader == data[49..81] && creator == data[169..201]
    {
      mint := data[0..32];
      trader := data[49..81];
      creator := data[169..201];
    }

    method CopyReserves(data: seq<byte>)
      requires RECORD_SIZE <= |data|
      modifies `solAmount, `tokenAmount, `isBuy, `virtualSol, `virtualToken, `realSol, `realToken
      ensures solAmount == Read64(data[32..40]) && tokenAmount == Read64(data[40..48])
      ensures isBuy == (data[48] != 0)
      ensures virtualSol == Read64(data[89..97]) && virtualToken == Read64(data[97..105])
      ensures realSol == Read64(data[105..113]) && realToken == Read64(data[113..121])
    {
      solAmount := Read64(data[32..40]);
      tokenAmount := Read64(data[40..48]);
      isBuy := data[48] != 0;
      virtualSol := Read64(data[89..97]);
      virtualToken := Read64(data[97..105]);
      realSol := Read64(data[105..113]);
      realToken := Read64(data[113..121]);
    }

    method CopyFees(data: seq<byte>)
      requires RECORD_SIZE <= |data|
      modifies `feeBasisPoints, `feeLamports, `creatorFeeBasisPoints, `creatorFeeLamports, `timestamp, `slot
      ensures feeBasisPoints == Read64(data[153..161]) && feeLamports == Read64(data[161..169])
      ensures creatorFeeBasisPoints == Read64(data[201..209]) && creatorFeeLamports == Read64(data[209..217])
      ensures timestamp == Signed(Read64(data[81..89])) && slot == 0
    {
      feeBasisPoints := Read64(data[153..161]);
      feeLamports := Read64(data[161..169]);
      creatorFeeBasisPoints := Read64(data[201..209]);
      creatorFeeLamports := Read64(data[209..217]);
      timestamp := Signed(Read64(data[81..89]));
      slot := 0;
    }

    /** pumpfun_parse_log_line, with its 512-byte decode buffer; not `inside` when the decoding
        overruns the buffer. */
    method ParseLogLine(line: string) returns (ok: bool, inside: bool)
      modifies this
      ensures inside <==> ScratchHolds(line, 512)
      ensures ok <==> inside && LogLineTrade(line, 512).Some?
      ensures Value() == if ok then LogLineTrade(line, 512).value else old(Value())
    {
      var buffer := new byte[512](_ => 0);
      var decoded := DecodeLine(line, buffer);
      match decoded {
        case Refused => return false, true;
        case Overrun => return false, false;
        case Bytes(n) =>
          ok := Parse(buffer[..n]);
          inside := true;
      }
    }
  }

  // ---- Log lines ----

  const MARKER: string := "Program data: "

  /** What follows the first marker of a line, if anything does. */
  function Payload(line: string): Option<string> {
    match Find(line, MARKER)
    case None => None
    case Some(p) => if p + |MARKER| == |line| then None else Some(line[p + |MARKER|..])
  }

  /** The payload of any line: all that follows the leftmost marker, if that is not empty. */
  lemma PayloadExactly(line: string)
    ensures forall p ::
      Occurs(line, "Program data: ", p) && (forall q :: Occurs(line, "Program data: ", q) ==> p <= q) ==>
      Payload(line) == if p + 14 == |line| then None else Some(line[p + 14..])
    ensures (forall p :: !Occurs(line, "Program data: ", p)) ==> Payload(line) == None
  {
    assert |MARKER| == 14;
    hide Occurs;
    var found := Find(line, MARKER);
    assert found.Some? ==> Occurs(line, MARKER, found.value);
  }

  /** The bytes that the payload decodes to in a buffer of `cap` bytes. */
  function LineData(line: string, cap: nat): Option<seq<byte>> {
    match Payload(line)
    case None => None
    case Some(text) => if cap < DecodedSize(text) then None else Some(Base64.Unpack(Base64.Sextets(text)))
  }

  function LogLineTrade(line: string, cap: nat): Option<Trade> {
    match LineData(line, cap)
    case None => None
    case Some(data) => if |data| < RECORD_SIZE then None else Some(Overlay(data))
  }

  /** Whatever the size check admits fits the buffer. */
  predicate ScratchHolds(line: string, cap: nat) {
    LineData(line, cap).Some? ==> |LineData(line, cap).value| <= cap
  }

  /** The scan and decode of src/geyser_client.c:129-139 and src/pumpfun_parser.c:65-76. */
  method DecodeLine(line: string, buffer: array<byte>) returns (r: Decoded)
    modifies buffer
    ensures r.Refused? <==> LineData(line, buffer.Length) == None
    ensures r.Overrun? <==> !ScratchHolds(line, buffer.Length)
    ensures r.Bytes? ==> r.n <= buffer.Length && LineData(line, buffer.Length) == Some(buffer[..r.n])
  {
    var pos := Find(line, MARKER);
    if pos.None? {
      return Refused;
    }
    var text := line[pos.value + |MARKER|..];
    if |text| == 0 {
      return Refused;
    }
    assert Payload(line) == Some(text);
    r := Base64Codec.Decode(text, buffer, buffer.Length);
    if r.Bytes? {
      Base64.SameBitsUnique(Base64.Sextets(text), buffer[..r.n]);
    }
  }

  /** The only payloads that the size check admits and a 512-byte buffer does not hold. */
  lemma Scratch512(text: string)
    requires DecodedSize(text) <= 512
    ensures Produced(text) <= 512 <==> !(|text| == 684 && |Base64.Sextets(text)| == 684)
  {
  }

  /** Canonical encodings of 511 and of 512 bytes are among them: both pass the check, and decode to
      513 bytes. */
  lemma ScratchOverrun(line: string, data: seq<byte>)
    requires Carries(line, data)
    ensures ScratchHolds(line, 512) <==> |data| != 511 && |data| != 512
  {
    CarriedData(line, data, 512);
    PaddedScratch(|data|);
    hide Carries, LineData, Base64.PaddingOf;
  }

  lemma PaddedScratch(n: nat)
    ensures n <= 512 ==> (n + Base64.PaddingOf(n) <= 512 <==> n != 511 && n != 512)
  {
  }

  /** A buffer of a whole number of three-byte groups, such as the 768 bytes of process_pumpfun,
      holds everything that the check admits. */
  lemma ScratchOfGroups(line: string, cap: nat)
    requires cap % 3 == 0
    ensures ScratchHolds(line, cap)
  {
    if LineData(line, cap).Some? {
      var text := Payload(line).value;
      assert |LineData(line, cap).value| == Produced(text);
      GroupsFit(|Base64.Sextets(text)|, |text|, Padding(text), cap);
    }
  }

  lemma GroupsFit(v: nat, n: nat, padding: nat, cap: nat)
    requires v <= n && padding <= 2 && cap % 3 == 0 && (n + 3) / 4 * 3 <= cap + padding
    ensures 6 * v / 8 <= cap
  {
  }

  // ---- End to end ----

  /** A line that carries `data`, with nothing that looks like the marker before it. */
  ghost predicate Carries(line: string, data: seq<byte>) {
    exists prefix: string :: line == prefix + MARKER + Base64.Encode(data) && Find(line, MARKER) == Some(|prefix|)
  }

  /** Such as the marker and the encoding alone. */
  lemma MarkerCarries(data: seq<byte>)
    ensures Carries("Program data: " + Base64.Encode(data), data)
  {
    hide Base64.Encode;
    var line: string := MARKER + Base64.Encode(data);
    var none: string := "";
    assert line[0..0 + |MARKER|] == MARKER;
    assert Occurs(line, MARKER, 0);
    assert Find(line, MARKER) == Some(0);
    assert line == none + MARKER + Base64.Encode(data);
  }

  lemma CarriedPayload(line: string, data: seq<byte>)
    requires Carries(line, data)
    ensures Payload(line) == if Base64.Encode(data) == "" then None else Some(Base64.Encode(data))
  {
    hide Find, Base64.Encode;
    var prefix: string :| line == prefix + MARKER + Base64.Encode(data) && Find(line, MARKER) == Some(|prefix|);
    assert line[|prefix| + |MARKER|..] == Base64.Encode(data);
  }

  lemma CarriedData(line: string, data: seq<byte>, cap: nat)
    requires Carries(line, data)
    ensures data == [] || cap < |data| ==> LineData(line, cap) == None
    ensures data != [] && |data| <= cap ==>
      LineData(line, cap) == Some(data + Zeros(Base64.PaddingOf(|data|)))
  {
    CarriedPayload(line, data);
    EncodedSizes(data);
    Base64.DecodeEncode(data);
    hide Carries, Payload, Base64.Encode, Base64.Unpack, Base64.Sextets, DecodedSize;
  }

  lemma PaddedRecord(n: nat)
    ensures n + Base64.PaddingOf(n) >= RECORD_SIZE <==> n >= RECORD_SIZE
  {
  }

  /** A line carrying bytes is accepted exactly when they are at least one record and pass the size
      check: the zero bytes that padding adds never complete a short record. */
  lemma LogLineAccepts(line: string, data: seq<byte>, cap: nat)
    requires Carries(line, data)
    ensures LogLineTrade(line, cap).Some? <==> 250 <= |data| <= cap
  {
    CarriedData(line, data, cap);
    PaddedRecord(|data|);
    hide Carries, LineData, Overlay, Base64.PaddingOf;
  }

  /** Serialise, encode, log, scan, decode, parse: every field of the trade comes back, whatever
      bytes follow the record. */
  lemma LogLineRoundTrip(line: string, l: Layout, extra: seq<byte>, cap: nat)
    requires Carries(line, Serialize(l) + extra) && RECORD_SIZE + |extra| <= cap
    ensures LogLineTrade(line, cap) == Some(TradeOf(l))
  {
    var zeros: seq<byte> := Zeros(Base64.PaddingOf(|Serialize(l) + extra|));
    OverlaySerialize(l, extra + zeros);
    CarriedData(line, Serialize(l) + extra, cap);
    assert (Serialize(l) + extra) + zeros == Serialize(l) + (extra + zeros);
  }
}
