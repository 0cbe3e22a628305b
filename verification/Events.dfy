/** The queue's event record, include/yurei_event.h. */
module Events {
  import opened Common
  import opened LittleEndian
  import Pumpfun

  const SIGNATURE_CELLS: nat := 88

  /** What a field of 88 characters, terminator included, can hold. */
  type signature = s: string | |s| < SIGNATURE_CELLS

  datatype Swap = Swap(amm: pubkey, owner: pubkey, amountIn: uint64, amountOut: uint64, slot: uint64)

  datatype Kind = PumpfunKind | RaydiumKind

  datatype Event =
    | Unknown
    | TradeEvent(signature: signature, trade: Pumpfun.Trade)
    | SwapEvent(signature: signature, swap: Swap)
  {
    predicate Is(k: Kind) {
      match k
      case PumpfunKind => TradeEvent?
      case RaydiumKind => SwapEvent?
    }
  }
}
