/** Fixed-width values and the order record shared by the parser, the books and the exchange. */
module Types {

  newtype byte = x: int | 0 <= x < 256
  type uint32 = x: int | 0 <= x < 0x1_0000_0000
  type uint64 = x: int | 0 <= x < 0x1_0000_0000_0000_0000
  type int64 = x: int | -0x8000_0000_0000_0000 <= x < 0x8000_0000_0000_0000

  datatype Option<T> = None | Some(value: T)

  const ORDER_ID_LEN := 16
  const TICKER_LEN := 4

  /** Number of values of a 64-bit size_t; quantities and level totals wrap at it. */
  const SIZE_T: nat := 0x1_0000_0000_0000_0000

  type OrderId = s: seq<byte> | |s| == 16 witness seq(16, _ => 0)
  type Ticker = s: seq<byte> | |s| == 4 witness seq(4, _ => 0)

  datatype Side = Buy | Sell {
    function Code(): byte {
      if Buy? then 0 else 1
    }
  }

  /** The side byte of an order is not checked when the order is built; 0 is BUY and 1 is SELL. */
  predicate IsSide(code: byte) {
    code == 0 || code == 1
  }

  function SideOf(code: byte): Side
    requires IsSide(code)
  {
    if code == 0 then Buy else Sell
  }

  const KIND_LMT: byte := 0
  const KIND_MKT: byte := 1

  const STATUS_NEW: byte := 0
  const STATUS_PARTIALLY_FILLED: byte := 1
  const STATUS_FILLED: byte := 2
  const STATUS_CANCELLED: byte := 3

  datatype Order = Order(id: OrderId, timestamp: nat, qty: nat, ticker: Ticker, price: nat,
                         kind: byte, side: byte, status: byte, postOnly: bool)
}
