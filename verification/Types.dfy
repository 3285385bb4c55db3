/** The vocabulary of include/order_book/types.hpp. */
module Types {

  const TWO64: int := 0x1_0000_0000_0000_0000

  /** An unsigned 64-bit word. */
  type uint64 = x: int | 0 <= x < TWO64

  type OrderId = uint64
  type Quantity = uint64
  type Timestamp = uint64

  /** Fixed-point ticks; prices are only compared by the book. */
  type Price = int

  datatype Side = Buy | Sell

  datatype OrderType = Limit | Market | IOC | FOK

  datatype Trade = Trade(makerId: OrderId, takerId: OrderId, price: Price, qty: Quantity, ts: Timestamp)

  datatype Option<+T> = None | Some(value: T)

  function Opposite(side: Side): Side {
    if side == Buy then Sell else Buy
  }

  function Min(a: int, b: int): int {
    if a <= b then a else b
  }

  function Max(a: int, b: int): int {
    if a >= b then a else b
  }

  function Abs(x: int): int {
    if x < 0 then -x else x
  }
}
