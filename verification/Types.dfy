/** The plain data of the engine: machine words, enumerations and message structs. */
module Types {
  const TWO8: int := 0x100
  const TWO32: int := 0x1_0000_0000
  const TWO63: int := 0x8000_0000_0000_0000
  const TWO64: int := 0x1_0000_0000_0000_0000

  type Byte = x: int | 0 <= x < TWO8
  type Word32 = x: int | 0 <= x < TWO32
  type Word64 = x: int | 0 <= x < TWO64
  type Int64 = x: int | -TWO63 <= x < TWO63

  /** Unsigned machine arithmetic wraps around. */
  function Wrap64(n: int): Word64 {
    n % TWO64
  }

  function Wrap32(n: int): Word32 {
    n % TWO32
  }

  /** A wrapped number is in the range of its word and differs from the number by whole words. */
  lemma WrapsModulo(n: int)
    ensures 0 <= Wrap64(n) < 0x1_0000_0000_0000_0000 && (Wrap64(n) - n) % 0x1_0000_0000_0000_0000 == 0
    ensures 0 <= Wrap32(n) < 0x1_0000_0000 && (Wrap32(n) - n) % 0x1_0000_0000 == 0
  {
  }

  /** A null pointer, an empty id-table cell, and the invalid price tick. */
  const NULL: int := -1
  const INVALID_PRICE: int := -1

  datatype Side = Buy | Sell {
    function Opposite(): Side {
      if Buy? then Sell else Buy
    }
  }

  /** The code tests a side byte against Buy only, but for one place: anything else is treated as a sell. */
  function SideOf(b: Byte): Side {
    if b == BUY then Buy else Sell
  }

  datatype Status = Active | PartiallyFilled | Filled | Cancelled

  /** An order in a pool slot. `next` and `prev` are slot numbers or NULL. */
  datatype Order = Order(
    next: int, prev: int,
    id: Word64, sideByte: Byte, status: Status, price: Int64,
    quantity: Word64, filled: Word64, timestamp: Word64)
  {
    const side: Side := SideOf(sideByte)

    predicate Resting() {
      status == Active || status == PartiallyFilled
    }

    function Remaining(): int {
      quantity - filled
    }
  }

  /** What placement-new writes into a freshly acquired slot. */
  const BLANK_ORDER := Order(NULL, NULL, 0, BUY, Active, INVALID_PRICE, 0, 0, 0)

  /** One price tick: the head and tail of an intrusive FIFO and its cached totals. */
  datatype LimitLevel = LimitLevel(price: int, total: Word64, count: Word32, head: int, tail: int) {
    predicate Empty() {
      head == NULL
    }
  }

  datatype TradeReport = TradeReport(buyId: Word64, sellId: Word64, price: int, quantity: int)

  /** `action` and `side` are the raw enumeration bytes: a decoder casts any byte into them. */
  datatype OrderMessage = OrderMessage(
    action: Byte, side: Byte,
    orderId: Word64, originalOrderId: Word64,
    price: Int64, quantity: Word64, arrival: Word64)

  const ADD: Byte := 0
  const CANCEL: Byte := 1
  const MODIFY: Byte := 2
  const EXECUTE: Byte := 3
  const BUY: Byte := 0
  const SELL: Byte := 1

  datatype Option<T> = None | Some(value: T)

  function Min(a: int, b: int): int {
    if a < b then a else b
  }

  /** A sequence with element `i` taken out. */
  function Without<T>(list: seq<T>, i: nat): (w: seq<T>)
    requires i < |list|
    ensures |w| == |list| - 1
    ensures forall j :: 0 <= j < |w| ==> w[j] == list[if j < i then j else j + 1]
  {
    list[..i] + list[i + 1..]
  }

  ghost function AllSlots(n: nat): (s: set<nat>)
    ensures |s| == n
    ensures forall i: nat :: i in s <==> i < n
  {
    if n == 0 then {} else AllSlots(n - 1) + {n - 1}
  }

  lemma AroundIndex<T>(list: seq<T>, i: nat)
    requires i < |list|
    ensures list == list[..i] + ([list[i]] + list[i + 1..])
  {
  }
}
