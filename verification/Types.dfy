/** The scalar types shared by the whole exchange core. */
module Types {

  const TWO_TO_THE_64: int := 0x1_0000_0000_0000_0000

  type uint64 = x: int | 0 <= x < TWO_TO_THE_64

  type Price = uint64
  type Quantity = uint64
  type OrderId = uint64

  const MAX_PRICE: Price := TWO_TO_THE_64 - 1

  datatype Side = Buy | Sell {
    function Opposite(): Side {
      if Buy? then Sell else Buy
    }
  }

  function Min(a: int, b: int): int {
    if a < b then a else b
  }

  /** What an unsigned 64-bit register holds after a computation whose exact value is `x`. */
  function Wrap64(x: int): uint64 {
    x % TWO_TO_THE_64
  }

  lemma WrapSmall(x: nat)
    ensures x < TWO_TO_THE_64 ==> Wrap64(x) == x
  {
  }

  lemma WrapAdd(x: int, d: int)
    ensures Wrap64(Wrap64(x) + d) == Wrap64(x + d)
  {
  }

  lemma WrapSub(x: int, d: int)
    ensures Wrap64(Wrap64(x) - d) == Wrap64(x - d)
  {
  }
}
