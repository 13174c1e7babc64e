/** Machine words and small shared datatypes. */
module Words {

  const TWO_TO_THE_16: int := 0x1_0000
  const TWO_TO_THE_32: int := 0x1_0000_0000
  const TWO_TO_THE_64: int := 0x1_0000_0000_0000_0000

  type U8 = x: int | 0 <= x < 0x100
  type U16 = x: int | 0 <= x < TWO_TO_THE_16
  type U32 = x: int | 0 <= x < TWO_TO_THE_32
  type U64 = x: int | 0 <= x < TWO_TO_THE_64
  type Bytes = seq<U8>

  datatype Option<+T> = None | Some(value: T)

  /** Conversion of a wider word to 32 bits. */
  function Low32(x: U64): U32 {
    x % TWO_TO_THE_32
  }

  /** A counter kept in a 64-bit word. */
  function Low64(x: nat): U64 {
    x % TWO_TO_THE_64
  }

  lemma Low64Add(x: nat, y: U64)
    ensures Low64(x + y) == Add64(Low64(x), y)
  {
  }

  /** 64-bit addition, subtraction and multiplication wrap around. */
  function Add64(x: U64, y: U64): U64 {
    (x + y) % TWO_TO_THE_64
  }

  function Sub64(x: U64, y: U64): U64 {
    (x - y) % TWO_TO_THE_64
  }

  function Mul64(x: U64, y: U64): U64 {
    (x * y) % TWO_TO_THE_64
  }

  lemma ProductIsLarger(q: nat, d: nat)
    requires d > 0
    ensures q <= q * d
  {
  }

  lemma QuotientTimes(x: nat, d: nat)
    requires d > 0
    ensures 0 <= x / d && (x / d) * d <= x
  {
  }

  lemma QuotientIsSmaller(x: nat, d: nat)
    requires d > 0
    ensures 0 <= x / d <= x
  {
    QuotientTimes(x, d);
    ProductIsLarger(x / d, d);
  }

  /** Unsigned division. */
  function Div64(x: U64, d: U64): U64
    requires d > 0
  {
    QuotientIsSmaller(x, d);
    x / d
  }

  /** Every bit of mask is also set in value: value & mask == mask. */
  predicate HasBits(value: nat, mask: nat) {
    mask == 0 || ((mask % 2 == 1 ==> value % 2 == 1) && HasBits(value / 2, mask / 2))
  }
}
