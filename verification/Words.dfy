/** Go's fixed-width integers and the wrap-around of their arithmetic. */
module Words {

  const TWO_31: int := 0x8000_0000
  const TWO_32: int := 0x1_0000_0000
  const TWO_63: int := 0x8000_0000_0000_0000
  const TWO_64: int := 0x1_0000_0000_0000_0000

  type u16 = x: int | 0 <= x < 0x1_0000
  type u32 = x: int | 0 <= x < TWO_32
  type u64 = x: int | 0 <= x < TWO_64
  type int32 = x: int | -TWO_31 <= x < TWO_31
  type int64 = x: int | -TWO_63 <= x < TWO_63

  function U16(x: int): u16 { x % 0x1_0000 }

  function U32(x: int): u32 { x % TWO_32 }

  function U64(x: int): u64 { x % TWO_64 }

  function I64(x: int): int64 { (x + TWO_63) % TWO_64 - TWO_63 }

  lemma U32Same(x: nat)
    requires x < TWO_32
    ensures U32(x) == x
  {
  }

  /** A signed word read as unsigned keeps its value modulo 2^64. */
  lemma U64OfI64(x: int)
    ensures U64(I64(x)) == U64(x)
  {
    var q := (x + TWO_63) / TWO_64;
    assert x == I64(x) + q * TWO_64;
    if I64(x) >= 0 {
      assert U64(x) == I64(x);
    } else {
      assert U64(x) == I64(x) + TWO_64;
    }
  }
}
