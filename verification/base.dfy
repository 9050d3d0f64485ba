/** Types and small functions shared by the Art-Net and olad models. */
module Base {

  datatype Option<+T> = None | Some(value: T)

  // libartnet return codes (common.h)
  const ARTNET_EOK := 0
  const ARTNET_EMEM := -2
  const ARTNET_EARG := -3
  const ARTNET_ESTATE := -4
  const ARTNET_EACTION := -5

  type Byte = b: int | 0 <= b < 0x100

  type Word = w: int | 0 <= w < 0x1_0000

  function Min(a: int, b: int): int {
    if a < b then a else b
  }

  function Max(a: int, b: int): int {
    if a > b then a else b
  }

  /** What a C `int` holds after `v` has been converted to it. */
  function ToInt32(v: int): int {
    var m := v % 0x1_0000_0000;
    if m < 0x8000_0000 then m else m - 0x1_0000_0000
  }

  /** C division, which truncates toward zero. */
  function TruncDiv(a: int, b: int): int
    requires b > 0
  {
    if a >= 0 then a / b else -((-a) / b)
  }

  /** `data` with the cells from `offset` on replaced by `block`. */
  function Splice<T>(data: seq<T>, offset: nat, block: seq<T>): (r: seq<T>)
    requires offset + |block| <= |data|
    ensures |r| == |data|
    ensures forall i :: 0 <= i < |data| ==>
              r[i] == if offset <= i < offset + |block| then block[i - offset] else data[i]
  {
    data[..offset] + block + data[offset + |block|..]
  }

  lemma SmallerSet<T>(a: set<T>, b: set<T>)
    requires a <= b
    ensures |a| <= |b|
  {
    assert b == a + (b - a);
  }
}
