/** Shared vocabulary: optional values, fixed machine widths and sequence helpers. */
module Common {

  datatype Option<+T> = None | Some(value: T)

  const TWO32: nat := 0x1_0000_0000
  const TWO64: nat := 0x1_0000_0000_0000_0000

  /** The value a 32-bit unsigned word keeps of `x`. */
  function U32(x: int): (r: nat)
    ensures r < TWO32
  {
    x % 0x1_0000_0000
  }

  /** The value a 32-bit signed word keeps of `x`. */
  function I32(x: int): (r: int)
    ensures -0x8000_0000 <= r < 0x8000_0000
  {
    var u := U32(x);
    if u < 0x8000_0000 then u else u - 0x1_0000_0000
  }

  /** The value a 64-bit unsigned word keeps of `x`. */
  function U64(x: int): (r: nat)
    ensures r < TWO64
  {
    x % 0x1_0000_0000_0000_0000
  }

  /** The value a 64-bit signed word keeps of `x`. */
  function I64(x: int): (r: int)
    ensures -0x8000_0000_0000_0000 <= r < 0x8000_0000_0000_0000
  {
    var u := U64(x);
    if u < 0x8000_0000_0000_0000 then u else u - 0x1_0000_0000_0000_0000
  }

  type Byte = b: int | 0 <= b < 256

  function Min(a: int, b: int): int {
    if a <= b then a else b
  }

  /** No value occurs at two positions. */
  ghost predicate NoDup<T>(s: seq<T>) {
    forall i, j :: 0 <= i < j < |s| ==> s[i] != s[j]
  }

  /** A counter table in which an absent key stands for zero. */
  function At(m: map<nat, int>, k: nat): int {
    if k in m then m[k] else 0
  }
}
