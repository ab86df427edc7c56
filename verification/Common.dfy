/** Small vocabulary shared by every module: optional values, bytes and the
    widths the program relies on. */
module Common {
  datatype Option<+T> = None | Some(value: T)

  type Byte = x: int | 0 <= x < 256

  const U64_MAX: nat := 0xFFFF_FFFF_FFFF_FFFF

  function Min(a: nat, b: nat): nat {
    if a <= b then a else b
  }

  /** Rust's `saturating_sub` on unsigned integers. */
  function Monus(a: nat, b: nat): nat {
    if a <= b then 0 else a - b
  }

  /** Subsets are no larger; Dafny does not know this by itself. */
  lemma {:induction false} SubsetSize<T>(a: set<T>, b: set<T>)
    requires a <= b
    ensures |a| <= |b|
  {
    assert |b| == |a| + |b - a| by { assert b == a + (b - a); }
  }
}
