/** Vocabulary shared by the models: bytes, machine integers, options and results. */
module Common {

  type byte = x: int | 0 <= x < 256
  type u16 = x: int | 0 <= x < 0x1_0000
  type u32 = x: int | 0 <= x < 0x1_0000_0000
  type u64 = x: int | 0 <= x < 0x1_0000_0000_0000_0000

  const U64_MAX: u64 := 0xFFFF_FFFF_FFFF_FFFF

  type Bytes = seq<byte>

  /** A SHA-256 digest. The hash function itself is always a parameter. */
  type Digest = d: seq<byte> | |d| == 32 witness seq(32, _ => 0)

  datatype Option<+T> = None | Some(value: T)

  datatype Result<+T, +E> = Ok(value: T) | Err(error: E)

  /** Two different inputs of `h` with one output: what a broken binding property must exhibit. */
  predicate Collision(h: Bytes -> Digest, pair: (Bytes, Bytes)) {
    pair.0 != pair.1 && h(pair.0) == h(pair.1)
  }

  function SaturatingAdd(x: u64, y: u64): u64 {
    if x + y <= U64_MAX then x + y else U64_MAX
  }

  function SaturatingSub(x: u64, y: u64): u64 {
    if x <= y then 0 else x - y
  }

  function SaturatingMul(x: u64, y: u64): u64 {
    MulNonNegative(x, y);
    if x * y <= U64_MAX then x * y else U64_MAX
  }

  lemma MulMonotone(i: nat, j: nat, size: nat)
    requires i <= j
    ensures 0 <= i * size <= j * size
  {
    assert j * size == i * size + (j - i) * size;
  }

  lemma MulNonNegative(x: nat, y: nat)
    ensures 0 <= x * y
  {
  }

  function DivCeil(x: nat, y: nat): nat
    requires 0 < y
  {
    if x % y == 0 then x / y else x / y + 1
  }

  function Below(n: nat): (s: set<nat>)
    ensures forall i: nat :: i in s <==> i < n
  {
    if n == 0 then {} else Below(n - 1) + {n - 1}
  }

  lemma {:induction false} SubsetSize<T>(a: set<T>, b: set<T>)
    requires a <= b
    ensures |a| <= |b|
    decreases a
  {
    if a != {} {
      var x :| x in a;
      SubsetSize(a - {x}, b - {x});
    }
  }
}
