/** Option and Result, and the fixed-width integers the Rust sources compute with. */
module Wrappers {

  datatype Option<+T> = None | Some(value: T)

  datatype Result<+T, +E> = Ok(value: T) | Err(error: E) {
    predicate IsFailure() {
      Err?
    }

    function PropagateFailure<U>(): Result<U, E>
      requires Err?
    {
      Err(error)
    }

    function Extract(): T
      requires Ok?
    {
      value
    }
  }

  newtype byte = b: int | 0 <= b < 256

  type Bytes = seq<byte>

  const I16_MAX := 0x7fff
  const I32_MAX := 0x7fff_ffff
  const I64_MAX := 0x7fff_ffff_ffff_ffff
  const U32_MAX := 0xffff_ffff
  const U64_MAX := 0xffff_ffff_ffff_ffff

  /** `i16` and `i32` arithmetic that wraps: `n` reduced into the type's range. */
  function Wrap16(n: int): (w: int)
    ensures -I16_MAX - 1 <= w <= I16_MAX
    ensures -I16_MAX - 1 <= n <= I16_MAX ==> w == n
  {
    (n + 0x8000) % 0x1_0000 - 0x8000
  }

  function Wrap32(n: int): (w: int)
    ensures -I32_MAX - 1 <= w <= I32_MAX
    ensures -I32_MAX - 1 <= n <= I32_MAX ==> w == n
  {
    (n + 0x8000_0000) % 0x1_0000_0000 - 0x8000_0000
  }

  function Min(a: int, b: int): int {
    if a <= b then a else b
  }

  function Max(a: int, b: int): int {
    if a >= b then a else b
  }

  /** Some member of a nonempty set, as iterating over a hash table yields one. */
  method Pick<T(==)>(s: set<T>) returns (x: T)
    requires s != {}
    ensures x in s
  {
    x :| x in s;
  }

  lemma HasMember<T>(s: set<T>) returns (x: T)
    requires s != {}
    ensures x in s
  {
    x :| x in s;
  }

  lemma KeyOf<K, V>(m: map<K, V>, v: V) returns (k: K)
    requires v in m.Values
    ensures k in m && m[k] == v
  {
    k :| k in m && m[k] == v;
  }
}
