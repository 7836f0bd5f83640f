/** Options, and results with their errors, as the source's language has them. */
module Wrappers {
  datatype Option<+T> = None | Some(value: T)

  datatype Result<+T, +E> = Ok(value: T) | Err(error: E)
}

/** The runtime values of the engine (`crates/luaml/src/types.rs`). */
module Values {
  import opened Wrappers

  type u32 = x: int | 0 <= x < 0x1_0000_0000
  type i64 = x: int | -0x8000_0000_0000_0000 <= x < 0x8000_0000_0000_0000
  type u64 = x: int | 0 <= x < 0x1_0000_0000_0000_0000

  const SIGN_BIT: u64 := 0x8000_0000_0000_0000
  const INFINITY_BITS: u64 := 0x7FF0_0000_0000_0000

  // ASCII characters.

  predicate IsDigit(c: char) { '0' <= c <= '9' }

  predicate IsLetter(c: char) { 'a' <= c <= 'z' || 'A' <= c <= 'Z' }

  /** A number in decimal. */
  function DigitsText(n: nat): string {
    if n < 10 then [('0' as int + n) as char] else DigitsText(n / 10) + [('0' as int + n % 10) as char]
  }

  datatype Ordering = Less | Equal | Greater

  /** An IEEE 754 double, kept as its 64 bits: `==` on this type is equality of `to_bits`. */
  datatype Float = Float(bits: u64) {
    function Magnitude(): u64 {
      if bits < SIGN_BIT then bits else bits - SIGN_BIT
    }

    predicate IsNaN() {
      Magnitude() > INFINITY_BITS
    }

    /** Doubles other than NaN are ordered like this integer; +0 and -0 share the key 0. */
    function Key(): int {
      if bits < SIGN_BIT then Magnitude() else 0 - Magnitude() as int
    }

    /** The operator `==` of `f64`. */
    predicate IeeeEq(other: Float) {
      !IsNaN() && !other.IsNaN() && Key() == other.Key()
    }

    /** `f64::partial_cmp`. */
    function PartialCmp(other: Float): Option<Ordering> {
      if IsNaN() || other.IsNaN() then None
      else if Key() < other.Key() then Some(Less)
      else if Key() == other.Key() then Some(Equal)
      else Some(Greater)
    }
  }

  /** Type-distinct values: `Enum("tui")` differs from `Str("tui")`. */
  datatype FieldValue =
    | Enum(name: string)
    | Str(text: string)
    | Number(n: i64)
    | Flt(f: Float)
    | Bool(b: bool)
    | List(items: seq<FieldValue>)
    | Map(fields: FieldMap)
    | Null

  /** A hash map: its iteration order is unspecified and is not part of the value. */
  type FieldMap = map<string, FieldValue>

  type FieldBindings = map<string, FieldValue>

  lemma ConcatThree<T>(a: seq<T>, b: seq<T>, c: seq<T>)
    ensures a + (b + c) == (a + b) + c
  {
  }
}
