/** Rust's fixed-width integers over Dafny's unbounded `int`, and the arithmetic the two
    drafts use on them: the wrapping operators that unchecked `+`, `-` and `*` compile to
    without overflow checks and that `as` always is, and the checked operators
    (`checked_mul`, `checked_add`). */
module Int {
  import opened Wrappers

  const U64_LIMIT: int := 0x1_0000_0000_0000_0000
  const I64_LIMIT: int := 0x8000_0000_0000_0000

  type u8 = x: int | 0 <= x < 0x100
  type u32 = x: int | 0 <= x < 0x1_0000_0000
  type u64 = x: int | 0 <= x < 0x1_0000_0000_0000_0000
  type i64 = x: int | -0x8000_0000_0000_0000 <= x < 0x8000_0000_0000_0000

  /** Unchecked `a + b` on u64: the carry out of bit 63 is lost. */
  function WrappingAdd(a: u64, b: u64): (r: u64)
    ensures a + b < U64_LIMIT ==> r == a + b
    ensures a + b >= U64_LIMIT ==> r == a + b - U64_LIMIT && r < a
  {
    (a + b) % U64_LIMIT
  }

  /** Unchecked `a - b` on u64: a borrow wraps around to the top of the range. */
  function WrappingSub(a: u64, b: u64): (r: u64)
    ensures b <= a ==> r == a - b
    ensures a < b ==> r == a - b + U64_LIMIT && r > a
  {
    (a - b) % U64_LIMIT
  }

  /** Unchecked `a * b` on u64: the product modulo 2^64. */
  function WrappingMul(a: u64, b: u64): (r: u64)
    ensures a * b < U64_LIMIT ==> r == a * b
    ensures (a * b - r) % U64_LIMIT == 0
  {
    (a * b) % U64_LIMIT
  }

  /** Unchecked `a - b` on i64 (two's complement wrap-around). */
  function WrappingSubI64(a: i64, b: i64): (r: i64)
    ensures -I64_LIMIT <= a - b < I64_LIMIT ==> r == a - b
    ensures (a - b - r) % U64_LIMIT == 0
  {
    var d := (a - b) % U64_LIMIT;
    if d < I64_LIMIT then d else d - U64_LIMIT
  }

  /** `x as u64` for an i64: the same 64 bits read as unsigned. */
  function AsU64(x: i64): (r: u64)
    ensures 0 <= x ==> r == x
    ensures x < 0 ==> r == x + U64_LIMIT && r >= I64_LIMIT
  {
    if x < 0 then x + U64_LIMIT else x
  }

  /** `x as i64` for a u64: the same 64 bits read as two's complement. */
  function AsI64(x: u64): (r: i64)
    ensures x < I64_LIMIT ==> r == x
    ensures x >= I64_LIMIT ==> r == x - U64_LIMIT && r < 0
  {
    if x < I64_LIMIT then x else x - U64_LIMIT
  }

  /** The two casts are inverse to each other: `(x as u64) as i64 == x`. */
  lemma AsI64AsU64(x: i64)
    ensures AsI64(AsU64(x)) == x
  {
  }

  /** And the other way round: `(u as i64) as u64 == u`. */
  lemma AsU64AsI64(u: u64)
    ensures AsU64(AsI64(u)) == u
  {
  }

  /** `a.checked_add(b)`. */
  function CheckedAdd(a: u64, b: u64): (r: Option<u64>)
    ensures r.Some? <==> a + b < U64_LIMIT
    ensures r.Some? ==> r.value == a + b
  {
    if a + b < U64_LIMIT then Some(a + b) else None
  }

  /** `a.checked_mul(b)`. */
  function CheckedMul(a: u64, b: u64): (r: Option<u64>)
    ensures r.Some? <==> a * b < U64_LIMIT
    ensures r.Some? ==> r.value == a * b
  {
    if a * b < U64_LIMIT then Some(a * b) else None
  }
}
