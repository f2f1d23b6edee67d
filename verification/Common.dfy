/** Small wrapper types shared by every component. */
module Common {

  datatype Option<+T> = None | Some(value: T)

  datatype Result<+T, +E> = Ok(value: T) | Err(error: E)

  /** Largest value of an SQLite INTEGER column, i64::MAX. */
  const I64_MAX: nat := 0x7fff_ffff_ffff_ffff

  /** Largest value of a Rust u64. */
  const U64_MAX: nat := 0xffff_ffff_ffff_ffff

  /** 64 lowercase hexadecimal characters. */
  predicate IsHex64(s: string) {
    && |s| == 64
    && forall i | 0 <= i < |s| :: '0' <= s[i] <= '9' || 'a' <= s[i] <= 'f'
  }

  /** The smaller of two naturals. */
  function Min(a: nat, b: nat): nat {
    if a <= b then a else b
  }

  /** `limit.clamp(low, high)` for the page limits of the list queries. */
  function Clamp(value: nat, low: nat, high: nat): nat
    requires low <= high
  {
    if value < low then low else Min(value, high)
  }
}
