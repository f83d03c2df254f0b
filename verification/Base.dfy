/** Small shared vocabulary. */
module Base {

  datatype Option<+T> = None | Some(value: T)

  datatype Result<+T, +E> = Ok(value: T) | Err(error: E)

  /** A UTF-16 code unit, as JavaScript strings are made of; surrogates may stand alone. */
  type Unit = n: nat | n < 0x1_0000

  type Text = seq<Unit>

  predicate IsHigh(u: Unit) {
    0xD800 <= u <= 0xDBFF
  }

  predicate IsLow(u: Unit) {
    0xDC00 <= u <= 0xDFFF
  }

  /** True when the text starts with a complete surrogate pair. */
  predicate StartsWithPair(t: Text) {
    |t| >= 2 && IsHigh(t[0]) && IsLow(t[1])
  }
}
