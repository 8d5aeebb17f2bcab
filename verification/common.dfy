/** Types shared by the models. */
module Common {

  /** A value that may be absent; `None` plays the role of a NULL pointer
      or of an id with no record. */
  datatype Option<T> = None | Some(value: T)

  /** A `uint8_t`. */
  type Byte = b: nat | b < 256

  /** Quotient and remainder are unique: `x == d * q + r` with `r < d`
      fixes both. */
  lemma DivUnique(x: nat, d: nat, q: nat, r: nat)
    requires d >= 1 && x == d * q + r && r < d
    ensures x / d == q && x % d == r
  {
    var q', r' := x / d, x % d;
    assert x == d * q' + r';
    if q' > q {
      MulStep(d, q' - q);
    } else if q' < q {
      MulStep(d, q - q');
    }
  }

  lemma MulStep(d: nat, a: nat)
    requires a >= 1
    ensures d * a >= d
  {
    assert d * a == d * (a - 1) + d;
  }
}
