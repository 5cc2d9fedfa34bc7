/** Numbers as C counts them, and the smaller and larger of two. */
module Numbers {

  /** The number of values of a guint. */
  const GUINT_RANGE: nat := 0x1_0000_0000

  /** One less, as a guint: it wraps at zero. */
  function Decrement(n: nat): nat {
    if n == 0 then GUINT_RANGE - 1 else n - 1
  }

  function Min(a: nat, b: nat): nat {
    if a < b then a else b
  }

  function Max(a: nat, b: nat): nat {
    if a < b then b else a
  }
}
