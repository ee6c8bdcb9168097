/** Vocabulary shared by every module: optional values, results, and the machine integers
    whose bounds matter somewhere in the model. */
module Common {

  const TWO_32: nat := 0x1_0000_0000
  const TWO_64: nat := 0x1_0000_0000_0000_0000
  const TWO_256: nat :=
    0x1_0000_0000_0000_0000_0000_0000_0000_0000_0000_0000_0000_0000_0000_0000_0000_0000

  type u64 = x: int | 0 <= x < 0x1_0000_0000_0000_0000

  type byte = x: int | 0 <= x < 256

  datatype Option<+T> = None | Some(value: T)

  datatype Result<+T, +E> = Ok(value: T) | Err(error: E)

  /** Rust's `saturating_sub` on unsigned integers. */
  function SaturatingSub(a: nat, b: nat): nat {
    if a < b then 0 else a - b
  }

  /** Rust's `saturating_add` on `u64`. */
  function SaturatingAdd64(a: nat, b: nat): nat {
    if a + b < TWO_64 then a + b else TWO_64 - 1
  }

  function Max(a: nat, b: nat): nat {
    if a < b then b else a
  }

  lemma {:induction false} MulMonotone(w: nat, k: nat, l: nat)
    ensures k < l ==> w * k + w <= w * l
    decreases l
  {
    if k >= l {
    } else {
      MulMonotone(w, k, l - 1);
      assert w * l == w * (l - 1) + w;
    }
  }
}
