/** What the models share about the machine: the range of a 32-bit counter, and optional
    results. */
module Machine {

  const TWO32: nat := 0x1_0000_0000

  datatype Option<+T> = None | Some(value: T)

  /** Counting modulo 2^32 may forget the overflow at every step. */
  lemma AddMod(a: nat, b: nat)
    ensures (a % TWO32 + b) % TWO32 == (a + b) % TWO32
  {
  }
}
