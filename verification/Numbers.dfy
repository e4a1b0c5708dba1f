/** Small facts about numbers that several modules need. */
module Numbers {

  /** The value of an expression after it is stored in a uint16_t. */
  function U16(x: int): (r: nat) {
    x % 0x1_0000
  }

  function Min(a: nat, b: nat): nat {
    if a < b then a else b
  }

  function Max(a: nat, b: nat): nat {
    if a < b then b else a
  }

  lemma Monotone(i: nat, j: nat, m: nat)
    requires i <= j
    ensures i * m <= j * m
  {
    assert (j - i) * m >= 0;
    assert j * m == i * m + (j - i) * m;
  }
}
