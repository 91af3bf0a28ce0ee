// Unsigned machine words as the Go and C code uses them: unbounded naturals
// with the wrap-around written out.
module Words {

  const TWO_TO_64: nat := 0x1_0000_0000_0000_0000

  type u64 = x: int | 0 <= x < 0x1_0000_0000_0000_0000

  function Add64(x: u64, y: u64): u64 { (x + y) % TWO_TO_64 }

  function Sub64(x: u64, y: u64): u64 { if x >= y then x - y else x - y + TWO_TO_64 }

  // Adding a word to a residue gives the residue of the sum.
  lemma {:induction false} AddResidue(sum: nat, n: nat)
    ensures (sum % TWO_TO_64 + n) % TWO_TO_64 == (sum + n) % TWO_TO_64
  {
    var q := sum / TWO_TO_64;
    assert sum == q * TWO_TO_64 + sum % TWO_TO_64;
  }
}
