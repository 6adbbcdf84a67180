/** Powers of two, for delays that double and intervals that halve. */
module Powers {

  function Pow2(n: nat): (p: nat)
    ensures p > 0
  {
    if n == 0 then 1 else 2 * Pow2(n - 1)
  }

  lemma {:induction false} Pow2Doubles(m: nat, n: nat)
    requires m < n
    ensures Pow2(n) >= 2 * Pow2(m)
  {
    if m + 1 < n {
      Pow2Doubles(m, n - 1);
    }
  }

  lemma {:induction false} Pow2Values()
    ensures Pow2(0) == 1 && Pow2(1) == 2 && Pow2(2) == 4 && Pow2(3) == 8 && Pow2(4) == 16
    ensures Pow2(15) == 0x8000 && Pow2(17) == 0x2_0000
    ensures Pow2(18) == 0x4_0000 && Pow2(19) == 0x8_0000 && Pow2(20) == 0x10_0000
  {
    assert Pow2(5) == 32;
    assert Pow2(10) == 1024;
  }
}
