/** Powers of two, for shifts written as multiplication and division. */
module Powers {

  function Pow2(n: nat): (r: nat)
    ensures r > 0
  {
    if n == 0 then 1 else 2 * Pow2(n - 1)
  }

  lemma {:induction false} Pow2Add(a: nat, b: nat)
    ensures Pow2(a + b) == Pow2(a) * Pow2(b)
  {
    if b > 0 {
      Pow2Add(a, b - 1);
      assert a + b - 1 == a + (b - 1);
    }
  }

  lemma {:induction false} Pow2Monotone(a: nat, b: nat)
    requires a <= b
    ensures Pow2(a) <= Pow2(b)
  {
    if a < b {
      Pow2Monotone(a, b - 1);
    }
  }

  lemma Pow2Seven(n: nat)
    ensures Pow2(n + 7) == 128 * Pow2(n)
  {
    assert Pow2(n + 7) == 2 * Pow2(n + 6) == 4 * Pow2(n + 5) == 8 * Pow2(n + 4) == 16 * Pow2(n + 3);
    assert Pow2(n + 3) == 2 * Pow2(n + 2) == 4 * Pow2(n + 1) == 8 * Pow2(n);
  }

  lemma Pow2Constants()
    ensures Pow2(7) == 0x80 && Pow2(8) == 0x100 && Pow2(15) == 0x8000 && Pow2(16) == 0x1_0000
    ensures Pow2(57) == 0x200_0000_0000_0000 && Pow2(60) == 0x1000_0000_0000_0000
    ensures Pow2(63) == 0x8000_0000_0000_0000
  {
    Sevens();
    Pow2Next(7); Pow2Next(14); Pow2Next(15); Pow2Next(56); Pow2Next(57); Pow2Next(58); Pow2Next(59);
    hide Pow2;
  }

  lemma Pow2Next(n: nat)
    ensures Pow2(n + 1) == 2 * Pow2(n)
  {
  }

  lemma Sevens()
    ensures Pow2(7) == 0x80 && Pow2(14) == 0x4000 && Pow2(56) == 0x100_0000_0000_0000
    ensures Pow2(63) == 0x8000_0000_0000_0000
  {
    hide Pow2;
    Pow2Zero();
    Pow2Seven(0); Pow2Seven(7); Pow2Seven(14); Pow2Seven(21); Pow2Seven(28); Pow2Seven(35); Pow2Seven(42);
    Pow2Seven(49); Pow2Seven(56);
  }

  lemma Pow2Zero()
    ensures Pow2(0) == 1
  {
  }

  // ---------- quotients ----------

  lemma {:induction false} TimesAtLeast(k: nat, d: int)
    requires k >= 1 && d > 0
    ensures k * d >= d
  {
    if k > 1 {
      TimesAtLeast(k - 1, d);
      assert k * d == (k - 1) * d + d;
    }
  }

  lemma Multiple(k: int, d: int, r: int)
    requires k * d == r && -d < r < d
    ensures k == 0
  {
    assert (-k) * d == -(k * d);
    if k > 0 {
      TimesAtLeast(k, d);
    } else if k < 0 {
      TimesAtLeast(-k, d);
    }
  }

  lemma DivIs(x: nat, d: nat, q: nat, m: nat)
    requires d > 0 && x == q * d + m && m < d
    ensures x / d == q && x % d == m
  {
    assert x == x / d * d + x % d;
    assert (q - x / d) * d == q * d - x / d * d;
    Multiple(q - x / d, d, x % d - m);
  }
}
