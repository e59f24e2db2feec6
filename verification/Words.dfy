/** Powers of two, masks and wrap-around: the arithmetic that a power-of-two ring relies on. */
module Words {

  /** One past the largest size_t. */
  const WORD: nat := 0x1_0000_0000_0000_0000

  function Pow2(k: nat): (r: nat)
    ensures r >= 1
  {
    if k == 0 then 1 else 2 * Pow2(k - 1)
  }

  /** Bitwise and. */
  function BitAnd(x: nat, y: nat): nat
    decreases x
  {
    if x == 0 || y == 0 then 0 else (if x % 2 == 1 && y % 2 == 1 then 1 else 0) + 2 * BitAnd(x / 2, y / 2)
  }

  lemma {:induction false} AddMultiple(x: nat, q: nat, c: nat)
    requires c > 0
    ensures (x + q * c) % c == x % c
    decreases q
  {
    if q > 0 {
      AddMultiple(x, q - 1, c);
      var y := x + (q - 1) * c;
      assert x + q * c == y + c;
      AddOne(y, c);
    }
  }

  lemma {:induction false} AddOne(y: nat, c: nat)
    requires c > 0
    ensures (y + c) % c == y % c
  {
    var q, r := y / c, y % c;
    assert y + c == (q + 1) * c + r;
    QuotientIs(y + c, q + 1, r, c);
  }

  lemma {:induction false} Multiples(d: int, c: nat)
    ensures d >= 1 ==> d * c >= c
    ensures d <= 0 ==> d * c <= 0
    ensures d <= -1 ==> d * c + c <= 0
  {
  }

  lemma {:induction false} QuotientIs(a: nat, q: nat, r: nat, c: nat)
    requires c > 0 && a == q * c + r && r < c
    ensures a / c == q && a % c == r
  {
    var d := a / c - q;
    assert a == (a / c) * c + a % c;
    assert d * c == r - a % c;
    Multiples(d, c);
  }

  /** Reducing before adding changes nothing. */
  lemma {:induction false} ModAdd(a: nat, b: nat, c: nat)
    requires c > 0
    ensures (a % c + b) % c == (a + b) % c
  {
    AddMultiple(a % c + b, a / c, c);
    assert a == (a / c) * c + a % c;
  }

  /** Positions less than a turn apart are different places. */
  lemma {:induction false} ModDistinct(a: nat, b: nat, c: nat)
    requires c > 0 && a < b < a + c
    ensures a % c != b % c
  {
    if a % c == b % c {
      var d := b / c - a / c;
      assert b - a == d * c by {
        assert a == (a / c) * c + a % c && b == (b / c) * c + b % c;
      }
      Multiples(d, c);
    }
  }

  lemma {:induction false} Associate(q: nat, m: nat, c: nat)
    ensures q * (m * c) == (q * m) * c
  {
  }

  /** A counter that wraps at a multiple of the capacity keeps its place. */
  lemma {:induction false} WrapKeepsPlace(x: nat, i: nat, c: nat, word: nat, m: nat)
    requires c > 0 && word > 0 && word == m * c
    ensures (x % word + i) % c == (x + i) % c
  {
    var q := x / word;
    assert x == q * word + x % word;
    Associate(q, m, c);
    AddMultiple(x % word + i, q * m, c);
  }

  lemma {:induction false} Pow2Sum(a: nat, b: nat)
    ensures Pow2(a + b) == Pow2(a) * Pow2(b)
    decreases a
  {
    if a > 0 {
      Pow2Sum(a - 1, b);
      assert Pow2(a + b) == 2 * (Pow2(a - 1) * Pow2(b));
    }
  }

  lemma {:induction false} SmallPowers()
    ensures Pow2(2) == 4 && Pow2(8) == 0x100
  {
    assert Pow2(4) == 16;
  }

  lemma {:induction false} WordIsPow2()
    ensures Pow2(64) == WORD && Pow2(62) == 0x4000_0000_0000_0000
  {
    hide Pow2;
    SmallPowers();
    Pow2Sum(8, 8);
    Pow2Sum(16, 16);
    Pow2Sum(32, 32);
    Pow2Sum(2, 62);
  }

  lemma {:induction false} WordIsMultiple(k: nat)
    requires k <= 64
    ensures WORD == Pow2(64 - k) * Pow2(k)
  {
    WordIsPow2();
    Pow2Sum(64 - k, k);
  }

  /** Masking with a power of two less one is the remainder. */
  lemma {:induction false} MaskIsMod(x: nat, k: nat)
    ensures BitAnd(x, Pow2(k) - 1) == x % Pow2(k)
    decreases k
  {
    if k == 0 {
      assert x % 1 == 0;
    } else {
      var half := Pow2(k - 1);
      MaskIsMod(x / 2, k - 1);
      assert (Pow2(k) - 1) / 2 == half - 1 && (Pow2(k) - 1) % 2 == 1;
      HalfMod(x, half);
    }
  }

  lemma {:induction false} HalfMod(x: nat, half: nat)
    requires half > 0
    ensures x % (2 * half) == x % 2 + 2 * ((x / 2) % half)
  {
    var y := x / 2;
    var q, r := y / half, y % half;
    assert x == 2 * y + x % 2 && y == q * half + r;
    assert x == q * (2 * half) + (2 * r + x % 2);
    QuotientIs(x, q, 2 * r + x % 2, 2 * half);
  }
}
