/** Powers of two, bit operations and unsigned 64-bit arithmetic. */
module Words {
  import opened Types

  function Pow2(k: nat): (p: nat)
    ensures p >= 1
  {
    if k == 0 then 1 else 2 * Pow2(k - 1)
  }

  /** Bitwise and. */
  function BitAnd(a: nat, b: nat): nat {
    if a == 0 || b == 0 then 0 else 2 * BitAnd(a / 2, b / 2) + (a % 2) * (b % 2)
  }

  function Plus(a: uint64, b: uint64): uint64 {
    (a + b) % TWO64
  }

  function Minus(a: uint64, b: uint64): uint64 {
    (a - b) % TWO64
  }

  lemma {:induction false} MaskIsRemainder(a: nat, k: nat)
    ensures BitAnd(a, Pow2(k) - 1) == a % Pow2(k)
    decreases k
  {
    if k > 0 {
      var p := Pow2(k - 1);
      MaskIsRemainder(a / 2, k - 1);
      assert (Pow2(k) - 1) / 2 == p - 1 && (k > 1 ==> (Pow2(k) - 1) % 2 == 1) && (Pow2(k) - 1) % 2 == 1;
      HalfRemainder(a, p);
      if a == 0 {
        assert 0 % Pow2(k) == 0;
      }
    }
  }

  lemma MulNonNegative(a: int, b: int)
    requires a >= 0 && b >= 0
    ensures a * b >= 0
  {
  }

  lemma MulMono(a: int, b: int, d: nat)
    ensures a < b ==> a * d + d <= b * d
    ensures a <= b ==> a * d <= b * d
  {
    if a < b {
      MulNonNegative(b - a - 1, d);
      assert b * d == a * d + d + (b - a - 1) * d;
    }
  }

  /** Quotient and remainder are unique. */
  lemma Remainder(a: nat, d: nat, q: nat, r: nat)
    requires d > 0 && r < d && a == q * d + r
    ensures a % d == r
  {
    var q', r' := a / d, a % d;
    assert a == q' * d + r';
    MulMono(q', q, d);
    MulMono(q, q', d);
  }

  lemma HalfRemainder(a: nat, p: nat)
    requires p >= 1
    ensures a % (2 * p) == 2 * (a / 2 % p) + a % 2
  {
    var h := a / 2;
    var q, r := h / p, h % p;
    assert h == q * p + r;
    assert q * (2 * p) == 2 * (q * p);
    Remainder(a, 2 * p, q, 2 * r + a % 2);
  }

  /** Reducing modulo a larger power of two first changes nothing. */
  lemma {:induction false} RemainderTwice(n: nat, j: nat, k: nat)
    requires k <= j
    ensures n % Pow2(j) % Pow2(k) == n % Pow2(k)
    decreases k
  {
    if k > 0 {
      var x := n % Pow2(j);
      HalfRemainder(n, Pow2(j - 1));
      HalfRemainder(n, Pow2(k - 1));
      HalfRemainder(x, Pow2(k - 1));
      assert x / 2 == n / 2 % Pow2(j - 1) && x % 2 == n % 2;
      RemainderTwice(n / 2, j - 1, k - 1);
    }
  }

  lemma {:induction false} Pow2Adds(a: nat, b: nat)
    ensures Pow2(a + b) == Pow2(a) * Pow2(b)
  {
    if a > 0 {
      Pow2Adds(a - 1, b);
      assert 2 * (Pow2(a - 1) * Pow2(b)) == (2 * Pow2(a - 1)) * Pow2(b);
    }
  }

  lemma {:induction false} Pow2Grows(a: nat, b: nat)
    requires a <= b
    ensures Pow2(a) <= Pow2(b)
  {
    if a < b {
      Pow2Grows(a, b - 1);
    }
  }

  lemma Square(a: nat, p: nat)
    requires Pow2(a) == p
    ensures Pow2(2 * a) == p * p
  {
    Pow2Adds(a, a);
  }

  lemma WordSize()
    ensures Pow2(64) == TWO64
  {
    hide Pow2;
    FourthPower();
    Square(4, 16);
    Square(8, 0x100);
    Square(16, 0x1_0000);
    Square(32, 0x1_0000_0000);
  }

  lemma FourthPower()
    ensures Pow2(4) == 16
  {
  }

  /** Wrapping modulo 2^64 does not move a counter's slot: the capacity divides 2^64. */
  lemma WrapKeepsSlot(n: nat, k: nat)
    requires k <= 63
    ensures n % TWO64 % Pow2(k) == n % Pow2(k)
    ensures 2 * Pow2(k) <= TWO64
  {
    WordSize();
    RemainderTwice(n, 64, k);
    Pow2Grows(k + 1, 64);
  }

  /** Two counters less than a capacity apart use different slots. */
  lemma DifferentSlots(i: nat, j: nat, cap: nat)
    requires cap > 0 && i < j < i + cap
    ensures i % cap != j % cap
  {
    var a, b := i / cap, j / cap;
    assert i == a * cap + i % cap && j == b * cap + j % cap;
    MulMono(a, b, cap);
    MulMono(b, a, cap);
  }

  /** Counters within a word of each other are told apart, and measured, by their words. */
  lemma WordDistance(m: nat, n: nat)
    requires m <= n < m + TWO64
    ensures Minus(n % TWO64, m % TWO64) == n - m
    ensures n % TWO64 == m % TWO64 <==> n == m
  {
  }

  lemma WordSuccessor(n: nat)
    ensures Plus(n % TWO64, 1) == (n + 1) % TWO64
  {
  }

  /** The index of the highest set bit. */
  function HighestBit(x: nat): (b: nat)
    requires x > 0
    ensures Pow2(b) <= x < 2 * Pow2(b)
  {
    if x == 1 then 0 else 1 + HighestBit(x / 2)
  }

}
