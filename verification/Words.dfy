/** Bytes, 32-bit unsigned counters, and the modular arithmetic the ring buffer relies on. */
module Words {
  const WORD: nat := 0x1_0000_0000

  type byte = x: int | 0 <= x < 256
  type word = x: int | 0 <= x < WORD

  datatype Option<+T> = None | Some(value: T)

  /** Unsigned addition and subtraction, reduced modulo 2^32 as C does. */
  function Add(w: word, n: int): word { (w + n) % WORD }

  function Sub(a: word, b: word): word { (a - b) % WORD }

  predicate PowerOfTwo(n: nat) {
    n == 1 || (n > 1 && n % 2 == 0 && PowerOfTwo(n / 2))
  }

  function Pow2(k: nat): (p: nat)
    ensures p >= 1
  {
    if k == 0 then 1 else 2 * Pow2(k - 1)
  }

  lemma {:induction false} Pow2Sum(a: nat, b: nat)
    ensures Pow2(a + b) == Pow2(a) * Pow2(b)
  {
    if a > 0 {
      Pow2Sum(a - 1, b);
    }
  }

  lemma WordIsPow2()
    ensures Pow2(32) == WORD
  {
    assert Pow2(4) == 16;
    Pow2Sum(4, 4);
    Pow2Sum(8, 8);
    Pow2Sum(16, 16);
  }

  lemma {:induction false} PowerOfTwoExponent(n: nat) returns (k: nat)
    requires PowerOfTwo(n)
    ensures n == Pow2(k)
  {
    if n == 1 {
      k := 0;
    } else {
      var j := PowerOfTwoExponent(n / 2);
      k := j + 1;
    }
  }

  lemma {:induction false} Pow2Grows(a: nat, b: nat)
    requires a < b
    ensures 2 * Pow2(a) <= Pow2(b)
  {
    if a < b - 1 {
      Pow2Grows(a, b - 1);
    }
  }

  lemma {:induction false} DivisorOfPow2(n: nat, q: nat, k: nat)
    requires n * q == Pow2(k)
    ensures PowerOfTwo(n)
    decreases k, n
  {
    if n != 1 && k > 0 {
      if n % 2 == 0 {
        assert n == 2 * (n / 2);
        assert (n / 2) * q == Pow2(k - 1);
        DivisorOfPow2(n / 2, q, k - 1);
      } else {
        OddTimesOdd(n, q);
        assert q == 2 * (q / 2);
        assert n * (q / 2) == Pow2(k - 1);
        DivisorOfPow2(n, q / 2, k - 1);
      }
    }
  }

  lemma OddTimesOdd(n: nat, q: nat)
    requires n % 2 == 1 && (n * q) % 2 == 0
    ensures q % 2 == 0
  {
    var m := n / 2;
    assert n * q == 2 * (m * q) + q;
  }

  lemma SmallMultiple(d: int, c: int)
    requires -c < d * c < c
    ensures d == 0
  {
    assert d >= 1 ==> d * c >= c;
    assert d <= -1 ==> d * c <= -c;
  }

  /** Division is unique: the one fact all the slot arithmetic comes down to. */
  lemma ModUnique(a: int, q: int, r: int, c: nat)
    requires c > 0 && a == q * c + r && 0 <= r < c
    ensures a % c == r
  {
    assert a == (a / c) * c + a % c;
    assert (q - a / c) * c == a % c - r;
    SmallMultiple(q - a / c, c);
  }

  lemma ModAddMultiple(x: int, k: int, c: nat)
    requires c > 0
    ensures (x + k * c) % c == x % c
  {
    assert x + k * c == (x / c + k) * c + x % c;
    ModUnique(x + k * c, x / c + k, x % c, c);
  }

  lemma ModStep(x: nat, n: nat)
    requires n > 0
    ensures (x % n + 1) % n == (x + 1) % n
  {
    assert x + 1 == (x % n + 1) + (x / n) * n;
    ModAddMultiple(x % n + 1, x / n, n);
  }

  /** Reducing modulo m first is harmless when c divides m. */
  lemma ModOfMod(x: int, m: nat, c: nat)
    requires c > 0 && m > 0 && m % c == 0
    ensures (x % m) % c == x % c
  {
    var k := (x / m) * (m / c);
    assert m == (m / c) * c;
    assert x == (x / m) * m + x % m;
    assert x == x % m + k * c;
    ModAddMultiple(x % m, k, c);
  }

  /** Two counters less than c apart never share a residue modulo c. */
  lemma ResiduesDiffer(a: int, b: int, c: nat)
    requires c > 0 && a < b < a + c
    ensures a % c != b % c
  {
    var d := b / c - a / c;
    assert b - a == d * c + (b % c - a % c);
    if d * c == b - a {
      SmallMultiple(d, c);
    }
  }

  lemma CounterNext(n: nat)
    ensures Add(n % WORD, 1) == (n + 1) % WORD
  {
  }

  lemma CounterGap(a: nat, b: nat)
    requires a <= b < a + WORD
    ensures Sub(b % WORD, a % WORD) == b - a
  {
    ModUnique(b % WORD - a % WORD, a / WORD - b / WORD, b - a, WORD);
  }

  lemma PowerOfTwoDivides(n: nat)
    requires PowerOfTwo(n) && n <= WORD
    ensures WORD % n == 0
  {
    var k := PowerOfTwoExponent(n);
    WordIsPow2();
    if k > 32 {
      Pow2Grows(32, k);
    }
    Pow2Sum(32 - k, k);
    ModUnique(WORD, Pow2(32 - k), 0, n);
  }

  /** A size divides 2^32 exactly when it is a power of two. */
  lemma DividesWordIffPowerOfTwo(n: nat)
    requires 0 < n <= WORD
    ensures WORD % n == 0 <==> PowerOfTwo(n)
  {
    if PowerOfTwo(n) {
      PowerOfTwoDivides(n);
    }
    if WORD % n == 0 {
      WordIsPow2();
      assert n * (WORD / n) == WORD;
      DivisorOfPow2(n, WORD / n, 32);
    }
  }
}
