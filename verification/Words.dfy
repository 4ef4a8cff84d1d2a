/** Fixed-width unsigned integers of the source, as subset types of int, and masking. */
module Words {
  const TWO_16: int := 0x1_0000
  const TWO_32: int := 0x1_0000_0000
  const TWO_64: int := 0x1_0000_0000_0000_0000

  type byte = x: int | 0 <= x < 256
  type uint16 = x: int | 0 <= x < TWO_16
  type uint32 = x: int | 0 <= x < TWO_32
  type uint64 = x: int | 0 <= x < TWO_64

  /** "No node" in index form (INVALID_INDEX, kPoolInvalid). */
  const INVALID: uint32 := 0xFFFF_FFFF

  /** The order reference that marks a free slot of the order map. */
  const EMPTY: uint64 := 0xFFFF_FFFF_FFFF_FFFF

  /** `x & (capacity - 1)` for a power-of-two capacity, on wrapping machine words. */
  function Masked(x: int, capacity: nat): (r: nat)
    requires capacity > 0
    ensures r < capacity
  {
    x % capacity
  }

  lemma ModUnique(x: int, m: int, q: int, r: int)
    requires m > 0 && 0 <= r < m && x == q * m + r
    ensures x % m == r
  {
    var d := x / m - q;
    assert d * m == r - x % m;
    assert d >= 1 ==> d * m >= m;
    assert d <= -1 ==> d * m <= -m;
  }

  // ---- Masks ----

  predicate PowerOfTwo(n: nat) {
    n == 1 || (n > 0 && n % 2 == 0 && PowerOfTwo(n / 2))
  }

  /** Bitwise and. */
  function And(x: nat, y: nat): (r: nat) {
    if x == 0 || y == 0 then 0 else (if x % 2 == 1 && y % 2 == 1 then 1 else 0) + 2 * And(x / 2, y / 2)
  }

  lemma Twice(q: int, h: int)
    ensures q * (2 * h) == 2 * (q * h)
  {
  }

  /** The remainder by an even number, from that of the half. */
  lemma DoubleRemainder(x: nat, y: nat, b: nat, h: nat, c: nat)
    requires h > 0 && c == 2 * h && x == 2 * y + b && b < 2
    ensures x % c == 2 * (y % h) + b
  {
    var q, r := y / h, y % h;
    assert y == q * h + r;
    Twice(q, h);
    ModUnique(x, c, q, 2 * r + b);
  }

  /** One bit of an and with an odd number. */
  lemma AndOdd(x: nat, y: nat, half: nat)
    requires x > 0 && y % 2 == 1 && y / 2 == half
    ensures And(x, y) == x % 2 + 2 * And(x / 2, half)
  {
  }

  lemma {:induction false} AndLowBits(x: nat, c: nat)
    requires PowerOfTwo(c)
    ensures And(x, c - 1) == x % c
    decreases c
  {
    if x == 0 {
      ModUnique(x, c, 0, 0);
    } else if c == 1 {
      ModUnique(x, c, x, 0);
    } else {
      var h := c / 2;
      AndLowBits(x / 2, h);
      AndOdd(x, c - 1, h - 1);
      DoubleRemainder(x, x / 2, x % 2, h, c);
    }
  }

  lemma {:induction false} PowersDivide(c: nat, n: nat) returns (m: nat)
    requires PowerOfTwo(c) && PowerOfTwo(n) && c <= n
    ensures n == c * m && m > 0
  {
    if c == 1 {
      m := n;
    } else {
      m := PowersDivide(c / 2, n / 2);
      assert n == 2 * (c / 2 * m) == 2 * (c / 2) * m;
    }
  }

  lemma {:induction false} PowersMultiply(a: nat, b: nat)
    requires PowerOfTwo(a) && PowerOfTwo(b)
    ensures PowerOfTwo(a * b)
  {
    if a > 1 {
      PowersMultiply(a / 2, b);
      var half := a / 2 * b;
      assert a * b == 2 * (a / 2) * b == 2 * half;
      assert half > 0;
      assert a * b % 2 == 0 && a * b / 2 == half;
    }
  }

  lemma WordPowers()
    ensures PowerOfTwo(TWO_16) && PowerOfTwo(TWO_32) && PowerOfTwo(TWO_64)
  {
    assert PowerOfTwo(16) by { assert PowerOfTwo(4) by { assert PowerOfTwo(1); } }
    PowersMultiply(16, 16);
    PowersMultiply(256, 256);
    PowersMultiply(TWO_16, TWO_16);
    PowersMultiply(TWO_32, TWO_32);
  }

  lemma RemainderTwice(x: int, c: int, m: int)
    requires c > 0 && m > 0 && c * m > 0
    ensures x % (c * m) % c == x % c
  {
    var n := c * m;
    var a, w := x / n, x % n;
    var q, r := w / c, w % c;
    assert x == n * a + w;
    assert w == q * c + r;
    Reorder(c, m, a, q);
    ModUnique(x, c, m * a + q, r);
  }

  lemma Reorder(c: int, m: int, a: int, q: int)
    ensures c * m * a + q * c == (m * a + q) * c
  {
    assert c * m * a == m * a * c;
  }

  /** On 64-bit words that wrap, `x & (capacity - 1)` is the remainder, negative differences included. */
  lemma MaskedIsAnd(x: int, capacity: nat)
    requires PowerOfTwo(capacity) && capacity <= TWO_64
    ensures And(x % TWO_64, capacity - 1) == Masked(x, capacity)
  {
    WordPowers();
    var m := PowersDivide(capacity, TWO_64);
    AndLowBits(x % TWO_64, capacity);
    RemainderTwice(x, capacity, m);
  }

  datatype Option<+T> = None | Some(value: T)
}
