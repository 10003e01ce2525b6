// Shift-subtract division (lib/src/pimath.c, lines 3-26).
module Division {
  function Pow2(k: nat): (p: nat)
    ensures p >= 1
  {
    if k == 0 then 1 else 2 * Pow2(k - 1)
  }

  lemma PowerValues()
    ensures Pow2(31) == 0x8000_0000 && Pow2(32) == 0x1_0000_0000 && Pow2(0) == 1
  {
    assert Pow2(8) == 0x100;
    assert Pow2(16) == 0x1_0000;
    assert Pow2(24) == 0x100_0000;
    assert Pow2(31) == 0x8000_0000;
  }

  lemma {:induction false} PowerMono(j: nat, k: nat)
    requires j <= k
    ensures Pow2(j) <= Pow2(k)
  {
    if j < k { PowerMono(j, k - 1); }
  }

  /** Shifting by one bit less brings in the next bit. */
  lemma NextBit(n: nat, i: nat)
    ensures n / Pow2(i) == 2 * (n / Pow2(i + 1)) + n / Pow2(i) % 2
  {
    var p, x := Pow2(i), n / Pow2(i);
    assert Pow2(i + 1) == 2 * p;
    Nested(n, p);
  }

  lemma Nested(n: nat, p: nat)
    requires p >= 1
    ensures n / (2 * p) == n / p / 2
  {
    TwiceOver(n, p, n / p, n % p, n / p / 2, n / p % 2);
  }

  lemma TwiceOver(n: nat, p: nat, x: nat, m: nat, y: nat, b: nat)
    requires p >= 1 && n == x * p + m && m < p && x == 2 * y + b && b < 2
    ensures n / (2 * p) == y
  {
    Distribute(y, b, p);
    Quotient(n, 2 * p, y, b * p + m);
  }

  lemma Distribute(y: nat, b: nat, p: nat)
    ensures (2 * y + b) * p == y * (2 * p) + b * p
  {
  }

  lemma Quotient(n: nat, d: nat, q: int, r: int)
    requires d > 0 && n == q * d + r && 0 <= r < d
    ensures n / d == q
  {
    var e := n / d;
    assert n == e * d + n % d;
    Difference(q, e, d);
    SmallMultiple(q - e, d, n % d - r);
  }

  lemma Difference(q: int, e: int, d: int)
    ensures (q - e) * d == q * d - e * d
  {
  }

  lemma SmallMultiple(k: int, d: int, x: int)
    requires k * d == x && -d < x < d
    ensures k == 0
  {
    if k >= 1 { Product(k, d); } else if k <= -1 { Product(-k, d); }
  }

  lemma Product(k: int, d: int)
    requires k >= 1 && d >= 0
    ensures k * d >= d
  {
  }

  /** `(n >> i) & 1`. */
  function BitOf(n: nat, i: nat): (b: nat)
    ensures b <= 1
  {
    n / Pow2(i) % 2
  }

  /** Before bit `k` - 1 is looked at: the quotient of the upper bits is in the upper bits of `q`, and
      the remainder never exceeds those upper bits of `n`. */
  ghost predicate Dividing(n: nat, d: nat, k: nat, q: nat, r: nat, upper: nat) {
    && q == upper * Pow2(k) && n / Pow2(k) == upper * d + r && r <= n / Pow2(k)
    && (d > 0 ==> r < d) && (d == 0 ==> (upper + 1) * Pow2(k) == 0x1_0000_0000)
  }

  lemma DivideStart(n: nat, d: nat)
    requires n < 0x1_0000_0000
    ensures Dividing(n, d, 32, 0, 0, 0)
  {
    PowerValues();
  }

  /** The shift of line 12 never overflows: the remainder is at most what the upper bits of `n` are. */
  lemma NoOverflow(n: nat, d: nat, k: nat, q: nat, r: nat, upper: nat)
    requires n < 0x1_0000_0000 && 0 < k <= 32 && Dividing(n, d, k, q, r, upper)
    ensures 2 * r + 1 < 0x1_0000_0000
  {
    PowerMono(1, k);
    assert Pow2(1) == 2;
    Halved(n, Pow2(k));
  }

  lemma Halved(n: nat, p: nat)
    requires p >= 2
    ensures 2 * (n / p) <= n
  {
    assert n == n / p * p + n % p;
    assert n / p * p >= n / p * 2 by { Grows(n / p, 2, p); }
  }

  lemma Grows(x: nat, a: nat, b: nat)
    requires a <= b
    ensures x * a <= x * b
  {
  }

  lemma DivideStep(n: nat, d: nat, k: nat, q: nat, r: nat, upper: nat)
    requires k > 0 && Dividing(n, d, k, q, r, upper)
    ensures var r1 := 2 * r + BitOf(n, k - 1); r1 >= d ==> Dividing(n, d, k - 1, q + Pow2(k - 1), r1 - d, 2 * upper + 1)
    ensures var r1 := 2 * r + BitOf(n, k - 1); r1 < d ==> Dividing(n, d, k - 1, q, r1, 2 * upper)
  {
    NextBit(n, k - 1);
    var p := Pow2(k - 1);
    assert Pow2(k) == 2 * p;
    UpperBits(upper, p, d);
  }

  lemma UpperBits(u: nat, p: nat, d: nat)
    ensures u * (2 * p) == 2 * u * p && (2 * u + 1) * p == 2 * u * p + p && (u + 1) * (2 * p) == (2 * u + 2) * p
    ensures (2 * u) * d == 2 * (u * d) && (2 * u + 1) * d == 2 * (u * d) + d
  {
  }

  /** `udivmod`: by zero it gives all ones and the dividend. */
  method UdivMod(n: nat, d: nat) returns (quot: nat, rem: nat)
    requires n < 0x1_0000_0000 && d < 0x1_0000_0000
    ensures d > 0 ==> n == quot * d + rem && rem < d
    ensures d == 0 ==> quot == 0xFFFF_FFFF && rem == n
    ensures quot < 0x1_0000_0000
  {
    hide *;
    var q: nat, r: nat := 0, 0;
    ghost var upper: nat := 0;
    DivideStart(n, d);
    var i: int := 31;
    while i >= 0
      invariant -1 <= i <= 31 && Dividing(n, d, i + 1, q, r, upper)
    {
      NoOverflow(n, d, i + 1, q, r, upper);
      DivideStep(n, d, i + 1, q, r, upper);
      r := 2 * r % 0x1_0000_0000;
      r := r + BitOf(n, i);
      if r >= d {
        r := r - d;
        q := q + Pow2(i);
        upper := 2 * upper + 1;
      } else {
        upper := 2 * upper;
      }
      i := i - 1;
    }
    DivideEnd(n, d, q, r, upper);
    quot, rem := q, r;
  }

  lemma DivideEnd(n: nat, d: nat, q: nat, r: nat, upper: nat)
    requires n < 0x1_0000_0000 && Dividing(n, d, 0, q, r, upper)
    ensures d > 0 ==> n == q * d + r && r < d
    ensures d == 0 ==> q == 0xFFFF_FFFF && r == n
    ensures q < 0x1_0000_0000
  {
    assert Pow2(0) == 1;
    if d > 0 && q >= 0x1_0000_0000 { Product(d, q); }
  }
}
