/** Integer arithmetic modulo a positive modulus: the congruence laws that the
    threshold-key and codec proofs need, and inverses modulo a prime. */
module Modular {

  /** JavaScript's `%` on bigint: the remainder takes the sign of the dividend. */
  function JsRem(a: int, n: int): (r: int)
    requires n > 0
    ensures -n < r < n
  {
    if a >= 0 then a % n else -((-a) % n)
  }

  /** `mod` of shamir.ts: the truncated remainder moved into [0, n). */
  function Mod(a: int, n: int): (r: int)
    requires n > 0
    ensures 0 <= r < n && r == a % n
  {
    var r := JsRem(a, n);
    JsRemOfNegative(a, n);
    if r >= 0 then r else r + n
  }

  lemma {:induction false} JsRemOfNegative(a: int, n: int)
    requires n > 0
    ensures a % n == if JsRem(a, n) >= 0 then JsRem(a, n) else JsRem(a, n) + n
  {
    if a < 0 {
      var b := -a;
      assert a == -(b / n) * n - b % n == (-(b / n) - 1) * n + (n - b % n);
      if b % n == 0 {
        ModIs(a, 0, -(b / n), n);
      } else {
        ModIs(a, n - b % n, -(b / n) - 1, n);
      }
    }
  }

  /** Euclidean division is unique. */
  lemma {:induction false} ModIs(a: int, r: int, k: int, n: int)
    requires n > 0 && 0 <= r < n && a == k * n + r
    ensures a % n == r && a / n == k
  {
    var d := a / n - k;
    assert a == (a / n) * n + a % n;
    assert (a / n) * n - k * n == d * n;
    assert d * n == r - a % n;
    if d >= 1 { MulMono(1, d, n); }
    if d <= -1 { MulMono(d, -1, n); }
  }

  lemma {:induction false} MulMono(a: int, b: int, c: int)
    requires a <= b && c >= 0
    ensures a * c <= b * c
  {
  }

  lemma {:induction false} MulAssoc(a: int, b: int, c: int)
    ensures a * (b * c) == (a * b) * c
  {
  }

  /** Adding a multiple of the modulus changes nothing. */
  lemma {:induction false} ModShift(a: int, k: int, n: int)
    requires n > 0
    ensures (a + k * n) % n == a % n
  {
    assert a + k * n == (a / n) * n + a % n + k * n == (a / n + k) * n + a % n;
    ModIs(a + k * n, a % n, a / n + k, n);
  }

  lemma {:induction false} ModAdd(a: int, b: int, n: int)
    requires n > 0
    ensures (a % n + b) % n == (a + b) % n
  {
    assert a % n + b == a + b + (-(a / n)) * n;
    ModShift(a + b, -(a / n), n);
  }

  lemma {:induction false} ModMul(a: int, b: int, n: int)
    requires n > 0
    ensures ((a % n) * b) % n == (a * b) % n
  {
    var k := a / n;
    assert (a % n) * b == (a - k * n) * b == a * b - k * n * b;
    assert k * n * b == (k * b) * n;
    assert (a % n) * b == a * b + (-(k * b)) * n;
    ModShift(a * b, -(k * b), n);
  }

  /** Congruence modulo n. */
  predicate Cong(a: int, b: int, n: int)
    requires n > 0
  {
    a % n == b % n
  }

  lemma {:induction false} CongAdd(a: int, a': int, b: int, b': int, n: int)
    requires n > 0 && Cong(a, a', n) && Cong(b, b', n)
    ensures Cong(a + b, a' + b', n)
  {
    ModAdd(a, b, n);
    ModAdd(a', b, n);
    ModAdd(b, a', n);
    ModAdd(b', a', n);
  }

  lemma {:induction false} CongMul(a: int, a': int, b: int, b': int, n: int)
    requires n > 0 && Cong(a, a', n) && Cong(b, b', n)
    ensures Cong(a * b, a' * b', n)
  {
    ModMul(a, b, n);
    ModMul(a', b, n);
    ModMul(b, a', n);
    ModMul(b', a', n);
  }

  lemma {:induction false} CongSub(a: int, a': int, b: int, b': int, n: int)
    requires n > 0 && Cong(a, a', n) && Cong(b, b', n)
    ensures Cong(a - b, a' - b', n)
  {
    CongMul(-1, -1, b, b', n);
    CongAdd(a, a', -b, -b', n);
  }

  /** r is an inverse of a. Modulo 1 every number is. */
  predicate IsInverse(r: int, a: int, n: int)
    requires n > 0
  {
    Cong(r * a, 1, n)
  }

  /** Inverses are unique as residues. */
  lemma {:induction false} InverseUnique(r: int, s: int, a: int, n: int)
    requires n > 0 && IsInverse(r, a, n) && IsInverse(s, a, n)
    ensures Cong(r, s, n)
  {
    CongMul(r * a, 1, s, s, n);
    CongMul(s * a, 1, r, r, n);
    assert r * a * s == s * a * r;
  }

  lemma {:induction false} InverseProduct(r: int, a: int, s: int, b: int, n: int)
    requires n > 0 && IsInverse(r, a, n) && IsInverse(s, b, n)
    ensures IsInverse(r * s, a * b, n)
  {
    CongMul(r * a, 1, s * b, 1, n);
    assert (r * a) * (s * b) == (r * s) * (a * b);
  }

  /** A common factor with an inverse cancels. */
  lemma {:induction false} Cancel(r: int, a: int, x: int, y: int, n: int)
    requires n > 0 && IsInverse(r, a, n) && Cong(a * x, a * y, n)
    ensures Cong(x, y, n)
  {
    CongMul(r, r, a * x, a * y, n);
    CongMul(r * a, 1, x, x, n);
    CongMul(r * a, 1, y, y, n);
    assert r * (a * x) == (r * a) * x && r * (a * y) == (r * a) * y;
  }

  predicate Divides(d: int, a: int)
    requires d > 0
  {
    a % d == 0
  }

  lemma {:induction false} DividesLinear(d: int, a: int, b: int, k: int)
    requires d > 0 && Divides(d, a) && Divides(d, b)
    ensures Divides(d, a - k * b)
  {
    CongMul(k, k, b, 0, d);
    CongSub(a, 0, k * b, 0, d);
  }

  ghost predicate Coprime(a: int, n: int)
  {
    forall d :: d > 0 && Divides(d, a) && Divides(d, n) ==> d == 1
  }

  /** An invertible residue shares no factor with the modulus. */
  lemma {:induction false} InvertibleIsCoprime(r: int, a: int, n: int)
    requires n > 0 && IsInverse(r, a, n)
    ensures Coprime(a, n)
  {
    forall d | d > 0 && Divides(d, a) && Divides(d, n)
      ensures d == 1
    {
      var k := (r * a) / n - 1 / n;
      assert 1 == r * a - k * n;
      CongMul(r, r, a, 0, d);
      DividesLinear(d, r * a, n, k);
      if d > 1 { ModIs(1, 1, 0, d); }
    }
  }

  ghost predicate IsPrime(q: int)
  {
    q >= 2 && forall d :: 2 <= d < q ==> !Divides(d, q)
  }

  /** Modulo a prime every non-zero residue has an inverse. */
  lemma {:induction false} PrimeInverse(a: int, q: int) returns (r: int)
    requires IsPrime(q) && a % q != 0
    ensures IsInverse(r, a, q)
  {
    r := SmallInverse(a % q, q);
    ModMul(a, r, q);
    assert r * (a % q) == (a % q) * r && r * a == a * r;
  }

  lemma {:induction false} SmallInverse(a: int, q: int) returns (r: int)
    requires IsPrime(q) && 0 < a < q
    ensures IsInverse(r, a, q)
    decreases a
  {
    if a == 1 {
      r := 1;
    } else {
      assert !Divides(a, q);
      var k, b := q / a, q % a;
      var s := SmallInverse(b, q);
      r := -s * k;
      assert b == q - k * a;
      assert r * a == s * b + (-s) * q by {
        assert s * b == s * q - s * (k * a);
        assert r * a == -(s * (k * a));
      }
      ModShift(s * b, -s, q);
    }
  }
}
