/** Shamir secret sharing over the residues modulo a prime q (backend/src/mpc/shamir.ts).
    The code fixes q to the order of secp256k1; nothing here depends on that choice.
    Random scalars are parameters. */
module Shamir {
  import opened Modular
  import opened Wrappers

  datatype Share = Share(x: int, y: int)

  // ---------------------------------------------------------------- inverse

  /** `invMod`: extended Euclid. It succeeds exactly when a and n are coprime. */
  method InvMod(a: int, n: int) returns (r: Option<int>)
    requires n > 0
    ensures r.Some? <==> Coprime(a, n)
    ensures r.Some? ==> 0 <= r.value < n && IsInverse(r.value, a, n)
  {
    var oldR, rem := Mod(a, n), n;
    var oldS, s := 1, 0;
    assert SameDivisors(oldR, rem, a, n) by { ModSameDivisors(a, n); }
    while rem != 0
      invariant oldR >= 0 && rem >= 0 && oldR + rem > 0
      invariant SameDivisors(oldR, rem, a, n)
      invariant Cong(oldS * a, oldR, n) && Cong(s * a, rem, n)
      decreases rem
    {
      var q := oldR / rem;
      assert oldR - q * rem == oldR % rem;
      EuclidKeepsDivisors(oldR, rem, q, a, n);
      EuclidKeepsBezout(oldR, rem, oldS, s, q, a, n);
      oldR, rem := rem, oldR - q * rem;
      oldS, s := s, oldS - q * s;
    }
    GcdReached(oldR, a, n);
    if oldR != 1 {
      return None;
    }
    ModMul(oldS, a, n);
    return Some(Mod(oldS, n));
  }

  ghost predicate SameDivisors(a: int, b: int, c: int, d: int)
  {
    forall k :: k > 0 ==> (Divides(k, a) && Divides(k, b) <==> Divides(k, c) && Divides(k, d))
  }

  lemma {:induction false} ModSameDivisors(a: int, n: int)
    requires n > 0
    ensures SameDivisors(a % n, n, a, n)
  {
    forall k | k > 0
      ensures Divides(k, a % n) && Divides(k, n) <==> Divides(k, a) && Divides(k, n)
    {
      var m := a / n;
      assert a % n == a - m * n && a == a % n - (-m) * n;
      if Divides(k, n) && Divides(k, a) { DividesLinear(k, a, n, m); }
      if Divides(k, n) && Divides(k, a % n) { DividesLinear(k, a % n, n, -m); }
    }
  }

  lemma {:induction false} EuclidKeepsDivisors(x: int, y: int, q: int, a: int, n: int)
    requires SameDivisors(x, y, a, n)
    ensures SameDivisors(y, x - q * y, a, n)
  {
    forall k | k > 0
      ensures Divides(k, y) && Divides(k, x - q * y) <==> Divides(k, a) && Divides(k, n)
    {
      if Divides(k, y) && Divides(k, x) { DividesLinear(k, x, y, q); }
      if Divides(k, y) && Divides(k, x - q * y) {
        DividesLinear(k, x - q * y, y, -q);
        assert x - q * y - (-q) * y == x;
      }
    }
  }

  lemma {:induction false} EuclidKeepsBezout(x: int, y: int, u: int, v: int, q: int, a: int, n: int)
    requires n > 0 && Cong(u * a, x, n) && Cong(v * a, y, n)
    ensures Cong((u - q * v) * a, x - q * y, n)
  {
    CongMul(q, q, v * a, y, n);
    CongSub(u * a, x, q * (v * a), q * y, n);
    assert u * a - q * (v * a) == (u - q * v) * a;
  }

  lemma {:induction false} GcdReached(g: int, a: int, n: int)
    requires g > 0 && n > 0 && SameDivisors(g, 0, a, n)
    ensures g == 1 <==> Coprime(a, n)
  {
    assert Divides(g, g) && Divides(g, 0) by { ModIs(g, 0, 1, g); }
    if g == 1 {
      forall d | d > 0 && Divides(d, a) && Divides(d, n)
        ensures d == 1
      {
        assert Divides(d, 1);
        if d > 1 { ModIs(1, 1, 0, d); }
      }
    }
  }

  // ------------------------------------------------------------ polynomials

  /** The integer value of a polynomial, lowest coefficient first. */
  function Poly(coeffs: seq<int>, x: int): int
  {
    if coeffs == [] then 0 else coeffs[0] + x * Poly(coeffs[1..], x)
  }

  /** `evalPoly`: Horner's rule from the top coefficient, reduced at every step. */
  method EvalPoly(coeffs: seq<int>, x: int, q: int) returns (acc: int)
    requires q > 0
    ensures acc == Poly(coeffs, x) % q
  {
    acc := 0;
    var i := |coeffs|;
    assert coeffs[i..] == [];
    while i > 0
      invariant 0 <= i <= |coeffs|
      invariant acc == Poly(coeffs[i..], x) % q
    {
      i := i - 1;
      assert coeffs[i..][1..] == coeffs[i + 1..];
      HornerStep(Poly(coeffs[i + 1..], x), x, coeffs[i], q);
      acc := Mod(acc * x + coeffs[i], q);
    }
    assert coeffs[0..] == coeffs;
  }

  lemma {:induction false} HornerStep(p: int, x: int, c: int, q: int)
    requires q > 0
    ensures ((p % q) * x + c) % q == (c + x * p) % q
  {
    CongMul(p % q, p, x, x, q) by { ModAdd(p, 0, q); }
    CongAdd((p % q) * x, p * x, c, c, q);
  }

  /** `split`: one share at each of x = 1 .. n, of a polynomial through the secret. */
  function Split(secret: int, t: int, n: int, randoms: seq<int>, q: int): (r: Result<seq<Share>, string>)
    requires q > 0 && (1 <= t ==> |randoms| == t - 1)
    ensures r.Success? <==> 1 <= t <= n
    ensures r.Success? ==> |r.value| == n && OnPolynomial(r.value, [Mod(secret, q)] + randoms, q)
    ensures r.Success? ==> forall i :: 0 <= i < n ==> r.value[i].x == i + 1
  {
    if t < 1 || t > n then Failure("invalid threshold")
    else Success(SharesOf([Mod(secret, q)] + randoms, n, q))
  }

  function SharesOf(coeffs: seq<int>, n: nat, q: int): (r: seq<Share>)
    requires q > 0
    ensures |r| == n && OnPolynomial(r, coeffs, q)
    ensures forall i :: 0 <= i < n ==> r[i].x == i + 1
  {
    ModTwice(q);
    seq(n, i requires 0 <= i < n => Share(i + 1, Poly(coeffs, i + 1) % q))
  }

  lemma {:induction false} ModTwice(q: int)
    requires q > 0
    ensures forall a: int :: (a % q) % q == a % q
  {
    forall a: int ensures (a % q) % q == a % q { ModAdd(a, 0, q); }
  }

  /** Every share lies on the polynomial, modulo q. */
  ghost predicate OnPolynomial(shares: seq<Share>, coeffs: seq<int>, q: int)
    requires q > 0
  {
    forall i :: 0 <= i < |shares| ==> Cong(shares[i].y, Poly(coeffs, shares[i].x), q)
  }

  /** x-coordinates that are non-zero and pairwise distinct modulo q. */
  ghost predicate Usable(xs: seq<int>, q: int)
    requires q > 0
  {
    && (forall i :: 0 <= i < |xs| ==> xs[i] % q != 0)
    && Distinct(xs, q)
  }

  ghost predicate Distinct(xs: seq<int>, q: int)
    requires q > 0
  {
    forall i, j :: 0 <= i < j < |xs| ==> (xs[i] - xs[j]) % q != 0
  }

  // ----------------------------------------------- vanishing weighted sums

  /** The product of (x - xs[j]) over every j with xs[j] != x: combine's `den`. */
  function Den(x: int, xs: seq<int>): int
  {
    if xs == [] then 1
    else Den(x, xs[..|xs| - 1]) * (if xs[|xs| - 1] == x then 1 else x - xs[|xs| - 1])
  }

  function Dot(ws: seq<int>, vs: seq<int>): int
    requires |ws| == |vs|
  {
    if ws == [] then 0
    else Dot(ws[..|ws| - 1], vs[..|vs| - 1]) + ws[|ws| - 1] * vs[|vs| - 1]
  }

  function Values(coeffs: seq<int>, xs: seq<int>): seq<int>
  {
    seq(|xs|, i requires 0 <= i < |xs| => Poly(coeffs, xs[i]))
  }

  /** ws[i] inverts the product of differences at xs[i]. */
  ghost predicate Weights(ws: seq<int>, xs: seq<int>, q: int)
    requires q > 0
  {
    |ws| == |xs| && forall i :: 0 <= i < |xs| ==> IsInverse(ws[i], Den(xs[i], xs), q)
  }

  /** The weights scaled by (x - a): weights again once the point a is dropped. */
  function Peel(ws: seq<int>, xs: seq<int>, a: int): (r: seq<int>)
    requires |ws| == |xs|
    ensures |r| == |ws|
  {
    seq(|ws|, i requires 0 <= i < |ws| => ws[i] * (xs[i] - a))
  }

  /** Splitting p(x) = c + (x - a) h(x) + a h(x) under a weighted sum. */
  lemma {:induction false} DotPoly(ws: seq<int>, xs: seq<int>, p: seq<int>, a: int)
    requires |ws| == |xs| && p != []
    ensures Dot(ws, Values(p, xs)) == p[0] * Dot(ws, Values([1], xs))
      + Dot(Peel(ws, xs, a), Values(p[1..], xs)) + a * Dot(ws, Values(p[1..], xs))
  {
    var k := |ws| - 1;
    if k >= 0 {
      var w, x := ws[k], xs[k];
      DotPoly(ws[..k], xs[..k], p, a);
      assert Peel(ws, xs, a)[..k] == Peel(ws[..k], xs[..k], a);
      assert Values(p, xs)[..k] == Values(p, xs[..k]);
      assert Values([1], xs)[..k] == Values([1], xs[..k]);
      assert Values(p[1..], xs)[..k] == Values(p[1..], xs[..k]);
      assert Poly([1], x) == 1;
      DotPolyStep(w, x, a, p[0], Poly(p[1..], x), Dot(ws[..k], Values([1], xs[..k])),
                  Dot(Peel(ws[..k], xs[..k], a), Values(p[1..], xs[..k])),
                  Dot(ws[..k], Values(p[1..], xs[..k])));
    }
  }

  lemma {:induction false} DotPolyStep(w: int, x: int, a: int, c: int, h: int, one: int, peel: int, rest: int)
    ensures c * one + peel + a * rest + w * (c + x * h)
         == c * (one + w) + (peel + (w * (x - a)) * h) + a * (rest + w * h)
  {
    assert w * (x * h) == (w * x) * h && (w * (x - a)) * h == (w * x) * h - (w * a) * h;
    assert a * (w * h) == (w * a) * h;
  }

  lemma {:induction false} DotZero(ws: seq<int>, vs: seq<int>)
    requires |ws| == |vs| && forall i :: 0 <= i < |vs| ==> vs[i] == 0
    ensures Dot(ws, vs) == 0
  {
    if ws != [] { DotZero(ws[..|ws| - 1], vs[..|vs| - 1]); }
  }

  lemma {:induction false} DotCons(w: int, ws: seq<int>, v: int, vs: seq<int>)
    requires |ws| == |vs|
    ensures Dot([w] + ws, [v] + vs) == w * v + Dot(ws, vs)
  {
    if ws == [] {
      assert ([w] + ws)[..0] == [] && ([v] + vs)[..0] == [];
    } else {
      var k := |ws| - 1;
      DotCons(w, ws[..k], v, vs[..k]);
      assert ([w] + ws)[..k + 1] == [w] + ws[..k];
      assert ([v] + vs)[..k + 1] == [v] + vs[..k];
    }
  }

  lemma {:induction false} DenCons(x: int, b: int, ys: seq<int>)
    ensures Den(x, [b] + ys) == Den(x, ys) * (if b == x then 1 else x - b)
  {
    if ys == [] {
      assert ([b] + ys)[..0] == [];
    } else {
      var k := |ys| - 1;
      DenCons(x, b, ys[..k]);
      assert ([b] + ys)[..k + 1] == [b] + ys[..k];
      var f, g := if b == x then 1 else x - b, if ys[k] == x then 1 else x - ys[k];
      assert Den(x, ys[..k]) * f * g == Den(x, ys[..k]) * g * f;
    }
  }

  lemma {:induction false} PeelLast(ws: seq<int>, xs: seq<int>, q: int)
    requires q > 0 && Weights(ws, xs, q) && Distinct(xs, q) && |xs| >= 1
    ensures var k := |xs| - 1;
      Weights(Peel(ws, xs, xs[k])[..k], xs[..k], q) && Distinct(xs[..k], q)
  {
    var k := |xs| - 1;
    var ys, us := xs[..k], Peel(ws, xs, xs[k])[..k];
    forall i | 0 <= i < k
      ensures IsInverse(us[i], Den(ys[i], ys), q)
    {
      PeelLastAt(ws[i], xs, i, q);
    }
  }

  lemma {:induction false} PeelLastAt(w: int, xs: seq<int>, i: int, q: int)
    requires q > 0 && Distinct(xs, q) && 0 <= i < |xs| - 1 && IsInverse(w, Den(xs[i], xs), q)
    ensures var k := |xs| - 1;
      && IsInverse(w * (xs[i] - xs[k]), Den(xs[i], xs[..k]), q)
      && IsInverse(w * Den(xs[i], xs[..k]), xs[i] - xs[k], q)
  {
    var k := |xs| - 1;
    Differ(xs[i], xs[k], q);
    MoveFactor(w, Den(xs[i], xs[..k]), xs[i] - xs[k], q);
  }

  lemma {:induction false} MoveFactor(w: int, d: int, f: int, q: int)
    requires q > 0
    ensures IsInverse(w, d * f, q) ==> IsInverse(w * f, d, q) && IsInverse(w * d, f, q)
  {
    assert w * (d * f) == (w * f) * d == (w * d) * f;
  }

  lemma {:induction false} PeelFirst(ws: seq<int>, xs: seq<int>, q: int)
    requires q > 0 && Weights(ws, xs, q) && Distinct(xs, q) && |xs| >= 1
    ensures Weights(Peel(ws, xs, xs[0])[1..], xs[1..], q) && Distinct(xs[1..], q)
  {
    var ys, us := xs[1..], Peel(ws, xs, xs[0])[1..];
    forall i | 0 <= i < |ys|
      ensures IsInverse(us[i], Den(ys[i], ys), q)
    {
      PeelFirstAt(ws[i + 1], xs, i + 1, q);
    }
    DistinctTail(xs, q);
  }

  lemma {:induction false} DistinctTail(xs: seq<int>, q: int)
    requires q > 0 && Distinct(xs, q) && |xs| >= 1
    ensures Distinct(xs[1..], q)
  {
    var ys := xs[1..];
    forall i, j | 0 <= i < j < |ys| ensures (ys[i] - ys[j]) % q != 0 {
      assert ys[i] == xs[i + 1] && ys[j] == xs[j + 1];
    }
  }

  lemma {:induction false} PeelFirstAt(w: int, xs: seq<int>, i: int, q: int)
    requires q > 0 && Distinct(xs, q) && 1 <= i < |xs| && IsInverse(w, Den(xs[i], xs), q)
    ensures IsInverse(w * (xs[i] - xs[0]), Den(xs[i], xs[1..]), q)
  {
    Differ(xs[0], xs[i], q);
    assert xs == [xs[0]] + xs[1..];
    DenCons(xs[i], xs[0], xs[1..]);
    MoveFactor(w, Den(xs[i], xs[1..]), xs[i] - xs[0], q);
  }

  lemma {:induction false} Differ(a: int, b: int, q: int)
    requires q > 0 && (a - b) % q != 0
    ensures a != b
  {
    if a == b { ModIs(0, 0, 0, q); }
  }

  lemma {:induction false} PeeledLastSum(ws: seq<int>, xs: seq<int>, p: seq<int>)
    requires |ws| == |xs| >= 1
    ensures var k := |xs| - 1;
      Dot(Peel(ws, xs, xs[k]), Values(p, xs)) == Dot(Peel(ws, xs, xs[k])[..k], Values(p, xs[..k]))
  {
    var k := |xs| - 1;
    assert Values(p, xs)[..k] == Values(p, xs[..k]);
    var z := Peel(ws, xs, xs[k]);
    assert z[k] == 0;
  }

  lemma {:induction false} PeeledFirstSum(ws: seq<int>, xs: seq<int>, p: seq<int>)
    requires |ws| == |xs| >= 1
    ensures Dot(Peel(ws, xs, xs[0]), Values(p, xs)) == Dot(Peel(ws, xs, xs[0])[1..], Values(p, xs[1..]))
  {
    var z := Peel(ws, xs, xs[0]);
    assert z[0] == 0;
    assert z == [0] + z[1..];
    assert Values(p, xs) == [Poly(p, xs[0])] + Values(p, xs[1..]);
    DotCons(0, z[1..], Poly(p, xs[0]), Values(p, xs[1..]));
  }

  /** The weights of at least two distinct points sum to zero. */
  lemma {:induction false} WeightsVanish(ws: seq<int>, xs: seq<int>, q: int)
    requires q > 0 && Weights(ws, xs, q) && Distinct(xs, q) && |xs| >= 2
    ensures Cong(Dot(ws, Values([1], xs)), 0, q)
    decreases |xs|
  {
    var k := |xs| - 1;
    var a, b := xs[k], xs[0];
    PeelLast(ws, xs, q);
    PeelFirst(ws, xs, q);
    PeeledLastSum(ws, xs, [1]);
    PeeledFirstSum(ws, xs, [1]);
    var wa, wb := Peel(ws, xs, a)[..k], Peel(ws, xs, b)[1..];
    var sa, sb := Dot(wa, Values([1], xs[..k])), Dot(wb, Values([1], xs[1..]));
    var s := Dot(ws, Values([1], xs));
    DotPoly(ws, xs, [0, 1], a);
    DotPoly(ws, xs, [0, 1], b);
    assert [0, 1][1..] == [1];
    assert sa + a * s == sb + b * s;
    if k == 1 {
      SingleWeight(wa, xs[..k], q);
      SingleWeight(wb, xs[1..], q);
    } else {
      WeightsVanish(wa, xs[..k], q);
      WeightsVanish(wb, xs[1..], q);
    }
    PeelLastAt(ws[0], xs, 0, q);
    FromPeeled(sa, sb, a, b, s, ws[0] * Den(b, xs[..k]), q);
  }

  lemma {:induction false} FromPeeled(sa: int, sb: int, a: int, b: int, s: int, r: int, q: int)
    requires q > 0 && sa + a * s == sb + b * s && Cong(sa, sb, q) && IsInverse(r, b - a, q)
    ensures Cong(s, 0, q)
  {
    CongSub(sa, sb, sb, sb, q);
    assert (b - a) * s == sa - sb;
    Cancel(r, b - a, s, 0, q);
  }

  lemma {:induction false} SingleWeight(ws: seq<int>, xs: seq<int>, q: int)
    requires q > 0 && Weights(ws, xs, q) && |xs| == 1
    ensures Cong(Dot(ws, Values([1], xs)), 1, q)
  {
    assert xs[..0] == [] && ws[..0] == [];
    assert Poly([1], xs[0]) == 1;
    assert Den(xs[0], xs) == 1;
    assert ws[0] * 1 == ws[0];
  }

  /** The same for the values of any polynomial with fewer coefficients than points. */
  lemma {:induction false} PolynomialVanishes(ws: seq<int>, xs: seq<int>, p: seq<int>, q: int)
    requires q > 0 && Weights(ws, xs, q) && Distinct(xs, q) && |p| < |xs|
    ensures Cong(Dot(ws, Values(p, xs)), 0, q)
    decreases |p|
  {
    if p == [] {
      DotZero(ws, Values(p, xs));
    } else {
      var k := |xs| - 1;
      var a, h := xs[k], p[1..];
      PeelLast(ws, xs, q);
      PeeledLastSum(ws, xs, h);
      DotPoly(ws, xs, p, a);
      WeightsVanish(ws, xs, q);
      PolynomialVanishes(Peel(ws, xs, a)[..k], xs[..k], h, q);
      PolynomialVanishes(ws, xs, h, q);
      SumOfZeros(p[0], a, Dot(ws, Values([1], xs)), Dot(Peel(ws, xs, a), Values(h, xs)), Dot(ws, Values(h, xs)), q);
    }
  }

  lemma {:induction false} SumOfZeros(c: int, a: int, x: int, y: int, z: int, q: int)
    requires q > 0 && Cong(x, 0, q) && Cong(y, 0, q) && Cong(z, 0, q)
    ensures Cong(c * x + y + a * z, 0, q)
  {
    CongMul(c, c, x, 0, q);
    CongMul(a, a, z, 0, q);
    CongAdd(c * x, 0, y, 0, q);
    CongAdd(c * x + y, 0, a * z, 0, q);
  }

  // ---------------------------------------------------------- reconstruction

  function Xs(shares: seq<Share>): (r: seq<int>)
    ensures |r| == |shares|
  {
    seq(|shares|, i requires 0 <= i < |shares| => shares[i].x)
  }

  function Ys(shares: seq<Share>): (r: seq<int>)
    ensures |r| == |shares|
  {
    seq(|shares|, i requires 0 <= i < |shares| => shares[i].y)
  }

  /** The product of -xs[j] over every j with xs[j] != x: combine's `num`. */
  function Num(x: int, xs: seq<int>): int
  {
    if xs == [] then 1
    else Num(x, xs[..|xs| - 1]) * (if xs[|xs| - 1] == x then 1 else -xs[|xs| - 1])
  }

  /** Two x-coordinates that differ but agree modulo q: combine cannot divide. */
  ghost predicate Clash(xs: seq<int>, q: int)
    requires q > 0
  {
    exists i, j :: 0 <= i < |xs| && 0 <= j < |xs| && xs[i] != xs[j] && (xs[i] - xs[j]) % q == 0
  }

  ghost function Inverse(a: int, q: int): (r: int)
    requires IsPrime(q) && a % q != 0
    ensures 0 <= r < q && IsInverse(r, a, q)
  {
    ReducedInverse(a, q);
    var r :| 0 <= r < q && IsInverse(r, a, q);
    r
  }

  lemma {:induction false} ReducedInverse(a: int, q: int)
    requires IsPrime(q) && a % q != 0
    ensures exists r :: 0 <= r < q && IsInverse(r, a, q)
  {
    var r := PrimeInverse(a, q);
    ModMul(r, a, q);
    assert 0 <= r % q < q && IsInverse(r % q, a, q);
  }

  lemma {:induction false} PrimeProduct(a: int, b: int, q: int)
    requires IsPrime(q)
    ensures (a * b) % q != 0 <==> a % q != 0 && b % q != 0
  {
    if a % q == 0 { CongMul(a, 0, b, b, q); }
    if b % q == 0 { CongMul(a, a, b, 0, q); }
    if a % q != 0 && Cong(a * b, 0, q) {
      var r := PrimeInverse(a, q);
      Cancel(r, a, b, 0, q);
    }
  }

  lemma {:induction false} DenNonZero(x: int, xs: seq<int>, q: int)
    requires IsPrime(q)
    ensures Den(x, xs) % q != 0 <==> forall j :: 0 <= j < |xs| && xs[j] != x ==> (x - xs[j]) % q != 0
  {
    if xs == [] {
      ModIs(1, 1, 0, q);
    } else {
      var k := |xs| - 1;
      DenNonZero(x, xs[..k], q);
      var f := if xs[k] == x then 1 else x - xs[k];
      ModIs(1, 1, 0, q);
      PrimeProduct(Den(x, xs[..k]), f, q);
      assert forall j :: 0 <= j < k ==> xs[..k][j] == xs[j];
    }
  }

  lemma {:induction false} NoClashDen(xs: seq<int>, q: int)
    requires IsPrime(q)
    ensures Clash(xs, q) <==> exists i :: 0 <= i < |xs| && Den(xs[i], xs) % q == 0
  {
    forall i | 0 <= i < |xs|
      ensures Den(xs[i], xs) % q != 0
        <==> forall j :: 0 <= j < |xs| && xs[j] != xs[i] ==> (xs[i] - xs[j]) % q != 0
    {
      DenNonZero(xs[i], xs, q);
    }
  }

  /** The Lagrange coefficients at zero. */
  ghost function Lagrange(xs: seq<int>, q: int): (r: seq<int>)
    requires IsPrime(q) && !Clash(xs, q)
    ensures |r| == |xs|
  {
    NoClashDen(xs, q);
    seq(|xs|, i requires 0 <= i < |xs| && Den(xs[i], xs) % q != 0 =>
      Num(xs[i], xs) * Inverse(Den(xs[i], xs), q))
  }

  lemma {:induction false} UsableNoClash(xs: seq<int>, q: int)
    requires q > 0 && Distinct(xs, q)
    ensures !Clash(xs, q)
  {
    forall i, j | 0 <= i < |xs| && 0 <= j < |xs| && xs[i] != xs[j]
      ensures (xs[i] - xs[j]) % q != 0
    {
      if i > j && Cong(-(xs[j] - xs[i]), 0, q) { NegatedZero(xs[j] - xs[i], q); }
    }
  }

  /** The product of all -xs[j] is combine's numerator at xs[i] times -xs[i]. */
  lemma {:induction false} FullProduct(xs: seq<int>, i: int)
    requires 0 <= i < |xs|
    requires forall j :: 0 <= j < |xs| ==> xs[j] != 0
    requires forall j :: 0 <= j < |xs| && j != i ==> xs[j] != xs[i]
    ensures Den(0, xs) == Num(xs[i], xs) * -xs[i]
  {
    var k := |xs| - 1;
    assert Den(0, xs) == Den(0, xs[..k]) * -xs[k];
    if i == k {
      NumIsDen(xs[i], xs[..k]);
    } else {
      FullProduct(xs[..k], i);
      var m := Num(xs[i], xs[..k]);
      assert m * -xs[i] * -xs[k] == m * -xs[k] * -xs[i];
    }
  }

  lemma {:induction false} NumIsDen(x: int, xs: seq<int>)
    requires forall j :: 0 <= j < |xs| ==> xs[j] != 0 && xs[j] != x
    ensures Num(x, xs) == Den(0, xs)
  {
    if xs != [] { NumIsDen(x, xs[..|xs| - 1]); }
  }

  lemma {:induction false} DotBridge(n: int, ws: seq<int>, ls: seq<int>, vs: seq<int>, ys: seq<int>, q: int)
    requires q > 0 && |ws| == |ls| == |vs| == |ys|
    requires forall i :: 0 <= i < |ws| ==> Cong(n * ws[i], -ls[i], q)
    requires forall i :: 0 <= i < |ws| ==> Cong(ys[i], vs[i], q)
    ensures Cong(n * Dot(ws, vs), -Dot(ls, ys), q)
  {
    if ws == [] {
      assert n * 0 == -0;
    } else {
      var k := |ws| - 1;
      DotBridge(n, ws[..k], ls[..k], vs[..k], ys[..k], q);
      CongMul(n * ws[k], -ls[k], vs[k], ys[k], q);
      CongAdd(n * Dot(ws[..k], vs[..k]), -Dot(ls[..k], ys[..k]), n * ws[k] * vs[k], -ls[k] * ys[k], q);
      assert n * (Dot(ws[..k], vs[..k]) + ws[k] * vs[k]) == n * Dot(ws[..k], vs[..k]) + n * ws[k] * vs[k];
      assert -(Dot(ls[..k], ys[..k]) + ls[k] * ys[k]) == -Dot(ls[..k], ys[..k]) + -ls[k] * ys[k];
    }
  }

  lemma {:induction false} Opposite(n: int, m: int, inv: int, x: int, j: int, q: int)
    requires q > 0 && n == m * -x && IsInverse(j, x, q)
    ensures Cong(n * (inv * j), -(m * inv), q)
  {
    CongMul(-(m * inv), -(m * inv), j * x, 1, q);
    assert n * (inv * j) == -(m * inv) * (j * x) by {
      assert n * (inv * j) == (m * -x) * (inv * j) == -(m * inv) * (j * x);
    }
    assert -(m * inv) * 1 == -(m * inv);
  }

  /** The weights for the share points together with the point zero. */
  ghost function ZeroWeights(xs: seq<int>, q: int): (r: seq<int>)
    requires IsPrime(q) && Usable(xs, q)
    ensures |r| == |xs|
  {
    UsableNoClash(xs, q);
    NoClashDen(xs, q);
    seq(|xs|, i requires 0 <= i < |xs| && Den(xs[i], xs) % q != 0 && xs[i] % q != 0 =>
      Inverse(Den(xs[i], xs), q) * Inverse(xs[i], q))
  }

  lemma {:induction false} NegatedZero(a: int, q: int)
    requires q > 0 && Cong(-a, 0, q)
    ensures Cong(a, 0, q)
  {
    CongMul(-1, -1, -a, 0, q);
    assert -1 * -a == a;
  }

  lemma {:induction false} WithZeroDistinct(xs: seq<int>, q: int)
    requires IsPrime(q) && Usable(xs, q)
    ensures Distinct(xs + [0], q) && Den(0, xs) % q != 0
    ensures forall i :: 0 <= i < |xs| ==> xs[i] != 0
  {
    forall i | 0 <= i < |xs|
      ensures xs[i] != 0 && (0 - xs[i]) % q != 0 && (xs[i] - 0) % q != 0
    {
      if Cong(-xs[i], 0, q) { NegatedZero(xs[i], q); }
    }
    DenNonZero(0, xs, q);
  }

  lemma {:induction false} WithZeroWeights(xs: seq<int>, q: int)
    requires IsPrime(q) && Usable(xs, q)
    ensures Den(0, xs) % q != 0
    ensures Weights(ZeroWeights(xs, q) + [Inverse(Den(0, xs), q)], xs + [0], q)
  {
    WithZeroDistinct(xs, q);
    UsableNoClash(xs, q);
    NoClashDen(xs, q);
    var xs0, ws := xs + [0], ZeroWeights(xs, q) + [Inverse(Den(0, xs), q)];
    assert xs0[..|xs|] == xs;
    forall i | 0 <= i < |xs0|
      ensures IsInverse(ws[i], Den(xs0[i], xs0), q)
    {
      if i < |xs| {
        InverseProduct(Inverse(Den(xs[i], xs), q), Den(xs[i], xs), Inverse(xs[i], q), xs[i], q);
        assert Den(xs0[i], xs0) == Den(xs[i], xs) * xs[i];
      } else {
        assert Den(0, xs0) == Den(0, xs);
      }
    }
  }

  /** Lagrange interpolation at zero: any k shares of a polynomial with at most k
      coefficients determine its constant term. */
  lemma {:induction false} Interpolation(shares: seq<Share>, coeffs: seq<int>, q: int)
    requires IsPrime(q) && Usable(Xs(shares), q) && OnPolynomial(shares, coeffs, q)
    requires |coeffs| <= |shares|
    ensures !Clash(Xs(shares), q)
    ensures Cong(Dot(Lagrange(Xs(shares), q), Ys(shares)), Poly(coeffs, 0), q)
  {
    var xs, ys, k := Xs(shares), Ys(shares), |shares|;
    UsableNoClash(xs, q);
    NoClashDen(xs, q);
    WithZeroDistinct(xs, q);
    WithZeroWeights(xs, q);
    var n, ls, zs, vs := Den(0, xs), Lagrange(xs, q), ZeroWeights(xs, q), Values(coeffs, xs);
    var inv, p0 := Inverse(n, q), Poly(coeffs, 0);
    var ws0, vs0 := zs + [inv], Values(coeffs, xs + [0]);
    PolynomialVanishes(ws0, xs + [0], coeffs, q);
    assert ws0[..k] == zs && vs0[..k] == vs;
    assert Dot(ws0, vs0) == Dot(zs, vs) + inv * p0;
    forall i | 0 <= i < k
      ensures Cong(n * zs[i], -ls[i], q) && Cong(ys[i], vs[i], q)
    {
      OccursOnce(xs, i, q);
      FullProduct(xs, i);
      Opposite(n, Num(xs[i], xs), Inverse(Den(xs[i], xs), q), xs[i], Inverse(xs[i], q), q);
    }
    DotBridge(n, zs, ls, vs, ys, q);
    ConstantTerm(n, inv, Dot(zs, vs), Dot(ls, ys), p0, q);
  }

  lemma {:induction false} OccursOnce(xs: seq<int>, i: int, q: int)
    requires q > 0 && Distinct(xs, q) && 0 <= i < |xs|
    ensures forall j :: 0 <= j < |xs| && j != i ==> xs[j] != xs[i]
  {
    forall j | 0 <= j < |xs| && j != i
      ensures xs[j] != xs[i]
    {
      if j < i { assert (xs[j] - xs[i]) % q != 0; } else { assert (xs[i] - xs[j]) % q != 0; }
    }
  }

  lemma {:induction false} ConstantTerm(n: int, inv: int, d: int, l: int, p0: int, q: int)
    requires q > 0 && IsInverse(inv, n, q) && Cong(d + inv * p0, 0, q) && Cong(n * d, -l, q)
    ensures Cong(l, p0, q)
  {
    CongMul(n, n, d + inv * p0, 0, q);
    CongMul(inv * n, 1, p0, p0, q);
    CongAdd(n * d, -l, inv * n * p0, p0, q);
    assert n * (d + inv * p0) == n * d + inv * n * p0;
    CongAdd(-l + p0, 0, l, l, q);
  }

  /** `combine`, for every list of shares: it fails exactly on a clash and otherwise
      returns the Lagrange sum. */
  method Combine(shares: seq<Share>, q: int) returns (r: Option<int>)
    requires IsPrime(q)
    ensures r.None? <==> Clash(Xs(shares), q)
    ensures r.Some? ==> r.value == Dot(Lagrange(Xs(shares), q), Ys(shares)) % q
  {
    ghost var xs := Xs(shares);
    var secret := 0;
    var i := 0;
    while i < |shares|
      invariant 0 <= i <= |shares|
      invariant forall k :: 0 <= k < i ==> Divisible(xs, k, q)
      invariant !Clash(xs, q) ==> secret == PartialSum(shares, i, q)
    {
      var lagrange := LagrangeTerm(shares, i, q);
      if lagrange.None? {
        return None;
      }
      if !Clash(xs, q) { PartialSumStep(shares, i, lagrange.value, q); }
      secret := Mod(secret + Mod(shares[i].y * lagrange.value, q), q);
      i := i + 1;
    }
    AllDivisible(xs, q);
    PartialSumAll(shares, q);
    return Some(secret);
  }

  /** The running `secret` of `combine` after i shares. */
  ghost function PartialSum(shares: seq<Share>, i: int, q: int): int
    requires IsPrime(q) && !Clash(Xs(shares), q) && 0 <= i <= |shares|
  {
    Dot(Lagrange(Xs(shares), q)[..i], Ys(shares)[..i]) % q
  }

  lemma {:induction false} PartialSumStep(shares: seq<Share>, i: int, lagrange: int, q: int)
    requires IsPrime(q) && !Clash(Xs(shares), q) && 0 <= i < |shares|
    requires Cong(lagrange, Lagrange(Xs(shares), q)[i], q)
    ensures PartialSum(shares, i + 1, q) == (PartialSum(shares, i, q) + (shares[i].y * lagrange) % q) % q
  {
    var ls, ys := Lagrange(Xs(shares), q), Ys(shares);
    assert ls[..i + 1][..i] == ls[..i] && ys[..i + 1][..i] == ys[..i];
    SumReduced(Dot(ls[..i], ys[..i]), ys[i], lagrange, ls[i], q);
  }

  lemma {:induction false} PartialSumAll(shares: seq<Share>, q: int)
    requires IsPrime(q) && !Clash(Xs(shares), q)
    ensures PartialSum(shares, |shares|, q) == Dot(Lagrange(Xs(shares), q), Ys(shares)) % q
  {
    var ls, ys := Lagrange(Xs(shares), q), Ys(shares);
    assert ls[..|shares|] == ls && ys[..|shares|] == ys;
  }

  ghost predicate Divisible(xs: seq<int>, k: int, q: int)
    requires q > 0 && 0 <= k < |xs|
  {
    Den(xs[k], xs) % q != 0
  }

  lemma {:induction false} AllDivisible(xs: seq<int>, q: int)
    requires IsPrime(q) && forall k :: 0 <= k < |xs| ==> Divisible(xs, k, q)
    ensures !Clash(xs, q)
  {
    NoClashDen(xs, q);
    forall k | 0 <= k < |xs| ensures Den(xs[k], xs) % q != 0 { assert Divisible(xs, k, q); }
  }

  lemma {:induction false} LagrangeAt(xs: seq<int>, i: int, q: int)
    requires IsPrime(q) && !Clash(xs, q) && 0 <= i < |xs|
    ensures Den(xs[i], xs) % q != 0
    ensures Lagrange(xs, q)[i] == Num(xs[i], xs) * Inverse(Den(xs[i], xs), q)
  {
    NoClashDen(xs, q);
  }

  /** One pass of `combine`: the coefficient of share i. */
  method LagrangeTerm(shares: seq<Share>, i: int, q: int) returns (r: Option<int>)
    requires IsPrime(q) && 0 <= i < |shares|
    ensures r.Some? <==> Divisible(Xs(shares), i, q)
    ensures r.None? ==> Clash(Xs(shares), q)
    ensures r.Some? && !Clash(Xs(shares), q) ==> Cong(r.value, Lagrange(Xs(shares), q)[i], q)
  {
    var xi := shares[i].x;
    ghost var xs := Xs(shares);
    var num, den := Products(shares, xi, q);
    var inv := InvMod(den, q);
    DenInvertible(den, Den(xi, xs), q);
    if !Clash(xs, q) { LagrangeAt(xs, i, q); }
    if inv.None? {
      return None;
    }
    TermReduced(num, Num(xi, xs), inv.value, den, Den(xi, xs), q);
    ModTwice(q);
    return Some(Mod(num * inv.value, q));
  }

  /** The inner loop of `combine`. */
  method Products(shares: seq<Share>, xi: int, q: int) returns (num: int, den: int)
    requires q > 1
    ensures num == Num(xi, Xs(shares)) % q && den == Den(xi, Xs(shares)) % q
  {
    ghost var xs := Xs(shares);
    num, den := 1, 1;
    ModIs(1, 1, 0, q);
    var j := 0;
    while j < |shares|
      invariant 0 <= j <= |shares|
      invariant num == Num(xi, xs[..j]) % q && den == Den(xi, xs[..j]) % q
    {
      var xj := shares[j].x;
      assert xs[..j + 1][..j] == xs[..j];
      if xj != xi {
        ProductReduced(Num(xi, xs[..j]), -xj, q);
        ProductReduced(Den(xi, xs[..j]), xi - xj, q);
        num := Mod(num * Mod(-xj, q), q);
        den := Mod(den * Mod(xi - xj, q), q);
      }
      j := j + 1;
    }
    assert xs[..j] == xs;
  }

  lemma {:induction false} ProductReduced(a: int, b: int, q: int)
    requires q > 0
    ensures ((a % q) * (b % q)) % q == (a * b) % q
  {
    ModTwice(q);
    CongMul(a % q, a, b % q, b, q);
  }

  lemma {:induction false} DenInvertible(den: int, d: int, q: int)
    requires IsPrime(q) && den == d % q
    ensures Coprime(den, q) <==> d % q != 0
  {
    ModTwice(q);
    if d % q != 0 {
      var r := PrimeInverse(den, q);
      InvertibleIsCoprime(r, den, q);
    } else {
      assert Divides(q, den) && Divides(q, q) by { ModIs(q, 0, 1, q); }
    }
  }

  lemma {:induction false} TermReduced(num: int, n: int, inv: int, den: int, d: int, q: int)
    requires IsPrime(q) && num == n % q && den == d % q && d % q != 0
    requires IsInverse(inv, den, q)
    ensures Cong(num * inv, n * Inverse(d, q), q)
  {
    ModTwice(q);
    CongMul(inv, inv, den, d, q);
    InverseUnique(inv, Inverse(d, q), d, q);
    CongMul(num, n, inv, Inverse(d, q), q);
  }

  lemma {:induction false} SumReduced(s: int, y: int, lagrange: int, l: int, q: int)
    requires q > 0 && Cong(lagrange, l, q)
    ensures (s % q + (y * lagrange) % q) % q == (s + l * y) % q
  {
    ModTwice(q);
    CongMul(y, y, lagrange, l, q);
    assert y * l == l * y;
    CongAdd(s % q, s, (y * lagrange) % q, l * y, q);
  }

  /** Reconstruction: shares of `split`, picked at any t or more distinct positions in
      any order, combine to the secret. */
  lemma {:induction false} SplitThenCombine(secret: int, t: int, n: int, randoms: seq<int>, picks: seq<int>, q: int)
    requires IsPrime(q) && 1 <= t <= n < q && |randoms| == t - 1
    requires t <= |picks| && ValidPicks(picks, n)
    ensures var shares := Split(secret, t, n, randoms, q).value;
      var quorum := Pick(shares, picks);
      && !Clash(Xs(quorum), q)
      && Dot(Lagrange(Xs(quorum), q), Ys(quorum)) % q == Mod(secret, q)
  {
    var coeffs := [Mod(secret, q)] + randoms;
    var shares := Split(secret, t, n, randoms, q).value;
    var quorum := Pick(shares, picks);
    PicksUsable(shares, picks, q);
    Interpolation(quorum, coeffs, q);
    assert Poly(coeffs, 0) == Mod(secret, q);
    ModTwice(q);
  }

  /** Distinct positions of an n-element list. */
  ghost predicate ValidPicks(picks: seq<int>, n: int)
  {
    && (forall i :: 0 <= i < |picks| ==> 0 <= picks[i] < n)
    && (forall i, j :: 0 <= i < j < |picks| ==> picks[i] != picks[j])
  }

  function Pick<T>(items: seq<T>, picks: seq<int>): (r: seq<T>)
    requires forall i :: 0 <= i < |picks| ==> 0 <= picks[i] < |items|
    ensures |r| == |picks|
  {
    seq(|picks|, i requires 0 <= i < |picks| => items[picks[i]])
  }

  lemma {:induction false} PicksUsable(shares: seq<Share>, picks: seq<int>, q: int)
    requires ValidPicks(picks, |shares|) && |shares| < q
    requires forall i :: 0 <= i < |shares| ==> shares[i].x == i + 1
    ensures Usable(Xs(Pick(shares, picks)), q)
  {
    var xs := Xs(Pick(shares, picks));
    forall i | 0 <= i < |xs| ensures xs[i] % q != 0 {
      ModIs(xs[i], xs[i], 0, q);
    }
    forall i, j | 0 <= i < j < |xs| ensures (xs[i] - xs[j]) % q != 0 {
      var d := xs[i] - xs[j];
      assert d == picks[i] - picks[j];
      if d > 0 { ModIs(d, d, 0, q); } else { ModIs(d, d + q, -1, q); }
    }
  }
}
