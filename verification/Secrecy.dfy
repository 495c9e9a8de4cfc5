/** What t - 1 shares of `split` give away (backend/src/mpc/shamir.ts). Each secret needs
    exactly one choice of scalars to explain them. Because `randomScalar` never returns
    zero, some secrets are ruled out: at least the one the shares combine to, and at most
    one for each scalar. */
module Secrecy {
  import opened Modular
  import opened Sets
  import opened Shamir
  import opened Threshold

  // --------------------------------------------- multiplying and dividing by x - z

  /** The coefficients of v + (x - z) * g(x). */
  function TimesRoot(g: seq<int>, z: int, v: int): (r: seq<int>)
    ensures |r| == |g| + 1
  {
    if g == [] then [v] else [v - z * g[0]] + TimesRoot(g[1..], z, g[0])
  }

  lemma {:induction false} TimesRootValue(g: seq<int>, z: int, v: int, x: int)
    ensures Poly(TimesRoot(g, z, v), x) == v + (x - z) * Poly(g, x)
  {
    if g == [] {
      assert [v][1..] == [];
    } else {
      TimesRootValue(g[1..], z, g[0], x);
      assert TimesRoot(g, z, v)[1..] == TimesRoot(g[1..], z, g[0]);
      RootStep(v, z, g[0], x, Poly(g[1..], x));
    }
  }

  lemma {:induction false} RootStep(v: int, z: int, c: int, x: int, p: int)
    ensures v - z * c + x * (c + (x - z) * p) == v + (x - z) * (c + x * p)
  {
    MulAssoc(x, x - z, p);
    MulAssoc(x - z, x, p);
  }

  /** Division with remainder: f(x) = f(z) + (x - z) * Quotient(x). */
  function Quotient(f: seq<int>, z: int): (r: seq<int>)
    requires f != []
    ensures |r| == |f| - 1
  {
    if |f| == 1 then [] else [Poly(f[1..], z)] + Quotient(f[1..], z)
  }

  lemma {:induction false} DivisionInverts(f: seq<int>, z: int)
    requires f != []
    ensures TimesRoot(Quotient(f, z), z, Poly(f, z)) == f
  {
    if |f| == 1 {
      assert f[1..] == [] && f == [f[0]];
    } else {
      DivisionInverts(f[1..], z);
      assert f == [f[0]] + f[1..];
    }
  }

  // ------------------------------------------------- one polynomial through k points

  ghost predicate Through(f: seq<int>, xs: seq<int>, ys: seq<int>, q: int)
    requires q > 0
  {
    |xs| == |ys| && forall i :: 0 <= i < |xs| ==> Cong(Poly(f, xs[i]), ys[i], q)
  }

  /** Through any k points with distinct x there is a polynomial of k coefficients. */
  lemma {:induction false} Interpolate(xs: seq<int>, ys: seq<int>, q: int) returns (f: seq<int>)
    requires IsPrime(q) && Distinct(xs, q) && |xs| == |ys|
    ensures |f| == |xs| && Through(f, xs, ys, q)
    decreases |xs|
  {
    if xs == [] {
      f := [];
    } else {
      var z, v, rest := xs[0], ys[0], xs[1..];
      DistinctTail(xs, q);
      var vs := Slopes(z, v, rest, ys[1..], q);
      var g := Interpolate(rest, vs, q);
      f := TimesRoot(g, z, v);
      forall i | 0 <= i < |xs| ensures Cong(Poly(f, xs[i]), ys[i], q) {
        if i == 0 {
          TimesRootValue(g, z, v, z);
        } else {
          ReachesPoint(g, z, v, rest, ys[1..], i - 1, q) by { NonZeroFlips(z, xs[i], q); }
        }
      }
    }
  }

  /** The values the quotient must take so that v + (x - z) * g(x) passes through (xs, ys). */
  ghost function Slopes(z: int, v: int, xs: seq<int>, ys: seq<int>, q: int): (r: seq<int>)
    requires IsPrime(q) && |xs| == |ys|
    ensures |r| == |xs|
  {
    seq(|xs|, i requires 0 <= i < |xs| => (ys[i] - v) * SafeInverse(xs[i] - z, q))
  }

  lemma {:induction false} ReachesPoint(g: seq<int>, z: int, v: int, xs: seq<int>, ys: seq<int>, i: nat, q: int)
    requires IsPrime(q) && |xs| == |ys| && i < |xs| && (xs[i] - z) % q != 0
    requires Through(g, xs, Slopes(z, v, xs, ys, q), q)
    ensures Cong(Poly(TimesRoot(g, z, v), xs[i]), ys[i], q)
  {
    TimesRootValue(g, z, v, xs[i]);
    Reaches(xs[i] - z, SafeInverse(xs[i] - z, q), ys[i], v, Poly(g, xs[i]), q);
  }

  ghost function SafeInverse(a: int, q: int): (r: int)
    requires IsPrime(q)
    ensures a % q != 0 ==> IsInverse(r, a, q)
  {
    if a % q != 0 then Inverse(a, q) else 0
  }

  lemma {:induction false} NonZeroFlips(a: int, b: int, q: int)
    requires q > 0 && (a - b) % q != 0
    ensures (b - a) % q != 0
  {
    if Cong(b - a, 0, q) { CongMul(-1, -1, b - a, 0, q); }
  }

  lemma {:induction false} Reaches(d: int, w: int, y: int, v: int, g: int, q: int)
    requires q > 0 && IsInverse(w, d, q) && Cong(g, (y - v) * w, q)
    ensures Cong(v + d * g, y, q)
  {
    CongMul(d, d, g, (y - v) * w, q);
    CongMul(w * d, 1, y - v, y - v, q);
    assert d * ((y - v) * w) == w * d * (y - v) by { MulAssoc(d, y - v, w); MulAssoc(w, d, y - v); }
    CongAdd(v, v, d * g, y - v, q);
  }

  /** Every coefficient is zero modulo q. */
  ghost predicate Null(f: seq<int>, q: int)
    requires q > 0
  {
    forall i :: 0 <= i < |f| ==> Cong(f[i], 0, q)
  }

  lemma {:induction false} TimesRootNull(g: seq<int>, z: int, v: int, q: int)
    requires q > 0 && Null(g, q) && Cong(v, 0, q)
    ensures Null(TimesRoot(g, z, v), q)
  {
    if g != [] {
      assert Cong(g[0], 0, q);
      TimesRootNull(g[1..], z, g[0], q);
      CongMul(z, z, g[0], 0, q);
      CongSub(v, 0, z * g[0], 0, q);
    }
  }

  /** A polynomial of k coefficients with k roots is zero. */
  lemma {:induction false} ManyRoots(f: seq<int>, xs: seq<int>, q: int)
    requires IsPrime(q) && Distinct(xs, q) && |f| == |xs|
    requires forall i :: 0 <= i < |xs| ==> Cong(Poly(f, xs[i]), 0, q)
    ensures Null(f, q)
    decreases |f|
  {
    if f != [] {
      var z, g := xs[0], Quotient(f, xs[0]);
      DistinctTail(xs, q);
      DivisionInverts(f, z);
      forall i | 0 <= i < |xs[1..]| ensures Cong(Poly(g, xs[1..][i]), 0, q) {
        var x := xs[i + 1];
        TimesRootValue(g, z, Poly(f, z), x);
        NonZeroFlips(z, x, q);
        RootOfQuotient(Poly(f, x), Poly(f, z), x - z, Poly(g, x), q);
      }
      ManyRoots(g, xs[1..], q);
      TimesRootNull(g, z, Poly(f, z), q);
    }
  }

  lemma {:induction false} RootOfQuotient(fx: int, fz: int, d: int, g: int, q: int)
    requires IsPrime(q) && fx == fz + d * g && Cong(fx, 0, q) && Cong(fz, 0, q) && d % q != 0
    ensures Cong(g, 0, q)
  {
    CongSub(fx, 0, fz, 0, q);
    PrimeProduct(d, g, q);
  }

  function Scale(c: int, f: seq<int>): (r: seq<int>)
    ensures |r| == |f|
  {
    seq(|f|, i requires 0 <= i < |f| => c * f[i])
  }

  lemma {:induction false} ScaleValue(c: int, f: seq<int>, x: int)
    ensures Poly(Scale(c, f), x) == c * Poly(f, x)
  {
    if f != [] {
      ScaleValue(c, f[1..], x);
      assert Scale(c, f)[1..] == Scale(c, f[1..]);
      var p := Poly(f[1..], x);
      assert x * (c * p) == c * (x * p) by { MulAssoc(x, c, p); MulAssoc(c, x, p); }
      assert c * (f[0] + x * p) == c * f[0] + c * (x * p);
    }
  }

  lemma {:induction false} DifferenceValue(f: seq<int>, g: seq<int>, c: int, x: int)
    requires |f| == |g|
    ensures Poly(AddPoly(f, Scale(c, g)), x) == Poly(f, x) + c * Poly(g, x)
  {
    AddPolyValue(f, Scale(c, g), x);
    ScaleValue(c, g, x);
  }

  /** Residues in [0, q). */
  ghost predicate Reduced(f: seq<int>, q: int) { forall i :: 0 <= i < |f| ==> 0 <= f[i] < q }

  /** At most one reduced polynomial of k coefficients passes through k points. */
  lemma {:induction false} OnlyOne(f: seq<int>, g: seq<int>, xs: seq<int>, ys: seq<int>, q: int)
    requires IsPrime(q) && Distinct(xs, q) && |f| == |xs| == |g| && Reduced(f, q) && Reduced(g, q)
    requires Through(f, xs, ys, q) && Through(g, xs, ys, q)
    ensures f == g
  {
    var d := AddPoly(f, Scale(-1, g));
    forall i | 0 <= i < |xs| ensures Cong(Poly(d, xs[i]), 0, q) {
      DifferenceValue(f, g, -1, xs[i]);
      CongSub(Poly(f, xs[i]), ys[i], Poly(g, xs[i]), ys[i], q);
    }
    ManyRoots(d, xs, q);
    forall i | 0 <= i < |f| ensures f[i] == g[i] {
      assert Cong(d[i], 0, q) && d[i] == f[i] - g[i];
      SameResidue(f[i], g[i], q);
    }
  }

  lemma {:induction false} SameResidue(a: int, b: int, q: int)
    requires q > 0 && 0 <= a < q && 0 <= b < q && Cong(a - b, 0, q)
    ensures a == b
  {
    CongAdd(a - b, 0, b, b, q);
    ModIs(a, a, 0, q);
    ModIs(b, b, 0, q);
  }

  // --------------------------------------------------------------------- secrecy

  function Reduce(f: seq<int>, q: int): (r: seq<int>)
    requires q > 0
    ensures |r| == |f| && Reduced(r, q)
  {
    seq(|f|, i requires 0 <= i < |f| => f[i] % q)
  }

  lemma {:induction false} ReduceValue(f: seq<int>, x: int, q: int)
    requires q > 0
    ensures Cong(Poly(Reduce(f, q), x), Poly(f, x), q)
  {
    if f != [] {
      ReduceValue(f[1..], x, q);
      assert Reduce(f, q)[1..] == Reduce(f[1..], q);
      CongMul(x, x, Poly(Reduce(f[1..], q), x), Poly(f[1..], x), q);
      ModTwice(q);
      CongAdd(f[0] % q, f[0], x * Poly(Reduce(f[1..], q), x), x * Poly(f[1..], x), q);
    }
  }

  /** The t - 1 scalars that make `split` of this secret give these t - 1 shares. */
  ghost predicate Explains(randoms: seq<int>, secret: int, shares: seq<Share>, q: int)
    requires q > 0
  {
    |randoms| == |shares| && Reduced(randoms, q) && OnPolynomial(shares, [Mod(secret, q)] + randoms, q)
  }

  /** Over all residues, zero included: whatever t - 1 shares say, every secret is explained
      by exactly one choice of scalars. */
  lemma {:induction false} EverySecretFits(shares: seq<Share>, secret: int, q: int)
    returns (randoms: seq<int>)
    requires IsPrime(q) && Usable(Xs(shares), q)
    ensures Explains(randoms, secret, shares, q)
    ensures forall other :: Explains(other, secret, shares, q) ==> other == randoms
  {
    var s, zs, vs := Mod(secret, q), Xs(shares) + [0], Ys(shares) + [Mod(secret, q)];
    WithZeroDistinct(Xs(shares), q);
    var h := Interpolate(zs, vs, q);
    var f := Reduce(h, q);
    forall i | 0 <= i < |zs| ensures Cong(Poly(f, zs[i]), vs[i], q) { ReduceValue(h, zs[i], q); }
    StartsAt(f, zs, vs, s, q);
    randoms := f[1..];
    assert f == [s] + randoms;
    ThroughShares(shares, f, q);
    forall other | Explains(other, secret, shares, q) ensures other == randoms {
      var g := [s] + other;
      SharesThrough(shares, g, s, q);
      OnlyOne(f, g, zs, vs, q);
      assert g[1..] == other;
    }
  }

  lemma {:induction false} StartsAt(f: seq<int>, zs: seq<int>, vs: seq<int>, s: int, q: int)
    requires q > 0 && Through(f, zs, vs, q) && f != [] && Reduced(f, q) && 0 <= s < q
    requires zs != [] && zs[|zs| - 1] == 0 && vs[|vs| - 1] == s
    ensures f[0] == s
  {
    assert Cong(Poly(f, zs[|zs| - 1]), vs[|vs| - 1], q);
    assert Poly(f, 0) == f[0];
    ModIs(f[0], f[0], 0, q);
    ModIs(s, s, 0, q);
  }

  lemma {:induction false} ThroughShares(shares: seq<Share>, f: seq<int>, q: int)
    requires q > 0
    requires exists v :: Through(f, Xs(shares) + [0], Ys(shares) + [v], q)
    ensures OnPolynomial(shares, f, q)
  {
    var v :| Through(f, Xs(shares) + [0], Ys(shares) + [v], q);
    var zs, vs := Xs(shares) + [0], Ys(shares) + [v];
    forall i | 0 <= i < |shares| ensures Cong(shares[i].y, Poly(f, shares[i].x), q) {
      assert zs[i] == shares[i].x && vs[i] == shares[i].y;
    }
  }

  lemma {:induction false} SharesThrough(shares: seq<Share>, f: seq<int>, s: int, q: int)
    requires q > 0 && OnPolynomial(shares, f, q) && f != [] && f[0] == s
    ensures Through(f, Xs(shares) + [0], Ys(shares) + [s], q)
  {
    var zs, vs := Xs(shares) + [0], Ys(shares) + [s];
    forall i | 0 <= i < |zs| ensures Cong(Poly(f, zs[i]), vs[i], q) {
      if i < |shares| { assert zs[i] == shares[i].x && vs[i] == shares[i].y; }
    }
  }

  // -------------------------------------------- scalars that can really be drawn

  /** What `randomScalar` can return. */
  ghost predicate Drawable(randoms: seq<int>, q: int)
  {
    forall i :: 0 <= i < |randoms| ==> 0 < randoms[i] < q
  }

  /** The shares can come from a sharing of this secret. */
  ghost predicate Fits(secret: int, shares: seq<Share>, q: int)
    requires q > 0
  {
    exists randoms :: Explains(randoms, secret, shares, q) && Drawable(randoms, q)
  }

  /** A secret fits t - 1 shares if and only if the scalars that explain it contain no zero. */
  lemma {:induction false} FitsExactly(shares: seq<Share>, secret: int, q: int) returns (randoms: seq<int>)
    requires IsPrime(q) && Usable(Xs(shares), q)
    ensures Explains(randoms, secret, shares, q)
    ensures Fits(secret, shares, q) <==> forall i :: 0 <= i < |randoms| ==> randoms[i] != 0
  {
    randoms := EverySecretFits(shares, secret, q);
    if forall i :: 0 <= i < |randoms| ==> randoms[i] != 0 { assert Drawable(randoms, q); }
  }

  /** The secret that t - 1 shares combine to is never the shared one. */
  lemma {:induction false} CombinedNeverFits(shares: seq<Share>, secret: int, q: int)
    requires IsPrime(q) && Usable(Xs(shares), q) && shares != []
    ensures !Clash(Xs(shares), q)
    ensures Dot(Lagrange(Xs(shares), q), Ys(shares)) % q == Mod(secret, q) ==> !Fits(secret, shares, q)
  {
    UsableNoClash(Xs(shares), q);
    var randoms := FitsExactly(shares, secret, q);
    OneShort(shares, [Mod(secret, q)] + randoms, q);
    ModTwice(q);
    ModIs(randoms[|randoms| - 1], randoms[|randoms| - 1], 0, q);
  }

  /** Scalar i is zero in the explanation of this secret. */
  ghost predicate NeedsZero(secret: int, shares: seq<Share>, i: nat, q: int)
    requires q > 0
  {
    exists randoms :: Explains(randoms, secret, shares, q) && i < |randoms| && randoms[i] == 0
  }

  /** f + c * (g - f). */
  function Mix(f: seq<int>, g: seq<int>, c: int): (r: seq<int>)
    requires |f| == |g|
    ensures |r| == |f|
  {
    AddPoly(f, Scale(c, AddPoly(g, Scale(-1, f))))
  }

  lemma {:induction false} MixValue(f: seq<int>, g: seq<int>, c: int, x: int)
    requires |f| == |g|
    ensures Poly(Mix(f, g, c), x) == Poly(f, x) + c * (Poly(g, x) - Poly(f, x))
  {
    DifferenceValue(g, f, -1, x);
    DifferenceValue(f, AddPoly(g, Scale(-1, f)), c, x);
  }

  lemma {:induction false} MixAt(f: seq<int>, g: seq<int>, c: int, i: nat)
    requires |f| == |g| && i < |f|
    ensures Mix(f, g, c)[i] == f[i] + c * (g[i] - f[i])
  {
    var d := AddPoly(g, Scale(-1, f));
    assert d[i] == g[i] - f[i] && Scale(c, d)[i] == c * d[i];
  }

  /** Two polynomials through the shares, mixed, pass through the shares. */
  lemma {:induction false} MixThrough(s: Share, f: seq<int>, g: seq<int>, c: int, q: int)
    requires q > 0 && |f| == |g| && Cong(s.y, Poly(f, s.x), q) && Cong(s.y, Poly(g, s.x), q)
    ensures Cong(s.y, Poly(Reduce(Mix(f, g, c), q), s.x), q)
  {
    ReduceValue(Mix(f, g, c), s.x, q);
    MixValue(f, g, c, s.x);
    MixCongruent(s.y, Poly(f, s.x), Poly(g, s.x), c, q);
  }

  lemma {:induction false} MixCongruent(y: int, f: int, g: int, c: int, q: int)
    requires q > 0 && Cong(y, f, q) && Cong(y, g, q)
    ensures Cong(y, f + c * (g - f), q)
  {
    var d := g - f;
    CongSub(g, y, f, y, q);
    CongMul(c, c, d, 0, q);
    CongAdd(f, y, c * d, 0, q);
  }

  /** If two different secrets both need scalar i to be zero, every secret does. */
  lemma {:induction false} TwoZerosMakeAll(shares: seq<Share>, a: int, b: int, secret: int, i: nat, q: int)
    requires IsPrime(q) && Usable(Xs(shares), q) && i < |shares|
    requires 0 <= a < q && 0 <= b < q && a != b && NeedsZero(a, shares, i, q) && NeedsZero(b, shares, i, q)
    ensures NeedsZero(secret, shares, i, q)
  {
    var ra :| Explains(ra, a, shares, q) && i < |ra| && ra[i] == 0;
    var rb :| Explains(rb, b, shares, q) && i < |rb| && rb[i] == 0;
    ModIs(a, a, 0, q);
    ModIs(b, b, 0, q);
    if Cong(b - a, 0, q) { SameResidue(b, a, q); }
    MixedExplanation(shares, a, b, [a] + ra, [b] + rb, secret, i, q);
  }

  lemma {:induction false} MixedExplanation(shares: seq<Share>, a: int, b: int, f: seq<int>, g: seq<int>,
                                            secret: int, i: nat, q: int)
    requires IsPrime(q) && |f| == |g| == |shares| + 1 && OnPolynomial(shares, f, q) && OnPolynomial(shares, g, q)
    requires f[0] == a && g[0] == b && (b - a) % q != 0 && i < |shares| && f[i + 1] == 0 == g[i + 1]
    ensures NeedsZero(secret, shares, i, q)
  {
    var s, w := Mod(secret, q), SafeInverse(b - a, q);
    var c := (s - a) * w;
    var h := Reduce(Mix(f, g, c), q);
    forall k | 0 <= k < |shares| ensures Cong(shares[k].y, Poly(h, shares[k].x), q) {
      MixThrough(shares[k], f, g, c, q);
    }
    MixAt(f, g, c, 0);
    MixAt(f, g, c, i + 1);
    MixReaches(a, b - a, s - a, w, q);
    ModIs(s, s, 0, q);
    ModIs(0, 0, 0, q);
    ZeroAt(h, s, secret, shares, i, q);
  }

  lemma {:induction false} ZeroAt(h: seq<int>, s: int, secret: int, shares: seq<Share>, i: nat, q: int)
    requires q > 0 && |h| == |shares| + 1 && Reduced(h, q) && OnPolynomial(shares, h, q)
    requires s == Mod(secret, q) == h[0] && i < |shares| && h[i + 1] == 0
    ensures NeedsZero(secret, shares, i, q)
  {
    var randoms := h[1..];
    assert h == [s] + randoms && randoms[i] == 0;
    assert Explains(randoms, secret, shares, q);
  }

  lemma {:induction false} MixReaches(a: int, d: int, e: int, w: int, q: int)
    requires q > 0 && IsInverse(w, d, q)
    ensures Cong(a + e * w * d, a + e, q)
  {
    CongMul(e, e, w * d, 1, q);
    MulAssoc(e, w, d);
    CongAdd(a, a, e * w * d, e, q);
  }

  /** The secrets that one of the first n scalars rules out. */
  ghost function RuledOutBy(shares: seq<Share>, n: nat, q: int): set<int>
    requires q > 0
  {
    set s: int | 0 <= s < q && NeedsOneOf(s, shares, n, q)
  }

  ghost predicate NeedsOneOf(secret: int, shares: seq<Share>, n: nat, q: int)
    requires q > 0
  {
    exists i: nat :: i < n && NeedsZero(secret, shares, i, q)
  }

  /** The secrets that t - 1 shares rule out. */
  ghost function RuledOut(shares: seq<Share>, q: int): set<int>
    requires q > 0
  {
    set s: int | 0 <= s < q && !Fits(s, shares, q)
  }

  lemma {:induction false} FewPerScalar(shares: seq<Share>, shared: int, n: nat, q: int)
    requires IsPrime(q) && Usable(Xs(shares), q) && Fits(shared, shares, q) && n <= |shares|
    ensures |RuledOutBy(shares, n, q)| <= n
  {
    if n == 0 {
      assert RuledOutBy(shares, n, q) == {};
    } else {
      FewPerScalar(shares, shared, n - 1, q);
      var before, after := RuledOutBy(shares, n - 1, q), RuledOutBy(shares, n, q);
      forall a, b | a in after - before && b in after - before ensures a == b {
        LastScalar(a, shares, n, q);
        LastScalar(b, shares, n, q);
        OnePerScalar(shares, shared, a, b, n - 1, q);
      }
      AtMostOneMore(before, after);
    }
  }

  /** One scalar rules out at most one secret. */
  lemma {:induction false} OnePerScalar(shares: seq<Share>, shared: int, a: int, b: int, i: nat, q: int)
    requires IsPrime(q) && Usable(Xs(shares), q) && Fits(shared, shares, q) && i < |shares|
    requires 0 <= a < q && 0 <= b < q && NeedsZero(a, shares, i, q) && NeedsZero(b, shares, i, q)
    ensures a == b
  {
    FittingNeedsNoZero(shares, shared, i, q);
    if a != b { TwoZerosMakeAll(shares, a, b, shared, i, q); }
  }

  lemma {:induction false} LastScalar(a: int, shares: seq<Share>, n: nat, q: int)
    requires q > 0 && n > 0 && NeedsOneOf(a, shares, n, q) && !NeedsOneOf(a, shares, n - 1, q)
    ensures NeedsZero(a, shares, n - 1, q)
  {
    var i: nat :| i < n && NeedsZero(a, shares, i, q);
  }

  lemma {:induction false} FittingNeedsNoZero(shares: seq<Share>, shared: int, i: nat, q: int)
    requires IsPrime(q) && Usable(Xs(shares), q) && Fits(shared, shares, q)
    ensures !NeedsZero(shared, shares, i, q)
  {
    var randoms := EverySecretFits(shares, shared, q);
  }

  /** t - 1 shares of a real sharing rule out at least one secret and at most t - 1 of the q. */
  lemma {:induction false} FewAreRuledOut(shares: seq<Share>, shared: int, q: int)
    requires IsPrime(q) && Usable(Xs(shares), q) && Fits(shared, shares, q) && shares != []
    ensures 1 <= |RuledOut(shares, q)| <= |shares|
  {
    forall s | s in RuledOut(shares, q) ensures s in RuledOutBy(shares, |shares|, q) {
      var randoms := FitsExactly(shares, s, q);
      var i: nat :| i < |randoms| && randoms[i] == 0;
      assert NeedsZero(s, shares, i, q);
    }
    SubsetSize(RuledOut(shares, q), RuledOutBy(shares, |shares|, q));
    FewPerScalar(shares, shared, |shares|, q);
    UsableNoClash(Xs(shares), q);
    var c := Dot(Lagrange(Xs(shares), q), Ys(shares)) % q;
    ModIs(c, c, 0, q);
    CombinedNeverFits(shares, c, q);
    assert c in RuledOut(shares, q);
  }

  // ------------------------------------------------------------------ views of split

  /** Sharing `secret` with these scalars shows exactly `seen` at the picked positions. */
  ghost predicate Views(secret: int, randoms: seq<int>, seen: seq<Share>, t: int, n: int, picks: seq<int>, q: int)
    requires q > 0 && 1 <= t <= n && ValidPicks(picks, n) && |randoms| == t - 1
  {
    Pick(Split(secret, t, n, randoms, q).value, picks) == seen
  }

  /** What t - 1 positions of a sharing show under another secret: one choice of residues
      shows the same, and the other secret can be drawn to show it if and only if that
      choice contains no zero. */
  lemma {:induction false} SplitHides(secret: int, other: int, t: int, n: int, randoms: seq<int>, picks: seq<int>,
                                      q: int)
    returns (others: seq<int>)
    requires IsPrime(q) && 1 <= t <= n < q && |randoms| == t - 1
    requires ValidPicks(picks, n) && |picks| == t - 1
    ensures |others| == t - 1 && Reduced(others, q)
    ensures var seen := Pick(Split(secret, t, n, randoms, q).value, picks);
      && Views(other, others, seen, t, n, picks, q)
      && (forall rs: seq<int> :: |rs| == t - 1 && Reduced(rs, q) && Views(other, rs, seen, t, n, picks, q) ==>
        rs == others)
      && ((exists rs: seq<int> :: |rs| == t - 1 && Drawable(rs, q) && Views(other, rs, seen, t, n, picks, q))
          <==> forall i :: 0 <= i < t - 1 ==> others[i] != 0)
  {
    var shares := Split(secret, t, n, randoms, q).value;
    var seen := Pick(shares, picks);
    PicksUsable(shares, picks, q);
    others := EverySecretFits(seen, other, q);
    SameView(seen, picks, other, t, n, others, q);
    forall rs | |rs| == t - 1 && Reduced(rs, q) && Views(other, rs, seen, t, n, picks, q) ensures rs == others {
      ViewExplains(picks, other, t, n, rs, q);
    }
    if rs :| |rs| == t - 1 && Drawable(rs, q) && Views(other, rs, seen, t, n, picks, q) { assert Reduced(rs, q); }
    if forall i :: 0 <= i < t - 1 ==> others[i] != 0 { assert Drawable(others, q); }
  }

  /** For a sharing drawn as the code draws it, t - 1 positions rule out at least one and at
      most t - 1 of the q possible secrets, and never the shared one. */
  lemma {:induction false} SplitRulesOutFew(secret: int, t: int, n: int, randoms: seq<int>, picks: seq<int>, q: int)
    requires IsPrime(q) && 2 <= t <= n < q && |randoms| == t - 1 && Drawable(randoms, q)
    requires ValidPicks(picks, n) && |picks| == t - 1
    ensures var out := RuledOut(Pick(Split(secret, t, n, randoms, q).value, picks), q);
      1 <= |out| <= t - 1 && Mod(secret, q) !in out
  {
    var shares := Split(secret, t, n, randoms, q).value;
    PicksUsable(shares, picks, q);
    ViewExplains(picks, secret, t, n, randoms, q);
    var seen := Pick(shares, picks);
    FewAreRuledOut(seen, secret, q);
    ModTwice(q);
    assert Mod(Mod(secret, q), q) == Mod(secret, q);
    assert Explains(randoms, Mod(secret, q), seen, q);
  }

  /** Reduced shares at the picked positions. */
  ghost predicate View(seen: seq<Share>, picks: seq<int>, q: int)
  {
    |seen| == |picks| && forall i :: 0 <= i < |seen| ==> seen[i].x == picks[i] + 1 && 0 <= seen[i].y < q
  }

  lemma {:induction false} SameView(seen: seq<Share>, picks: seq<int>, secret: int, t: int, n: int,
                                    randoms: seq<int>, q: int)
    requires q > 0 && 1 <= t <= n && ValidPicks(picks, n) && View(seen, picks, q) && |picks| == t - 1
    requires Explains(randoms, secret, seen, q)
    ensures Pick(Split(secret, t, n, randoms, q).value, picks) == seen
  {
    var shares := Split(secret, t, n, randoms, q).value;
    forall i | 0 <= i < |seen| ensures shares[picks[i]] == seen[i] {
      ModIs(seen[i].y, seen[i].y, 0, q);
    }
  }

  lemma {:induction false} ViewExplains(picks: seq<int>, secret: int, t: int, n: int, randoms: seq<int>, q: int)
    requires q > 0 && 1 <= t <= n && ValidPicks(picks, n) && |picks| == t - 1
    requires |randoms| == t - 1 && Reduced(randoms, q)
    ensures Explains(randoms, secret, Pick(Split(secret, t, n, randoms, q).value, picks), q)
  {
  }

  // ---------------------------------------------------------------- fewer do not

  /** The monic polynomial whose roots are xs. */
  function Roots(xs: seq<int>): (r: seq<int>)
    ensures |r| == |xs| + 1
  {
    if xs == [] then [1] else TimesRoot(Roots(xs[1..]), xs[0], 0)
  }

  lemma {:induction false} TimesRootTop(g: seq<int>, z: int, v: int)
    requires g != []
    ensures TimesRoot(g, z, v)[|g|] == g[|g| - 1]
  {
    if |g| > 1 { TimesRootTop(g[1..], z, g[0]); }
  }

  lemma {:induction false} RootsFacts(xs: seq<int>, q: int)
    requires IsPrime(q) && forall i :: 0 <= i < |xs| ==> xs[i] % q != 0
    ensures Roots(xs)[|xs|] == 1 && Poly(Roots(xs), 0) % q != 0
    ensures forall i :: 0 <= i < |xs| ==> Poly(Roots(xs), xs[i]) == 0
  {
    if xs == [] {
      assert [1][1..] == [];
      ModIs(1, 1, 0, q);
    } else {
      var z, g := xs[0], Roots(xs[1..]);
      RootsFacts(xs[1..], q);
      TimesRootTop(g, z, 0);
      TimesRootValue(g, z, 0, 0);
      NonZeroFlips(z, 0, q);
      PrimeProduct(0 - z, Poly(g, 0), q);
      forall i | 0 <= i < |xs| ensures Poly(Roots(xs), xs[i]) == 0 {
        TimesRootValue(g, z, 0, xs[i]);
        if i > 0 { assert xs[1..][i - 1] == xs[i]; }
      }
    }
  }

  lemma {:induction false} TopZero(f: seq<int>, x: int)
    requires f != [] && f[|f| - 1] == 0
    ensures Poly(f, x) == Poly(f[..|f| - 1], x)
  {
    PolySnoc(f[..|f| - 1], 0, x);
    assert f == f[..|f| - 1] + [0];
  }

  /** k shares of a polynomial of k + 1 coefficients combine to its constant term exactly
      when its leading coefficient is zero. */
  lemma {:induction false} OneShort(shares: seq<Share>, f: seq<int>, q: int)
    requires IsPrime(q) && Usable(Xs(shares), q) && OnPolynomial(shares, f, q) && |f| == |shares| + 1
    ensures !Clash(Xs(shares), q)
    ensures Cong(Dot(Lagrange(Xs(shares), q), Ys(shares)), f[0], q) <==> f[|shares|] % q == 0
  {
    var k, xs := |shares|, Xs(shares);
    var c, p := f[k], Roots(xs);
    RootsFacts(xs, q);
    var d := AddPoly(f, Scale(-c, p));
    var h := d[..k];
    assert d[k] == c + -c * p[k] == 0;
    forall i | 0 <= i < k ensures Cong(shares[i].y, Poly(h, shares[i].x), q) {
      TopZero(d, xs[i]);
      DifferenceValue(f, p, -c, xs[i]);
      assert Poly(p, xs[i]) == 0;
    }
    Interpolation(shares, h, q);
    TopZero(d, 0);
    DifferenceValue(f, p, -c, 0);
    Short(Dot(Lagrange(xs, q), Ys(shares)), f[0], c, Poly(p, 0), q);
  }

  lemma {:induction false} Short(l: int, s: int, c: int, p: int, q: int)
    requires IsPrime(q) && p % q != 0 && Cong(l, s + -c * p, q)
    ensures Cong(l, s, q) <==> c % q == 0
  {
    PrimeProduct(c, p, q);
    assert -c * p == -(c * p);
    if c % q == 0 { CongSub(s, s, c * p, 0, q); }
    if Cong(l, s, q) {
      CongSub(s, s + -c * p, s + -c * p, s + -c * p, q);
    }
  }

  /** "Fewer do not": t - 1 shares of `split` combine to the secret exactly when the last
      scalar is zero, which `randomScalar` never returns. */
  lemma {:induction false} FewerDoNot(secret: int, t: int, n: int, randoms: seq<int>, picks: seq<int>, q: int)
    requires IsPrime(q) && 2 <= t <= n < q && |randoms| == t - 1
    requires ValidPicks(picks, n) && |picks| == t - 1
    ensures var few := Pick(Split(secret, t, n, randoms, q).value, picks);
      && !Clash(Xs(few), q)
      && (Dot(Lagrange(Xs(few), q), Ys(few)) % q == Mod(secret, q) <==> randoms[t - 2] % q == 0)
  {
    var shares := Split(secret, t, n, randoms, q).value;
    PicksUsable(shares, picks, q);
    OneShort(Pick(shares, picks), [Mod(secret, q)] + randoms, q);
    ModTwice(q);
  }
}
