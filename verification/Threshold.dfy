/** Dealerless key generation, share verification, proactive refresh and quorum
    reconstruction (backend/src/mpc/dealerless-dkg.ts and threshold-signer.ts).
    A point of the group of prime order q is represented by its discrete logarithm
    to the generator, a residue in [0, q); residue 0 is the point at infinity, which
    the curve library refuses to encode, as it refuses to multiply by the scalar 0. */
module Threshold {
  import opened Modular
  import opened Wrappers
  import opened Shamir

  datatype KeyShare = KeyShare(nodeId: int, share: Share, publicKey: int, threshold: nat, epoch: int)

  datatype DealerlessResult = DealerlessResult(shares: seq<KeyShare>, publicKey: int, commitments: seq<int>)

  /** Point.multiply: only scalars in [1, q) are accepted. */
  function Multiply(point: int, scalar: int, q: int): Result<int, string>
    requires q > 0
  {
    if 1 <= scalar < q then Success((point * scalar) % q) else Failure("invalid scalar")
  }

  // -------------------------------------------------- aggregate polynomial

  function AddPoly(a: seq<int>, b: seq<int>): (r: seq<int>)
    requires |a| == |b|
    ensures |r| == |a|
  {
    seq(|a|, i requires 0 <= i < |a| => a[i] + b[i])
  }

  lemma {:induction false} AddPolyValue(a: seq<int>, b: seq<int>, x: int)
    requires |a| == |b|
    ensures Poly(AddPoly(a, b), x) == Poly(a, x) + Poly(b, x)
  {
    if a != [] {
      AddPolyValue(a[1..], b[1..], x);
      assert AddPoly(a, b)[1..] == AddPoly(a[1..], b[1..]);
      var p, r := Poly(a[1..], x), Poly(b[1..], x);
      assert x * (p + r) == x * p + x * r;
    }
  }

  predicate Shaped(coeffs: seq<seq<int>>, t: int)
  {
    forall p :: 0 <= p < |coeffs| ==> |coeffs[p]| == t
  }

  function Zeros(t: nat): (r: seq<int>)
    ensures |r| == t
  {
    seq(t, _ => 0)
  }

  lemma {:induction false} ZerosValue(t: nat, x: int)
    ensures Poly(Zeros(t), x) == 0
  {
    if t > 0 {
      ZerosValue(t - 1, x);
      assert Zeros(t)[1..] == Zeros(t - 1);
    }
  }

  /** The coefficient-wise sum of the participants' polynomials. */
  function Aggregate(coeffs: seq<seq<int>>, t: nat): (r: seq<int>)
    requires Shaped(coeffs, t)
    ensures |r| == t
  {
    if coeffs == [] then Zeros(t)
    else AddPoly(Aggregate(coeffs[..|coeffs| - 1], t), coeffs[|coeffs| - 1])
  }

  function SumAt(coeffs: seq<seq<int>>, k: nat): int
    requires forall p :: 0 <= p < |coeffs| ==> k < |coeffs[p]|
  {
    if coeffs == [] then 0 else SumAt(coeffs[..|coeffs| - 1], k) + coeffs[|coeffs| - 1][k]
  }

  lemma {:induction false} AggregateAt(coeffs: seq<seq<int>>, t: nat, k: nat)
    requires Shaped(coeffs, t) && k < t
    ensures Aggregate(coeffs, t)[k] == SumAt(coeffs, k)
  {
    if coeffs != [] { AggregateAt(coeffs[..|coeffs| - 1], t, k); }
  }

  // --------------------------------------------------------------- key generation

  ghost predicate UsableScalars(coeffs: seq<seq<int>>, t: nat, q: int)
    requires q > 0 && Shaped(coeffs, t)
  {
    && (forall p, k :: 0 <= p < |coeffs| && 0 <= k < t ==> coeffs[p][k] != 0)
    && (forall k :: 0 <= k < t ==> Aggregate(coeffs, t)[k] % q != 0)
  }

  ghost predicate Scalars(coeffs: seq<seq<int>>, q: int)
  {
    forall p, k :: 0 <= p < |coeffs| && 0 <= k < |coeffs[p]| ==> 0 <= coeffs[p][k] < q
  }

  /** What a successful run hands out: shares of the aggregate polynomial and
      commitments to its coefficients. */
  ghost predicate GeneratedFrom(r: DealerlessResult, coeffs: seq<seq<int>>, t: nat, n: nat, q: int)
    requires q > 0 && Shaped(coeffs, t)
  {
    var agg := Aggregate(coeffs, t);
    && |r.commitments| == t
    && (forall k :: 0 <= k < t ==> r.commitments[k] == agg[k] % q)
    && (t > 0 ==> r.publicKey == r.commitments[0])
    && |r.shares| == n
    && (forall j :: 0 <= j < n ==>
          r.shares[j] == KeyShare(j + 1, Share(j + 1, Poly(agg, j + 1) % q), r.publicKey, t, 0))
  }

  /** `dealerlessDkg`: every participant contributes one polynomial. */
  method DealerlessDkg(t: int, n: int, coeffs: seq<seq<int>>, q: int)
    returns (r: Result<DealerlessResult, string>)
    requires q > 1 && Scalars(coeffs, q)
    requires 1 <= t <= n ==> |coeffs| == n && Shaped(coeffs, t)
    ensures r.Success? <==> 1 <= t <= n && UsableScalars(coeffs, t, q)
    ensures r.Success? ==> GeneratedFrom(r.value, coeffs, t, n, q)
  {
    if t < 1 || t > n {
      return Failure("invalid threshold");
    }
    var p := 0;
    while p < n
      invariant 0 <= p <= n
      invariant forall i, k :: 0 <= i < p && 0 <= k < t ==> coeffs[i][k] != 0
    {
      var k := 0;
      while k < t
        invariant 0 <= k <= t
        invariant forall l :: 0 <= l < k ==> coeffs[p][l] != 0
      {
        if Multiply(1, coeffs[p][k], q).Failure? {
          return Failure("invalid scalar");
        }
        k := k + 1;
      }
      p := p + 1;
    }
    var commitments: seq<int> := [];
    while |commitments| < t
      invariant |commitments| <= t
      invariant forall k :: 0 <= k < |commitments| ==>
        commitments[k] == Aggregate(coeffs, t)[k] % q && commitments[k] != 0
    {
      var point := Commitment(coeffs, t, |commitments|, q);
      if point == 0 {
        return Failure("point at infinity has no encoding");
      }
      commitments := commitments + [point];
    }
    var shares := DealShares(coeffs, t, n, commitments[0], q);
    return Success(DealerlessResult(shares, commitments[0], commitments));
  }

  /** The aggregate commitment to coefficient k. */
  method Commitment(coeffs: seq<seq<int>>, t: nat, k: nat, q: int) returns (acc: int)
    requires q > 0 && Shaped(coeffs, t) && k < t
    ensures acc == Aggregate(coeffs, t)[k] % q
  {
    acc := 0;
    var p := 0;
    assert coeffs[..0] == [];
    while p < |coeffs|
      invariant 0 <= p <= |coeffs|
      invariant acc == SumAt(coeffs[..p], k) % q
    {
      assert coeffs[..p + 1][..p] == coeffs[..p];
      ModAdd(SumAt(coeffs[..p], k), coeffs[p][k], q);
      acc := (acc + coeffs[p][k]) % q;
      p := p + 1;
    }
    assert coeffs[..p] == coeffs;
    AggregateAt(coeffs, t, k);
  }

  method DealShares(coeffs: seq<seq<int>>, t: nat, n: nat, publicKey: int, q: int)
    returns (shares: seq<KeyShare>)
    requires q > 0 && Shaped(coeffs, t)
    ensures |shares| == n
    ensures forall j :: 0 <= j < n ==>
      shares[j] == KeyShare(j + 1, Share(j + 1, Poly(Aggregate(coeffs, t), j + 1) % q), publicKey, t, 0)
  {
    shares := [];
    var j := 1;
    while j <= n
      invariant 1 <= j <= n + 1 && |shares| == j - 1
      invariant forall i :: 0 <= i < j - 1 ==>
        shares[i] == KeyShare(i + 1, Share(i + 1, Poly(Aggregate(coeffs, t), i + 1) % q), publicKey, t, 0)
    {
      var y := ShareValue(coeffs, t, j, q);
      shares := shares + [KeyShare(j, Share(j, y), publicKey, t, 0)];
      j := j + 1;
    }
  }

  method ShareValue(coeffs: seq<seq<int>>, t: nat, x: int, q: int) returns (y: int)
    requires q > 0 && Shaped(coeffs, t)
    ensures y == Poly(Aggregate(coeffs, t), x) % q
  {
    y := 0;
    var p := 0;
    assert coeffs[..0] == [];
    ZerosValue(t, x);
    while p < |coeffs|
      invariant 0 <= p <= |coeffs|
      invariant y == Poly(Aggregate(coeffs[..p], t), x) % q
    {
      assert coeffs[..p + 1][..p] == coeffs[..p];
      var agg := Aggregate(coeffs[..p], t);
      AddPolyValue(agg, coeffs[p], x);
      var v := EvalPoly(coeffs[p], x, q);
      SumOfResidues(Poly(agg, x), Poly(coeffs[p], x), q);
      y := Mod(y + v, q);
      p := p + 1;
    }
    assert coeffs[..p] == coeffs;
  }

  lemma {:induction false} SumOfResidues(a: int, b: int, q: int)
    requires q > 0
    ensures (a % q + b % q) % q == (a + b) % q
  {
    ModAdd(a, b % q, q);
    ModAdd(b, a, q);
  }

  // ------------------------------------------------------------ Feldman check

  function Power(x: int, k: nat): int
  {
    if k == 0 then 1 else Power(x, k - 1) * x
  }

  /** The power sum that the verification loop accumulates. */
  function PowerSum(cs: seq<int>, x: int): int
  {
    if cs == [] then 0
    else PowerSum(cs[..|cs| - 1], x) + cs[|cs| - 1] * Power(x, |cs| - 1)
  }

  lemma {:induction false} PowerSumIsPoly(cs: seq<int>, x: int)
    ensures PowerSum(cs, x) == Poly(cs, x)
  {
    if cs != [] {
      var k := |cs| - 1;
      PowerSumIsPoly(cs[..k], x);
      PolySnoc(cs[..k], cs[k], x);
      assert cs == cs[..k] + [cs[k]];
    }
  }

  lemma {:induction false} PolySnoc(cs: seq<int>, c: int, x: int)
    ensures Poly(cs + [c], x) == Poly(cs, x) + c * Power(x, |cs|)
  {
    if cs == [] {
      assert (cs + [c])[1..] == [];
    } else {
      PolySnoc(cs[1..], c, x);
      assert (cs + [c])[1..] == cs[1..] + [c];
      var p, w := Poly(cs[1..], x), Power(x, |cs| - 1);
      assert x * (p + c * w) == x * p + c * (w * x);
    }
  }

  lemma {:induction false} PowerNonZero(x: int, k: nat, q: int)
    requires IsPrime(q)
    ensures Power(x, k) % q != 0 <==> k == 0 || x % q != 0
  {
    if k == 0 {
      ModIs(1, 1, 0, q);
    } else {
      PowerNonZero(x, k - 1, q);
      PrimeProduct(Power(x, k - 1), x, q);
    }
  }

  /** `verifyShare`: it throws exactly when a scalar is zero, and otherwise accepts
      exactly the points of the committed polynomial. */
  method VerifyShare(x: int, y: int, commitments: seq<int>, q: int) returns (r: Result<bool, string>)
    requires IsPrime(q)
    ensures r.Failure? <==> (|commitments| >= 2 && x % q == 0) || y % q == 0
    ensures r.Success? ==> (r.value <==> Cong(y, Poly(commitments, x), q))
  {
    var rhs, xk, k := 0, 1, 0;
    ModIs(1, 1, 0, q);
    while k < |commitments|
      invariant 0 <= k <= |commitments|
      invariant xk == Power(x, k) % q
      invariant k >= 2 ==> x % q != 0
      invariant rhs == PowerSum(commitments[..k], x) % q
    {
      PowerNonZero(x, k, q);
      var term := Multiply(commitments[k], xk, q);
      if term.Failure? {
        return Failure("invalid scalar");
      }
      RhsStep(PowerSum(commitments[..k], x), commitments[k], Power(x, k), q);
      assert commitments[..k + 1][..k] == commitments[..k];
      rhs := (rhs + term.value) % q;
      ModMul(Power(x, k), x, q);
      xk := Mod(xk * x, q);
      k := k + 1;
    }
    assert commitments[..k] == commitments;
    PowerSumIsPoly(commitments, x);
    var lhs := Multiply(1, Mod(y, q), q);
    if lhs.Failure? {
      return Failure("invalid scalar");
    }
    ModTwice(q);
    assert 1 * Mod(y, q) == Mod(y, q);
    return Success(lhs.value == rhs);
  }

  lemma {:induction false} RhsStep(s: int, c: int, w: int, q: int)
    requires q > 0
    ensures (s % q + (c * (w % q)) % q) % q == (s + c * w) % q
  {
    ModMul(w, c, q);
    assert (w % q) * c == c * (w % q) && w * c == c * w;
    SumOfResidues(s, c * w, q);
  }

  /** Commitments are residues of the aggregate coefficients: they evaluate alike. */
  lemma {:induction false} ResiduesEvaluate(cs: seq<int>, agg: seq<int>, x: int, q: int)
    requires q > 0 && |cs| == |agg|
    requires forall k :: 0 <= k < |cs| ==> cs[k] == agg[k] % q
    ensures Cong(Poly(cs, x), Poly(agg, x), q)
  {
    if cs != [] {
      ResiduesEvaluate(cs[1..], agg[1..], x, q);
      ModTwice(q);
      CongMul(x, x, Poly(cs[1..], x), Poly(agg[1..], x), q);
      CongAdd(cs[0], agg[0], x * Poly(cs[1..], x), x * Poly(agg[1..], x), q);
    }
  }

  // ---------------------------------------------------------------- refresh

  /** `refresh`: add one polynomial with zero constant term to every share. */
  function Refresh(shares: seq<Share>, randoms: seq<int>, q: int): (r: seq<Share>)
    requires q > 0
    ensures |r| == |shares|
  {
    seq(|shares|, i requires 0 <= i < |shares| =>
      Share(shares[i].x, Mod(shares[i].y + Poly([0] + randoms, shares[i].x) % q, q)))
  }

  function SharesIn(keyShares: seq<KeyShare>): (r: seq<Share>)
    ensures |r| == |keyShares|
  {
    seq(|keyShares|, i requires 0 <= i < |keyShares| => keyShares[i].share)
  }

  /** The threshold that a list of shares carries, read off the first one. */
  function ThresholdOf(keyShares: seq<KeyShare>): nat
  {
    if keyShares == [] then |keyShares| else keyShares[0].threshold
  }

  /** How many scalars a refresh draws. */
  function Draws(keyShares: seq<KeyShare>): nat
  {
    if ThresholdOf(keyShares) == 0 then 0 else ThresholdOf(keyShares) - 1
  }

  /** The same node's share of the same key, so many epochs later. */
  predicate SameHolder(before: KeyShare, after: KeyShare, epochs: nat)
  {
    && after.nodeId == before.nodeId && after.publicKey == before.publicKey && after.threshold == before.threshold
    && after.share.x == before.share.x && after.epoch == before.epoch + epochs
  }

  /** `refreshKeyShares`: refresh every share and move to the next epoch. */
  function RefreshKeyShares(keyShares: seq<KeyShare>, randoms: seq<int>, q: int): (r: seq<KeyShare>)
    requires q > 0 && |randoms| == Draws(keyShares)
    ensures |r| == |keyShares| && Draws(r) == Draws(keyShares)
    ensures forall i :: 0 <= i < |r| ==> SameHolder(keyShares[i], r[i], 1)
  {
    var refreshed := Refresh(SharesIn(keyShares), randoms, q);
    seq(|keyShares|, i requires 0 <= i < |keyShares| =>
      keyShares[i].(share := refreshed[i], epoch := keyShares[i].epoch + 1))
  }

  /** Each round has as many scalars as the shares' threshold asks for. */
  ghost predicate RoundsFit(keyShares: seq<KeyShare>, rounds: seq<seq<int>>)
  {
    forall i :: 0 <= i < |rounds| ==> |rounds[i]| == Draws(keyShares)
  }

  /** Any number of refresh rounds, each with its own random coefficients. Every node keeps
      its number, key and threshold. */
  ghost function RefreshRounds(keyShares: seq<KeyShare>, rounds: seq<seq<int>>, q: int): (r: seq<KeyShare>)
    requires q > 0 && RoundsFit(keyShares, rounds)
    ensures |r| == |keyShares|
    ensures forall i :: 0 <= i < |r| ==> SameHolder(keyShares[i], r[i], |rounds|)
    decreases |rounds|
  {
    if rounds == [] then keyShares
    else RefreshRounds(RefreshKeyShares(keyShares, rounds[0], q), rounds[1..], q)
  }

  lemma {:induction false} RefreshStaysOnPolynomial(shares: seq<Share>, coeffs: seq<int>, randoms: seq<int>, q: int)
    requires q > 0 && OnPolynomial(shares, coeffs, q) && |coeffs| == |randoms| + 1
    ensures OnPolynomial(Refresh(shares, randoms, q), AddPoly(coeffs, [0] + randoms), q)
  {
    var zero := [0] + randoms;
    forall i | 0 <= i < |shares|
      ensures Cong(Refresh(shares, randoms, q)[i].y, Poly(AddPoly(coeffs, zero), shares[i].x), q)
    {
      var x := shares[i].x;
      AddPolyValue(coeffs, zero, x);
      ModTwice(q);
      CongAdd(shares[i].y, Poly(coeffs, x), Poly(zero, x) % q, Poly(zero, x), q);
    }
  }

  /** After any number of rounds the shares lie on some polynomial of the same size
      with the same constant term, in a common later epoch. */
  lemma {:induction false} RoundsKeepSecret(keyShares: seq<KeyShare>, coeffs: seq<int>, rounds: seq<seq<int>>, q: int)
    returns (final: seq<int>)
    requires q > 0 && coeffs != [] && OnPolynomial(SharesIn(keyShares), coeffs, q)
    requires RoundsFit(keyShares, rounds) && |coeffs| == Draws(keyShares) + 1
    ensures |final| == |coeffs| && final[0] == coeffs[0]
    ensures OnPolynomial(SharesIn(RefreshRounds(keyShares, rounds, q)), final, q)
    decreases |rounds|
  {
    if rounds == [] {
      final := coeffs;
    } else {
      var next := RefreshKeyShares(keyShares, rounds[0], q);
      RefreshStaysOnPolynomial(SharesIn(keyShares), coeffs, rounds[0], q);
      assert SharesIn(next) == Refresh(SharesIn(keyShares), rounds[0], q);
      final := RoundsKeepSecret(next, AddPoly(coeffs, [0] + rounds[0]), rounds[1..], q);
    }
  }

  /** After key generation and any number of refresh rounds, any t or more shares
      combine to the sum of all participants' constant terms. */
  lemma {:induction false} RefreshedQuorumReconstructs(coeffs: seq<seq<int>>, t: nat, n: nat, r: DealerlessResult,
                                    rounds: seq<seq<int>>, picks: seq<int>, q: int)
    requires IsPrime(q) && 1 <= t <= n < q && Shaped(coeffs, t) && GeneratedFrom(r, coeffs, t, n, q)
    requires RoundsFit(r.shares, rounds)
    requires t <= |picks| && ValidPicks(picks, n)
    ensures var quorum := SharesIn(Pick(RefreshRounds(r.shares, rounds, q), picks));
      && !Clash(Xs(quorum), q)
      && Dot(Lagrange(Xs(quorum), q), Ys(quorum)) % q == SumAt(coeffs, 0) % q == r.publicKey
  {
    var agg := Aggregate(coeffs, t);
    AggregateAt(coeffs, t, 0);
    ModTwice(q);
    var final := RoundsKeepSecret(r.shares, agg, rounds, q);
    var all := SharesIn(RefreshRounds(r.shares, rounds, q));
    var quorum := SharesIn(Pick(RefreshRounds(r.shares, rounds, q), picks));
    assert quorum == Pick(all, picks);
    PicksUsable(all, picks, q);
    Interpolation(quorum, final, q);
    assert Poly(final, 0) == final[0];
  }

  // ---------------------------------------------------------------- signing

  datatype SignError = ThresholdNotMet | MixedEpochs | BadShare | NotInvertible | WrongKey | InvalidScalar

  ghost predicate OneEpoch(nodes: seq<KeyShare>)
  {
    forall i, j :: 0 <= i < |nodes| && 0 <= j < |nodes| ==> nodes[i].epoch == nodes[j].epoch
  }

  /** The ThresholdSigner constructor's checks followed by `signHash` up to the point
      where the reconstructed key is used: the first `threshold` nodes contribute, each
      share is checked against the commitments if there are any, and the key is used
      only if it matches the group public key. */
  method QuorumKey(nodes: seq<KeyShare>, threshold: nat, publicKey: int,
                   commitments: Option<seq<int>>, q: int) returns (r: Result<int, SignError>)
    requires IsPrime(q) && 0 <= publicKey < q
    ensures r.Success? <==> Signable(nodes, threshold, publicKey, commitments, q)
    ensures r.Success? ==> r.value == publicKey
  {
    if |nodes| < threshold {
      return Failure(ThresholdNotMet);
    }
    var mixed := exists i, j :: 0 <= i < |nodes| && 0 <= j < |nodes| && nodes[i].epoch != nodes[j].epoch;
    if mixed {
      return Failure(MixedEpochs);
    }
    var quorum := nodes[..threshold];
    if commitments.Some? {
      var i := 0;
      while i < threshold
        invariant 0 <= i <= threshold
        invariant forall k :: 0 <= k < i ==> Passes(nodes[k].share, commitments.value, q)
      {
        assert quorum[i] == nodes[i];
        var ok := VerifyShare(quorum[i].share.x, quorum[i].share.y, commitments.value, q);
        if ok.Failure? {
          return Failure(InvalidScalar);
        }
        if !ok.value {
          return Failure(BadShare);
        }
        i := i + 1;
      }
    }
    var d := Combine(SharesIn(quorum), q);
    if d.None? {
      return Failure(NotInvertible);
    }
    if d.value == 0 {
      return Failure(InvalidScalar);
    }
    if d.value != publicKey {
      return Failure(WrongKey);
    }
    return Success(d.value);
  }

  /** There are enough nodes, of one epoch, every share that is checked passes, and the
      quorum's key is the group's. */
  ghost predicate Signable(nodes: seq<KeyShare>, threshold: nat, publicKey: int, commitments: Option<seq<int>>, q: int)
    requires IsPrime(q)
  {
    && threshold <= |nodes| && OneEpoch(nodes) && publicKey != 0 && Matches(nodes, threshold, publicKey, q)
    && (commitments.Some? ==> forall i :: 0 <= i < threshold ==> Passes(nodes[i].share, commitments.value, q))
  }

  /** `thresholdSignerFromShares`: the threshold is the one the shares carry. */
  method SignerKey(shares: seq<KeyShare>, publicKey: int, commitments: Option<seq<int>>, q: int)
    returns (r: Result<int, SignError>)
    requires IsPrime(q) && 0 <= publicKey < q
    ensures r.Success? <==> Signable(shares, ThresholdOf(shares), publicKey, commitments, q)
    ensures r.Success? ==> r.value == publicKey
  {
    var threshold := if |shares| > 0 then shares[0].threshold else |shares|;
    r := QuorumKey(shares, threshold, publicKey, commitments, q);
  }

  /** The share lies on the committed polynomial and no scalar of its check is zero. */
  ghost predicate Passes(s: Share, commitments: seq<int>, q: int)
    requires q > 0
  {
    !(|commitments| >= 2 && s.x % q == 0) && s.y % q != 0 && Cong(s.y, Poly(commitments, s.x), q)
  }

  /** The first `threshold` shares interpolate to the group key. */
  ghost predicate Matches(nodes: seq<KeyShare>, threshold: nat, publicKey: int, q: int)
    requires IsPrime(q) && threshold <= |nodes|
  {
    var quorum := SharesIn(nodes[..threshold]);
    !Clash(Xs(quorum), q) && Dot(Lagrange(Xs(quorum), q), Ys(quorum)) % q == publicKey
  }

  /** A quorum of one epoch always reaches the group key, in whatever order and
      selection the nodes are listed. */
  lemma {:induction false} QuorumAlwaysMatches(coeffs: seq<seq<int>>, t: nat, n: nat, r: DealerlessResult,
                            rounds: seq<seq<int>>, picks: seq<int>, q: int)
    requires IsPrime(q) && 1 <= t <= n < q && Shaped(coeffs, t) && GeneratedFrom(r, coeffs, t, n, q)
    requires RoundsFit(r.shares, rounds)
    requires t <= |picks| && ValidPicks(picks, n)
    ensures var nodes := Pick(RefreshRounds(r.shares, rounds, q), picks);
      OneEpoch(nodes) && Matches(nodes, t, r.publicKey, q)
  {
    var all := RefreshRounds(r.shares, rounds, q);
    var nodes := Pick(all, picks);
    RefreshedQuorumReconstructs(coeffs, t, n, r, rounds, picks[..t], q);
    assert nodes[..t] == Pick(all, picks[..t]);
    ModTwice(q);
    SameEpoch(coeffs, t, n, r, rounds, picks, q);
  }

  /** After any number of refreshes, every selection of enough nodes signs with the threshold
      and the public key that the refreshed shares themselves carry, unless the key is zero. */
  lemma {:induction false} RefreshedSharesSign(coeffs: seq<seq<int>>, t: nat, n: nat, r: DealerlessResult,
                            rounds: seq<seq<int>>, picks: seq<int>, q: int)
    requires IsPrime(q) && 1 <= t <= n < q && Shaped(coeffs, t) && GeneratedFrom(r, coeffs, t, n, q)
    requires RoundsFit(r.shares, rounds) && ValidPicks(picks, n) && t <= |picks|
    ensures var nodes := Pick(RefreshRounds(r.shares, rounds, q), picks);
      && ThresholdOf(nodes) == t && nodes[0].publicKey == r.publicKey
      && (Signable(nodes, ThresholdOf(nodes), nodes[0].publicKey, None, q) <==> r.publicKey != 0)
  {
    QuorumAlwaysMatches(coeffs, t, n, r, rounds, picks, q);
  }

  lemma {:induction false} SameEpoch(coeffs: seq<seq<int>>, t: nat, n: nat, r: DealerlessResult,
                            rounds: seq<seq<int>>, picks: seq<int>, q: int)
    requires IsPrime(q) && 1 <= t <= n < q && Shaped(coeffs, t) && GeneratedFrom(r, coeffs, t, n, q)
    requires RoundsFit(r.shares, rounds)
    requires ValidPicks(picks, n)
    ensures OneEpoch(Pick(RefreshRounds(r.shares, rounds, q), picks))
  {
  }

  /** An unrefreshed share passes the Feldman check for exactly one y modulo q, and for none
      where the check would multiply by zero. */
  lemma {:induction false} FeldmanExact(coeffs: seq<seq<int>>, t: nat, n: nat, r: DealerlessResult, x: int, y: int,
                                        q: int)
    requires q > 0 && Shaped(coeffs, t) && GeneratedFrom(r, coeffs, t, n, q)
    ensures var value := Poly(Aggregate(coeffs, t), x);
      Passes(Share(x, y), r.commitments, q) <==> !(t >= 2 && x % q == 0) && value % q != 0 && Cong(y, value, q)
  {
    ResiduesEvaluate(r.commitments, Aggregate(coeffs, t), x, q);
  }

  /** What all refresh rounds together add at x. */
  function RefreshSum(rounds: seq<seq<int>>, x: int): int
  {
    if rounds == [] then 0 else Poly([0] + rounds[0], x) + RefreshSum(rounds[1..], x)
  }

  lemma {:induction false} RefreshedShare(keyShares: seq<KeyShare>, rounds: seq<seq<int>>, j: nat, q: int)
    requires q > 0 && j < |keyShares| && RoundsFit(keyShares, rounds)
    ensures var before, after := keyShares[j].share, RefreshRounds(keyShares, rounds, q)[j].share;
      after.x == before.x && Cong(after.y, before.y + RefreshSum(rounds, before.x), q)
    decreases |rounds|
  {
    if rounds != [] {
      var next := RefreshKeyShares(keyShares, rounds[0], q);
      RefreshedShare(next, rounds[1..], j, q);
      var s := keyShares[j].share;
      var z := Poly([0] + rounds[0], s.x);
      ModTwice(q);
      CongAdd(s.y, s.y, z % q, z, q);
      CongAdd(next[j].share.y, s.y + z, RefreshSum(rounds[1..], s.x), RefreshSum(rounds[1..], s.x), q);
    }
  }

  /** After any number of refresh rounds a share lies on the epoch-0 commitments if and only
      if the refresh polynomials sum to zero at its x. */
  lemma {:induction false} RefreshedShareVerifies(coeffs: seq<seq<int>>, t: nat, n: nat, r: DealerlessResult,
                               rounds: seq<seq<int>>, j: nat, q: int)
    requires q > 0 && Shaped(coeffs, t) && GeneratedFrom(r, coeffs, t, n, q) && j < n < q
    requires RoundsFit(r.shares, rounds)
    ensures var s := RefreshRounds(r.shares, rounds, q)[j].share;
      Passes(s, r.commitments, q) <==> RefreshSum(rounds, j + 1) % q == 0 && s.y % q != 0
  {
    var x := j + 1;
    RefreshedShare(r.shares, rounds, j, q);
    ResiduesEvaluate(r.commitments, Aggregate(coeffs, t), x, q);
    ModIs(x, x, 0, q);
    ModTwice(q);
    var s := RefreshRounds(r.shares, rounds, q)[j].share;
    AddsNothing(s.y, r.shares[j].share.y, Poly(Aggregate(coeffs, t), x), RefreshSum(rounds, x), q);
  }

  lemma {:induction false} AddsNothing(y: int, y0: int, p: int, z: int, q: int)
    requires q > 0 && Cong(y, y0 + z, q) && Cong(y0, p, q)
    ensures Cong(y, p, q) <==> z % q == 0
  {
    CongAdd(y0, p, z, z, q);
    if Cong(y, p, q) { CongSub(p + z, p, p, p, q); }
    if Cong(z, 0, q) { CongAdd(p, p, z, 0, q); }
  }
}
