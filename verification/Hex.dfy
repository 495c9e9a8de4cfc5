/** Byte strings, their big-endian values and their hexadecimal spelling. */
module Hex {
  import opened Modular

  type byte = b: int | 0 <= b < 256

  function Pow(base: nat, k: nat): (r: nat)
    ensures base > 0 ==> r > 0
  {
    if k == 0 then 1 else base * Pow(base, k - 1)
  }

  /** The big-endian value of a byte string. */
  function BigEndian(b: seq<byte>): nat
  {
    if b == [] then 0 else 256 * BigEndian(b[..|b| - 1]) + b[|b| - 1]
  }

  lemma {:induction false} BigEndianBound(b: seq<byte>)
    ensures BigEndian(b) < Pow(256, |b|)
  {
    if b != [] { BigEndianBound(b[..|b| - 1]); }
  }

  lemma {:induction false} BigEndianCons(x: byte, b: seq<byte>)
    ensures BigEndian([x] + b) == x * Pow(256, |b|) + BigEndian(b)
  {
    if b == [] {
      assert ([x] + b)[..0] == [];
    } else {
      var k := |b| - 1;
      BigEndianCons(x, b[..k]);
      assert ([x] + b)[..k + 1] == [x] + b[..k];
      assert 256 * (x * Pow(256, k)) == x * (256 * Pow(256, k));
    }
  }

  /** Zero bytes in front do not count. */
  lemma {:induction false} BigEndianPadded(n: nat, b: seq<byte>)
    ensures BigEndian(seq(n, _ => 0) + b) == BigEndian(b)
  {
    if n == 0 {
      assert seq(0, _ => 0) + b == b;
    } else {
      var rest: seq<byte> := seq(n - 1, _ => 0) + b;
      assert seq(n, _ => 0) + b == [0] + rest;
      BigEndianCons(0, rest);
      BigEndianPadded(n - 1, b);
    }
  }

  /** Equal values of equal length are equal strings. */
  lemma {:induction false} BigEndianInjective(a: seq<byte>, b: seq<byte>)
    requires |a| == |b| && BigEndian(a) == BigEndian(b)
    ensures a == b
  {
    if a != [] {
      var k := |a| - 1;
      BigEndianInjective(a[..k], b[..k]);
      assert a == a[..k] + [a[k]] && b == b[..k] + [b[k]];
    }
  }

  lemma {:induction false} PowMono(base: nat, j: nat, k: nat)
    requires base > 0 && j <= k
    ensures Pow(base, j) <= Pow(base, k)
  {
    if j < k {
      PowMono(base, j, k - 1);
      MulMono(1, base, Pow(base, k - 1));
    }
  }

  /** A string with no leading zero byte is as long as its value needs. */
  lemma {:induction false} LeadingByte(b: seq<byte>)
    requires b != [] && b[0] != 0
    ensures Pow(256, |b| - 1) <= BigEndian(b)
  {
    assert b == [b[0]] + b[1..];
    BigEndianCons(b[0], b[1..]);
    MulMono(1, b[0], Pow(256, |b| - 1));
  }

  ghost predicate Minimal(b: seq<byte>)
  {
    b != [] ==> b[0] != 0
  }

  /** Two minimal strings with one value are the same string. */
  lemma {:induction false} MinimalUnique(a: seq<byte>, b: seq<byte>)
    requires Minimal(a) && Minimal(b) && BigEndian(a) == BigEndian(b)
    ensures a == b
  {
    if |a| < |b| { LongerIsLarger(a, b); }
    if |b| < |a| { LongerIsLarger(b, a); }
    BigEndianInjective(a, b);
  }

  lemma {:induction false} LongerIsLarger(a: seq<byte>, b: seq<byte>)
    requires Minimal(b) && |a| < |b|
    ensures BigEndian(a) < BigEndian(b)
  {
    BigEndianBound(a);
    LeadingByte(b);
    PowMono(256, |a|, |b| - 1);
  }

  // ------------------------------------------------------------- hexadecimal

  predicate IsHexDigit(c: char)
  {
    '0' <= c <= '9' || 'a' <= c <= 'f' || 'A' <= c <= 'F'
  }

  predicate IsHex(s: string)
  {
    forall i :: 0 <= i < |s| ==> IsHexDigit(s[i])
  }

  function HexValue(c: char): (v: int)
    requires IsHexDigit(c)
    ensures 0 <= v < 16
  {
    if '0' <= c <= '9' then c as int - '0' as int
    else if 'a' <= c <= 'f' then c as int - 'a' as int + 10
    else c as int - 'A' as int + 10
  }

  /** The lower-case digit of a value below 16. */
  function HexDigit(v: int): (c: char)
    requires 0 <= v < 16
    ensures IsHexDigit(c) && HexValue(c) == v && !('A' <= c <= 'F')
    ensures c == '0' <==> v == 0
  {
    if v < 10 then '0' + v as char else 'a' + (v - 10) as char
  }

  /** `n.toString(16)`. */
  function NatToHex(n: nat): (s: string)
    ensures s != [] && IsHex(s) && HexToNat(s) == n
    ensures n > 0 ==> s[0] != '0'
  {
    if n < 16 then
      assert [HexDigit(n)][..0] == [];
      [HexDigit(n)]
    else
      var s := NatToHex(n / 16) + [HexDigit(n % 16)];
      assert s[..|s| - 1] == NatToHex(n / 16);
      s
  }

  /** `BigInt("0x" + s)`. */
  function HexToNat(s: string): nat
    requires IsHex(s)
  {
    if s == [] then 0 else 16 * HexToNat(s[..|s| - 1]) + HexValue(s[|s| - 1])
  }

  /** `Buffer.from(s, "hex")` on an even number of hexadecimal digits. */
  function FromHex(s: string): (b: seq<byte>)
    requires IsHex(s) && |s| % 2 == 0
    ensures |b| == |s| / 2
  {
    seq(|s| / 2, i requires 0 <= i < |s| / 2 => 16 * HexValue(s[2 * i]) + HexValue(s[2 * i + 1]))
  }

  /** `Buffer.toString("hex")`. */
  function ToHex(b: seq<byte>): (s: string)
    ensures |s| == 2 * |b| && IsHex(s)
  {
    if b == [] then []
    else ToHex(b[..|b| - 1]) + [HexDigit(b[|b| - 1] / 16), HexDigit(b[|b| - 1] % 16)]
  }

  /** The last byte comes from the last two digits. */
  lemma {:induction false} FromHexSnoc(s: string)
    requires IsHex(s) && |s| % 2 == 0 && s != []
    ensures var k := |s| - 2;
      FromHex(s) == FromHex(s[..k]) + [16 * HexValue(s[k]) + HexValue(s[k + 1])]
  {
    var m := |s| / 2 - 1;
    assert |s| - 2 == 2 * m;
  }

  /** `toUpperCase` on an ASCII character. */
  function Upper(c: char): char
  {
    if 'a' <= c <= 'z' then c - 'a' + 'A' else c
  }

  /** The bytes of a hexadecimal string have the value the string spells. */
  lemma {:induction false} HexValueOfBytes(s: string)
    requires IsHex(s) && |s| % 2 == 0
    ensures BigEndian(FromHex(s)) == HexToNat(s)
  {
    if s != [] {
      var k := |s| - 2;
      HexValueOfBytes(s[..k]);
      FromHexSnoc(s);
      BigEndianSnoc(FromHex(s[..k]), 16 * HexValue(s[k]) + HexValue(s[k + 1]));
      HexToNatPair(s);
    }
  }

  lemma {:induction false} HexToNatPair(s: string)
    requires IsHex(s) && |s| >= 2
    ensures var k := |s| - 2;
      HexToNat(s) == 256 * HexToNat(s[..k]) + 16 * HexValue(s[k]) + HexValue(s[k + 1])
  {
    var k := |s| - 2;
    assert s[..k + 1][..k] == s[..k];
    assert HexToNat(s[..k + 1]) == 16 * HexToNat(s[..k]) + HexValue(s[k]);
  }

  lemma {:induction false} BigEndianSnoc(b: seq<byte>, x: byte)
    ensures BigEndian(b + [x]) == 256 * BigEndian(b) + x
  {
    assert (b + [x])[..|b|] == b;
  }

  lemma {:induction false} HexPadded(n: nat, s: string)
    requires IsHex(s)
    ensures IsHex(Zeros(n) + s) && HexToNat(Zeros(n) + s) == HexToNat(s)
  {
    if s == [] {
      assert Zeros(n) + s == Zeros(n);
      ZerosAreZero(n);
    } else {
      var k := |s| - 1;
      HexPadded(n, s[..k]);
      assert (Zeros(n) + s)[..n + k] == Zeros(n) + s[..k];
    }
  }

  function Zeros(n: nat): string { seq(n, _ => '0') }

  lemma {:induction false} ZerosAreZero(n: nat)
    ensures HexToNat(Zeros(n)) == 0
  {
    if n > 0 {
      ZerosAreZero(n - 1);
      assert Zeros(n)[..n - 1] == Zeros(n - 1);
    }
  }

  /** `s.padStart(n, "0")`. */
  function PadStart(s: string, n: nat): string
  {
    if |s| >= n then s else Zeros(n - |s|) + s
  }

  predicate IsLowerHex(s: string)
  {
    IsHex(s) && forall i :: 0 <= i < |s| ==> !('A' <= s[i] <= 'F')
  }

  lemma {:induction false} LowerHexConcat(s: string, t: string)
    requires IsLowerHex(s) && IsLowerHex(t)
    ensures IsLowerHex(s + t)
  {
  }

  /** Padding keeps the value and reaches the width. */
  lemma {:induction false} PadStartFacts(s: string, n: nat)
    requires IsLowerHex(s) && |s| <= n
    ensures var p := PadStart(s, n);
      |p| == n && IsLowerHex(p) && HexToNat(p) == HexToNat(s) && p[..n - |s|] == Zeros(n - |s|) && p[n - |s|..] == s
  {
    HexPadded(n - |s|, s);
    LowerHexConcat(Zeros(n - |s|), s);
    assert |s| == n ==> Zeros(0) + s == s;
  }

  /** Powers multiply when exponents add. */
  lemma {:induction false} PowAdd(base: nat, i: nat, j: nat)
    ensures Pow(base, i + j) == Pow(base, i) * Pow(base, j)
  {
    if i > 0 {
      PowAdd(base, i - 1, j);
      MulAssoc(base, Pow(base, i - 1), Pow(base, j));
    }
  }

  lemma {:induction false} NatToHexLower(n: nat)
    ensures IsLowerHex(NatToHex(n))
  {
    if n >= 16 { NatToHexLower(n / 16); }
  }

  lemma {:induction false} ToHexLower(b: seq<byte>)
    ensures IsLowerHex(ToHex(b))
  {
    if b != [] { ToHexLower(b[..|b| - 1]); }
  }

  lemma {:induction false} LowerDigit(c: char)
    requires IsHexDigit(c) && !('A' <= c <= 'F')
    ensures HexDigit(HexValue(c)) == c
  {
  }

  /** Lower-case hexadecimal survives the trip through bytes. */
  lemma {:induction false} LowerHexRoundTrip(s: string)
    requires IsLowerHex(s) && |s| % 2 == 0
    ensures ToHex(FromHex(s)) == s
  {
    SpelledBack(s, FromHex(s));
  }

  lemma {:induction false} SpelledBack(s: string, b: seq<byte>)
    requires IsLowerHex(s) && |s| % 2 == 0 && b == FromHex(s)
    ensures ToHex(b) == s
  {
    if s != [] {
      var k, n := |s| - 2, |b| - 1;
      FromHexSnoc(s);
      assert b[..n] == FromHex(s[..k]);
      SpelledBack(s[..k], b[..n]);
      assert b[n] == 16 * HexValue(s[k]) + HexValue(s[k + 1]);
      PairSpelled(s[k], s[k + 1], b[n]);
      assert ToHex(b) == ToHex(b[..n]) + [HexDigit(b[n] / 16), HexDigit(b[n] % 16)];
      LastTwo(s);
    }
  }

  lemma {:induction false} PairSpelled(c: char, d: char, x: byte)
    requires IsHexDigit(c) && IsHexDigit(d) && !('A' <= c <= 'F') && !('A' <= d <= 'F')
    requires x == 16 * HexValue(c) + HexValue(d)
    ensures HexDigit(x / 16) == c && HexDigit(x % 16) == d
  {
    LowerDigit(c);
    LowerDigit(d);
  }

  lemma {:induction false} LastTwo(s: string)
    requires |s| >= 2
    ensures var k := |s| - 2; s == s[..k] + [s[k], s[k + 1]]
  {
  }

  lemma {:induction false} ToHexCons(x: byte, b: seq<byte>)
    ensures ToHex([x] + b) == [HexDigit(x / 16), HexDigit(x % 16)] + ToHex(b)
  {
    if b == [] {
      assert ([x] + b)[..0] == [];
    } else {
      var k := |b| - 1;
      ToHexCons(x, b[..k]);
      assert ([x] + b)[..k + 1] == [x] + b[..k];
    }
  }

  lemma {:induction false} HexRoundTrip(b: seq<byte>)
    ensures FromHex(ToHex(b)) == b
  {
    if b != [] {
      var k := |b| - 1;
      var s := ToHex(b);
      HexRoundTrip(b[..k]);
      assert s[..|s| - 2] == ToHex(b[..k]);
      FromHexSnoc(s);
      assert b == b[..k] + [b[k]];
    }
  }

  /** n has at most k hexadecimal digits exactly when n < 16^k. */
  lemma {:induction false} HexLength(n: nat, k: nat)
    requires k >= 1
    ensures |NatToHex(n)| <= k <==> n < Pow(16, k)
  {
    if n < 16 {
      PowMono(16, 1, k);
    } else if k == 1 {
      assert Pow(16, 1) == 16;
    } else {
      HexLength(n / 16, k - 1);
      DivBelow(n, 16, Pow(16, k - 1));
    }
  }

  lemma {:induction false} DivBelow(n: nat, d: nat, p: nat)
    requires d > 0
    ensures n / d < p <==> n < d * p
  {
    assert n == d * (n / d) + n % d;
    if n / d < p { MulMono(n / d + 1, p, d); } else { MulMono(p, n / d, d); }
  }
}
