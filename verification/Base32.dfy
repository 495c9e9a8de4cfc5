/** Base32 without padding (section 6 of RFC 4648; base32Encode and base32Decode in
    backend/src/auth/crypto.ts). JavaScript's bitwise operators work on 32 bits: the
    accumulator is an integer modulo 2^32 that is never masked down to its live bits. */
module Base32 {
  import opened Modular
  import opened Wrappers
  import opened Hex

  const ALPHABET := "ABCDEFGHIJKLMNOPQRSTUVWXYZ234567"

  // ------------------------------------------------------------ bits as data

  type bit = b: int | 0 <= b < 2

  /** The number a string of bits spells, most significant first. */
  function Val(s: seq<bit>): nat
  {
    if s == [] then 0 else 2 * Val(s[..|s| - 1]) + s[|s| - 1]
  }

  /** The n low bits of a number. */
  function BitsOf(v: nat, n: nat): (s: seq<bit>)
    ensures |s| == n
  {
    if n == 0 then [] else BitsOf(v / 2, n - 1) + [v % 2]
  }

  lemma {:induction false} ValOfBits(v: nat, n: nat)
    requires v < Pow(2, n)
    ensures Val(BitsOf(v, n)) == v
  {
    if n > 0 {
      ValOfBits(v / 2, n - 1);
      var s := BitsOf(v, n);
      assert s[..n - 1] == BitsOf(v / 2, n - 1);
    }
  }

  lemma {:induction false} BitsOfVal(s: seq<bit>)
    ensures BitsOf(Val(s), |s|) == s
  {
    if s != [] {
      var k := |s| - 1;
      BitsOfVal(s[..k]);
      assert Val(s) / 2 == Val(s[..k]) && Val(s) % 2 == s[k];
      assert s == s[..k] + [s[k]];
    }
  }

  lemma {:induction false} ValBound(s: seq<bit>)
    ensures Val(s) < Pow(2, |s|)
  {
    if s != [] { ValBound(s[..|s| - 1]); }
  }

  lemma {:induction false} ValConcat(s: seq<bit>, t: seq<bit>)
    ensures Val(s + t) == Val(s) * Pow(2, |t|) + Val(t)
  {
    if t == [] {
      assert s + t == s;
    } else {
      var k := |t| - 1;
      ValConcat(s, t[..k]);
      assert (s + t)[..|s| + k] == s + t[..k];
      MulAssoc(Val(s), 2, Pow(2, k));
      MulAssoc(2, Val(s), Pow(2, k));
    }
  }

  /** Cutting a string of bits in two. */
  lemma {:induction false} ValSplit(s: seq<bit>, k: nat)
    requires k <= |s|
    ensures Val(s) == Val(s[..k]) * Pow(2, |s| - k) + Val(s[k..])
    ensures Val(s[..k]) < Pow(2, k) && Val(s[k..]) < Pow(2, |s| - k)
  {
    assert s == s[..k] + s[k..];
    ValConcat(s[..k], s[k..]);
    ValBound(s[..k]);
    ValBound(s[k..]);
  }

  function AllBits(buf: seq<byte>): seq<bit>
  {
    if buf == [] then [] else BitsOf(buf[0], 8) + AllBits(buf[1..])
  }

  function DigitBits(digits: seq<nat>): seq<bit>
  {
    if digits == [] then [] else BitsOf(digits[0], 5) + DigitBits(digits[1..])
  }

  function ZeroBits(n: nat): (s: seq<bit>)
    ensures |s| == n
  {
    seq(n, _ => 0)
  }

  /** Five bits at a time, the last group filled up with zeros. */
  function Groups(s: seq<bit>): seq<nat>
    decreases |s|
  {
    if s == [] then []
    else if |s| < 5 then [Val(s + ZeroBits(5 - |s|))]
    else [Val(s[..5])] + Groups(s[5..])
  }

  /** Eight bits at a time, a shorter rest dropped. */
  function Octets(s: seq<bit>): seq<nat>
    decreases |s|
  {
    if |s| < 8 then [] else [Val(s[..8])] + Octets(s[8..])
  }

  // ------------------------------------------------------------------ machine

  /** `(value << n) | low` on 32 bits, for low below 2^n. */
  function ShiftIn(value: nat, n: nat, low: nat): (r: nat)
    ensures r < Pow(2, 32)
  {
    (value * Pow(2, n) + low) % Pow(2, 32)
  }

  /** `(value >>> n) & (2^w - 1)`. */
  function Extract(value: nat, n: nat, w: nat): nat
  {
    (value / Pow(2, n)) % Pow(2, w)
  }

  /** The live bits of the accumulator are its low bits. */
  ghost predicate Holds(value: nat, pending: seq<bit>)
  {
    value % Pow(2, |pending|) == Val(pending)
  }

  lemma {:induction false} ModOfMod(x: nat, m: nat, k: nat)
    requires m > 0 && k > 0
    ensures (x % (m * k)) % m == x % m
  {
    var q := x / (m * k);
    MulAssoc(q, m, k);
    MulAssoc(q, k, m);
    assert x % (m * k) == x + (-(q * k)) * m;
    ModShift(x, -(q * k), m);
  }

  /** Shifting in new low bits appends them to the live bits, wrap-around or not. */
  lemma {:induction false} ShiftInHolds(value: nat, pending: seq<bit>, s: seq<bit>)
    requires Holds(value, pending) && |pending| + |s| <= 32
    ensures Holds(ShiftIn(value, |s|, Val(s)), pending + s)
  {
    var p, n := |pending|, |s|;
    PowAdd(2, p, n);
    PowAdd(2, p + n, 32 - p - n);
    ValConcat(pending, s);
    ValBound(pending);
    ValBound(s);
    ShiftArithmetic(value, Pow(2, p), Val(pending), Pow(2, n), Val(s), Pow(2, 32 - p - n));
  }

  lemma {:induction false} ShiftArithmetic(value: nat, a: nat, v: nat, b: nat, low: nat, k: nat)
    requires a > 0 && b > 0 && k > 0 && value % a == v && low < b
    ensures a * b > 0 && a * b * k > 0
    ensures ((value * b + low) % (a * b * k)) % (a * b) == v * b + low
  {
    var q, x, ab := value / a, value * b + low, a * b;
    MulMono(1, a, b);
    MulMono(1, ab, k);
    ModOfMod(x, ab, k);
    ShiftedValue(q, a, v, b);
    assert value == q * a + v;
    assert x == q * ab + (v * b + low);
    MulMono(v + 1, a, b);
    MulMono(0, v, b);
    ModIs(x, v * b + low, q, ab);
  }

  lemma {:induction false} ShiftedValue(q: int, a: int, v: int, b: int)
    ensures (q * a + v) * b == q * (a * b) + v * b && (v + 1) * b == v * b + b
  {
    MulAssoc(q, a, b);
  }

  /** Extracting the top w of the live bits, whatever lies above them. */
  lemma {:induction false} ExtractHolds(value: nat, pending: seq<bit>, w: nat)
    requires Holds(value, pending) && w <= |pending|
    ensures Extract(value, |pending| - w, w) == Val(pending[..w])
    ensures Holds(value, pending[w..])
  {
    PowAdd(2, w, |pending| - w);
    ValSplit(pending, w);
    ExtractArithmetic(value, Pow(2, w), Pow(2, |pending| - w), Val(pending[..w]), Val(pending[w..]));
  }

  lemma {:induction false} ExtractArithmetic(value: nat, p: nat, r: nat, hi: nat, lo: nat)
    requires p > 0 && r > 0 && hi < p && lo < r && p * r > 0 && value % (p * r) == hi * r + lo
    ensures (value / r) % p == hi && value % r == lo
  {
    var q := value / (p * r);
    MulAssoc(q, p, r);
    assert value == (q * p) * r + hi * r + lo;
    assert (q * p + hi) * r == (q * p) * r + hi * r;
    ModIs(value, lo, q * p + hi, r);
    ModIs(q * p + hi, hi, q, p);
  }

  // ------------------------------------------------------------------ encoder

  function Spell(digits: seq<nat>): (s: string)
    requires forall i :: 0 <= i < |digits| ==> digits[i] < 32
    ensures |s| == |digits|
  {
    seq(|digits|, i requires 0 <= i < |digits| => ALPHABET[digits[i]])
  }

  lemma {:induction false} GroupsBelow32(s: seq<bit>)
    ensures forall i :: 0 <= i < |Groups(s)| ==> Groups(s)[i] < 32
    decreases |s|
  {
    assert Pow(2, 5) == 32;
    if |s| >= 5 {
      GroupsBelow32(s[5..]);
      ValBound(s[..5]);
    } else if s != [] {
      ValBound(s + ZeroBits(5 - |s|));
    }
  }

  /** The digits `base32Encode` writes: the bits of the input in groups of five. */
  method EncodeDigits(buf: seq<byte>) returns (digits: seq<nat>)
    ensures digits == Groups(AllBits(buf))
  {
    var bits, value := 0, 0;
    digits := [];
    ghost var pending: seq<bit> := [];
    var i := 0;
    assert buf[0..] == buf && [] + AllBits(buf) == AllBits(buf) && [] + Groups(AllBits(buf)) == Groups(AllBits(buf));
    while i < |buf|
      invariant 0 <= i <= |buf| && |pending| == bits < 5 && Holds(value, pending)
      invariant Groups(AllBits(buf)) == digits + Groups(pending + AllBits(buf[i..]))
    {
      Byte8(buf[i]);
      ShiftInHolds(value, pending, BitsOf(buf[i], 8));
      NextByte(pending, buf, i);
      value := ShiftIn(value, 8, buf[i]);
      bits := bits + 8;
      pending := pending + BitsOf(buf[i], 8);
      i := i + 1;
      while bits >= 5
        invariant |pending| == bits <= 12 && Holds(value, pending)
        invariant Groups(AllBits(buf)) == digits + Groups(pending + AllBits(buf[i..]))
      {
        ExtractHolds(value, pending, 5);
        TakeGroup(digits, pending, AllBits(buf[i..]));
        digits := digits + [Extract(value, bits - 5, 5)];
        bits := bits - 5;
        pending := pending[5..];
      }
    }
    assert buf[i..] == [] && pending + [] == pending;
    if bits > 0 {
      LastGroup(value, pending);
      digits := digits + [ShiftIn(value, 5 - bits, 0) % 32];
    } else {
      assert digits + [] == digits;
    }
  }

  lemma {:induction false} Byte8(b: byte)
    ensures Val(BitsOf(b, 8)) == b
  {
    assert Pow(2, 8) == 256;
    ValOfBits(b, 8);
  }

  lemma {:induction false} NextByte(pending: seq<bit>, buf: seq<byte>, i: nat)
    requires i < |buf|
    ensures pending + AllBits(buf[i..]) == pending + BitsOf(buf[i], 8) + AllBits(buf[i + 1..])
  {
    assert buf[i..][1..] == buf[i + 1..];
  }

  lemma {:induction false} TakeGroup(digits: seq<nat>, pending: seq<bit>, rest: seq<bit>)
    requires |pending| >= 5
    ensures digits + Groups(pending + rest) == digits + [Val(pending[..5])] + Groups(pending[5..] + rest)
  {
    assert (pending + rest)[..5] == pending[..5] && (pending + rest)[5..] == pending[5..] + rest;
  }

  /** The last, shorter group: `(value << (5 - bits)) & 31`. */
  lemma {:induction false} LastGroup(value: nat, pending: seq<bit>)
    requires 0 < |pending| < 5 && Holds(value, pending)
    ensures [ShiftIn(value, 5 - |pending|, 0) % 32] == Groups(pending)
  {
    var z := ZeroBits(5 - |pending|);
    ZeroVal(5 - |pending|);
    ShiftInHolds(value, pending, z);
    assert Pow(2, 5) == 32;
  }

  lemma {:induction false} ZeroVal(n: nat)
    ensures Val(ZeroBits(n)) == 0
  {
    if n > 0 {
      ZeroVal(n - 1);
      assert ZeroBits(n)[..n - 1] == ZeroBits(n - 1);
    }
  }

  // ------------------------------------------------------------------ decoder

  /** `BASE32.indexOf(c)`. */
  function IndexOf(c: char): (r: Option<nat>)
    ensures r.Some? ==> r.value < 32
  {
    if 'A' <= c <= 'Z' then Some(c as int - 'A' as int)
    else if '2' <= c <= '7' then Some(c as int - '2' as int + 26)
    else None
  }

  /** The digits a text carries; every other character is skipped. A trailing run of `=`
      is stripped by the code and would be skipped anyway. */
  function DigitsOf(s: string): seq<nat>
  {
    if s == [] then []
    else
      var d := IndexOf(Upper(s[0]));
      (if d.Some? then [d.value] else []) + DigitsOf(s[1..])
  }

  /** `base32Decode`. */
  method Decode(s: string) returns (out: seq<nat>)
    ensures out == Octets(DigitBits(DigitsOf(s)))
  {
    var bits, value := 0, 0;
    out := [];
    ghost var pending: seq<bit> := [];
    var i := 0;
    ghost var goal := Octets(DigitBits(DigitsOf(s)));
    assert s[0..] == s && [] + DigitBits(DigitsOf(s)) == DigitBits(DigitsOf(s)) && [] + goal == goal;
    while i < |s|
      invariant 0 <= i <= |s| && |pending| == bits < 8 && Holds(value, pending)
      invariant ToGo(goal, out, pending, s[i..])
    {
      var idx := IndexOf(Upper(s[i]));
      NextCharToGo(goal, out, pending, s, i);
      i := i + 1;
      if idx.Some? {
        ShiftDigit(value, pending, idx.value);
        value := ShiftIn(value, 5, idx.value);
        bits := bits + 5;
        pending := pending + BitsOf(idx.value, 5);
        if bits >= 8 {
          ExtractHolds(value, pending, 8);
          TakeOctet(out, pending, DigitBits(DigitsOf(s[i..])));
          out := out + [Extract(value, bits - 8, 8)];
          bits := bits - 8;
          pending := pending[8..];
        }
      }
    }
    assert s[i..] == [] && pending + [] == pending && out + [] == out;
  }

  /** What has been written and what is still to come make up the goal. */
  ghost predicate ToGo(goal: seq<nat>, out: seq<nat>, pending: seq<bit>, rest: string)
  {
    goal == out + Octets(pending + DigitBits(DigitsOf(rest)))
  }

  lemma {:induction false} NextCharToGo(goal: seq<nat>, out: seq<nat>, pending: seq<bit>, s: string, i: nat)
    requires i < |s| && ToGo(goal, out, pending, s[i..])
    ensures var idx := IndexOf(Upper(s[i]));
      ToGo(goal, out, if idx.Some? then pending + BitsOf(idx.value, 5) else pending, s[i + 1..])
  {
    NextChar(pending, s, i);
  }

  lemma {:induction false} Digit5(d: nat)
    requires d < 32
    ensures Val(BitsOf(d, 5)) == d
  {
    assert Pow(2, 5) == 32;
    ValOfBits(d, 5);
  }

  lemma {:induction false} ShiftDigit(value: nat, pending: seq<bit>, d: nat)
    requires Holds(value, pending) && |pending| < 8 && d < 32
    ensures Holds(ShiftIn(value, 5, d), pending + BitsOf(d, 5))
  {
    Digit5(d);
    ShiftInHolds(value, pending, BitsOf(d, 5));
  }

  lemma {:induction false} NextChar(pending: seq<bit>, s: string, i: nat)
    requires i < |s|
    ensures var idx, rest := IndexOf(Upper(s[i])), DigitBits(DigitsOf(s[i + 1..]));
      pending + DigitBits(DigitsOf(s[i..])) == if idx.Some? then pending + BitsOf(idx.value, 5) + rest
        else pending + rest
  {
    assert s[i..][1..] == s[i + 1..];
    var idx, rest := IndexOf(Upper(s[i])), DigitsOf(s[i + 1..]);
    if idx.Some? {
      assert ([idx.value] + rest)[1..] == rest;
    } else {
      assert [] + rest == rest;
    }
  }

  lemma {:induction false} TakeOctet(out: seq<nat>, pending: seq<bit>, rest: seq<bit>)
    requires |pending| >= 8
    ensures out + Octets(pending + rest) == out + [Val(pending[..8])] + Octets(pending[8..] + rest)
  {
    assert (pending + rest)[..8] == pending[..8] && (pending + rest)[8..] == pending[8..] + rest;
  }

  // --------------------------------------------------------------- round trip

  lemma {:induction false} DigitBack(d: nat)
    requires d < 32
    ensures IndexOf(Upper(ALPHABET[d])) == Some(d)
  {
    if d < 26 {
      assert ALPHABET[d] == 'A' + d as char;
    } else {
      assert ALPHABET[d] == '2' + (d - 26) as char;
    }
  }

  lemma {:induction false} SpellBack(digits: seq<nat>)
    requires forall i :: 0 <= i < |digits| ==> digits[i] < 32
    ensures DigitsOf(Spell(digits)) == digits
  {
    if digits != [] {
      DigitBack(digits[0]);
      SpellBack(digits[1..]);
      assert Spell(digits)[1..] == Spell(digits[1..]);
    }
  }

  /** The groups spell the bits again, plus fewer than five zeros. */
  lemma {:induction false} GroupsBack(s: seq<bit>) returns (n: nat)
    ensures n < 5 && DigitBits(Groups(s)) == s + ZeroBits(n)
    decreases |s|
  {
    if s == [] {
      n := 0;
    } else if |s| < 5 {
      n := 5 - |s|;
      var t := s + ZeroBits(n);
      BitsOfVal(t);
      assert [Val(t)][1..] == [];
    } else {
      n := GroupsBack(s[5..]);
      BitsOfVal(s[..5]);
      assert Groups(s)[1..] == Groups(s[5..]);
      assert s[..5] + (s[5..] + ZeroBits(n)) == s + ZeroBits(n);
    }
  }

  lemma {:induction false} OctetsBack(buf: seq<byte>, tail: seq<bit>)
    requires |tail| < 8
    ensures Octets(AllBits(buf) + tail) == buf
  {
    if buf != [] {
      var s := AllBits(buf) + tail;
      OctetsBack(buf[1..], tail);
      Byte8(buf[0]);
      assert s[..8] == BitsOf(buf[0], 8) && s[8..] == AllBits(buf[1..]) + tail;
      assert buf == [buf[0]] + buf[1..];
    }
  }

  function EncodeSpec(buf: seq<byte>): string
  {
    GroupsBelow32(AllBits(buf));
    Spell(Groups(AllBits(buf)))
  }

  /** `base32Encode`. */
  method Encode(buf: seq<byte>) returns (out: string)
    ensures out == EncodeSpec(buf)
  {
    var digits := EncodeDigits(buf);
    GroupsBelow32(AllBits(buf));
    out := Spell(digits);
  }

  /** Decoding an encoding gives the bytes back, for byte strings of any length. */
  lemma {:induction false} RoundTrip(buf: seq<byte>)
    ensures Octets(DigitBits(DigitsOf(EncodeSpec(buf)))) == buf
  {
    GroupsBelow32(AllBits(buf));
    SpellBack(Groups(AllBits(buf)));
    var n := GroupsBack(AllBits(buf));
    OctetsBack(buf, ZeroBits(n));
  }

  method EncodeThenDecode(buf: seq<byte>) returns (back: seq<nat>)
    ensures back == buf
  {
    var text := Encode(buf);
    RoundTrip(buf);
    back := Decode(text);
  }
}
