/** Recursive Length Prefix encoding (backend/src/chains/evm/rlp.ts) and, as its
    reference, the strict decoder of the Ethereum Yellow Paper, Appendix B. */
module Rlp {
  import opened Wrappers
  import opened Hex

  datatype RlpInput = Bytes(bytes: seq<byte>) | Number(n: int) | List(items: seq<RlpInput>)

  /** Byte lengths the format can carry: below 2^64. */
  const LENGTH_LIMIT := 0x1_0000_0000_0000_0000

  // ----------------------------------------------------------------- encoder

  /** `toMinimalBytes`: by way of the hexadecimal spelling, padded to even length. */
  function ToMinimalBytes(n: nat): (b: seq<byte>)
    ensures BigEndian(b) == n && Minimal(b)
  {
    if n == 0 then []
    else
      var hex := NatToHex(n);
      EvenHex(hex);
      FromHex(if |hex| % 2 == 1 then "0" + hex else hex)
  }

  lemma {:induction false} EvenHex(hex: string)
    requires IsHex(hex) && hex != [] && hex[0] != '0'
    ensures var even := if |hex| % 2 == 1 then "0" + hex else hex;
      && IsHex(even) && |even| % 2 == 0
      && BigEndian(FromHex(even)) == HexToNat(hex) && FromHex(even)[0] != 0
  {
    assert HexValue(hex[0]) != 0;
    if |hex| % 2 == 1 {
      HexPadded(1, hex);
      assert Zeros(1) == "0";
      HexValueOfBytes("0" + hex);
    } else {
      HexValueOfBytes(hex);
    }
  }

  lemma {:induction false} MinimalLength(n: nat, k: nat)
    ensures |ToMinimalBytes(n)| <= k <==> n < Pow(256, k)
  {
    var b := ToMinimalBytes(n);
    BigEndianBound(b);
    if |b| <= k {
      PowMono(256, |b|, k);
    } else {
      LeadingByte(b);
      PowMono(256, k, |b| - 1);
    }
  }

  function AsByte(n: nat): byte { n % 256 }

  /** `encodeLength`; `Uint8Array.of` keeps the low eight bits. */
  function EncodeLength(len: nat, offset: nat): (r: seq<byte>)
    ensures |r| >= 1
  {
    if len < 56 then [AsByte(offset + len)]
    else
      var lenBytes := ToMinimalBytes(len);
      [AsByte(offset + 55 + |lenBytes|)] + lenBytes
  }

  function EncodeBytes(b: seq<byte>): (r: seq<byte>)
    ensures |r| >= 1 && |r| >= |b|
  {
    if |b| == 1 && b[0] < 0x80 then b else EncodeLength(|b|, 0x80) + b
  }

  /** `rlpEncode`; None is the exception thrown on a negative integer. */
  function RlpEncode(x: RlpInput): (r: Option<seq<byte>>)
    ensures r.Some? ==> |r.value| >= 1
    decreases x, 1
  {
    match x
    case Bytes(b) => Some(EncodeBytes(b))
    case Number(n) => if n < 0 then None else Some(EncodeBytes(ToMinimalBytes(n)))
    case List(items) =>
      var payload := EncodeAll(items);
      if payload.None? then None
      else Some(EncodeLength(|payload.value|, 0xc0) + payload.value)
  }

  function EncodeAll(items: seq<RlpInput>): (r: Option<seq<byte>>)
    decreases items, 0
  {
    if items == [] then Some([])
    else
      var first := RlpEncode(items[0]);
      var rest := EncodeAll(items[1..]);
      if first.None? || rest.None? then None else Some(first.value + rest.value)
  }

  // ----------------------------------------------------------------- decoder

  /** What the encoding remembers of an input: integers become byte strings. */
  function Canon(x: RlpInput): RlpInput
    decreases x, 1
  {
    match x
    case Bytes(b) => x
    case Number(n) => Bytes(ToMinimalBytes(if n < 0 then 0 else n))
    case List(items) => List(CanonAll(items))
  }

  function CanonAll(items: seq<RlpInput>): (r: seq<RlpInput>)
    ensures |r| == |items|
    ensures forall i :: 0 <= i < |items| ==> r[i] == Canon(items[i])
    decreases items, 0
  {
    if items == [] then [] else [Canon(items[0])] + CanonAll(items[1..])
  }

  /** The header length and the payload length announced by b. */
  function ReadLength(b: seq<byte>, offset: nat): (r: Option<(nat, nat)>)
    requires b != [] && offset <= b[0]
    ensures r.Some? ==> 1 <= r.value.0 <= |b|
  {
    var tag := b[0] - offset;
    if tag < 56 then Some((1, tag))
    else
      var n := tag - 55;
      if |b| < 1 + n || b[1] == 0 || BigEndian(b[1..1 + n]) < 56 then None
      else Some((1 + n, BigEndian(b[1..1 + n])))
  }

  /** One item off the front of b, and what follows it. */
  function DecodeItem(b: seq<byte>): (r: Option<(RlpInput, seq<byte>)>)
    ensures r.Some? ==> |r.value.1| < |b|
    decreases |b|, 0
  {
    if b == [] then None
    else if b[0] < 0x80 then Some((Bytes(b[..1]), b[1..]))
    else
      var isList := b[0] >= 0xc0;
      var header := ReadLength(b, if isList then 0xc0 else 0x80);
      if header.None? || |b| - header.value.0 < header.value.1 then None
      else
        var start, end := header.value.0, header.value.0 + header.value.1;
        var payload, rest := b[start..end], b[end..];
        if isList then
          var items := DecodeItems(payload);
          if items.None? then None else Some((List(items.value), rest))
        else if |payload| == 1 && payload[0] < 0x80 then None
        else Some((Bytes(payload), rest))
  }

  function DecodeItems(b: seq<byte>): (r: Option<seq<RlpInput>>)
    decreases |b|, 1
  {
    if b == [] then Some([])
    else
      var first := DecodeItem(b);
      if first.None? then None
      else
        var rest := DecodeItems(first.value.1);
        if rest.None? then None else Some([first.value.0] + rest.value)
  }

  // -------------------------------------------------------------- round trip

  lemma {:induction false} LengthLimitIsPow()
    ensures LENGTH_LIMIT == Pow(256, 8)
  {
    assert Pow(256, 2) == 0x1_0000;
    assert Pow(256, 4) == 0x1_0000_0000;
    assert Pow(256, 6) == 0x1_0000_0000_0000;
  }

  lemma {:induction false} LengthRoundTrip(len: nat, offset: nat, rest: seq<byte>)
    requires len < LENGTH_LIMIT && offset in {0x80, 0xc0}
    ensures var h := EncodeLength(len, offset);
      && offset <= h[0] < offset + 64
      && ReadLength(h + rest, offset) == Some((|h|, len))
  {
    if len < 56 {
      assert AsByte(offset + len) == offset + len;
    } else {
      LongLength(len);
      LongLengthRead(ToMinimalBytes(len), offset, rest);
    }
  }

  lemma {:induction false} LongLengthRead(lenBytes: seq<byte>, offset: nat, rest: seq<byte>)
    requires 1 <= |lenBytes| <= 8 && Minimal(lenBytes) && BigEndian(lenBytes) >= 56 && offset in {0x80, 0xc0}
    ensures var h := [AsByte(offset + 55 + |lenBytes|)] + lenBytes;
      && offset <= h[0] < offset + 64
      && ReadLength(h + rest, offset) == Some((|h|, BigEndian(lenBytes)))
  {
    assert AsByte(offset + 55 + |lenBytes|) == offset + 55 + |lenBytes|;
    var h := [AsByte(offset + 55 + |lenBytes|)] + lenBytes;
    assert (h + rest)[1..1 + |lenBytes|] == lenBytes;
  }

  lemma {:induction false} LongLength(len: nat)
    requires 56 <= len < LENGTH_LIMIT
    ensures 1 <= |ToMinimalBytes(len)| <= 8
  {
    LengthLimitIsPow();
    MinimalLength(len, 8);
  }

  lemma {:induction false} BytesRoundTrip(b: seq<byte>, rest: seq<byte>)
    requires |b| < LENGTH_LIMIT
    ensures DecodeItem(EncodeBytes(b) + rest) == Some((Bytes(b), rest))
  {
    var e := EncodeBytes(b) + rest;
    if |b| == 1 && b[0] < 0x80 {
      assert e[..1] == b && e[1..] == rest;
    } else {
      var h := EncodeLength(|b|, 0x80);
      LengthRoundTrip(|b|, 0x80, b + rest);
      assert e == h + (b + rest);
      assert e[|h|..|h| + |b|] == b && e[|h| + |b|..] == rest;
    }
  }

  /** Decoding undoes encoding, whatever follows: RLP is uniquely decodable. */
  lemma {:induction false} RoundTrip(x: RlpInput, rest: seq<byte>)
    requires RlpEncode(x).Some? && |RlpEncode(x).value| < LENGTH_LIMIT
    ensures DecodeItem(RlpEncode(x).value + rest) == Some((Canon(x), rest))
    decreases x, 1
  {
    match x
    case Bytes(b) => BytesRoundTrip(b, rest);
    case Number(n) => BytesRoundTrip(ToMinimalBytes(n), rest);
    case List(items) =>
      var payload := EncodeAll(items).value;
      var h := EncodeLength(|payload|, 0xc0);
      var e := RlpEncode(x).value + rest;
      LengthRoundTrip(|payload|, 0xc0, payload + rest);
      ItemsRoundTrip(items);
      assert e == h + (payload + rest);
      assert e[|h|..|h| + |payload|] == payload && e[|h| + |payload|..] == rest;
  }

  lemma {:induction false} ItemsRoundTrip(items: seq<RlpInput>)
    requires EncodeAll(items).Some? && |EncodeAll(items).value| < LENGTH_LIMIT
    ensures DecodeItems(EncodeAll(items).value) == Some(CanonAll(items))
    decreases items, 0
  {
    if items != [] {
      var first, rest := RlpEncode(items[0]).value, EncodeAll(items[1..]).value;
      RoundTrip(items[0], rest);
      ItemsRoundTrip(items[1..]);
    }
  }

  /** Encodings are injective up to the spelling of integers, and no encoding is a
      proper prefix of another. */
  lemma {:induction false} UniquelyDecodable(x: RlpInput, y: RlpInput, s: seq<byte>, t: seq<byte>)
    requires RlpEncode(x).Some? && |RlpEncode(x).value| < LENGTH_LIMIT
    requires RlpEncode(y).Some? && |RlpEncode(y).value| < LENGTH_LIMIT
    requires RlpEncode(x).value + s == RlpEncode(y).value + t
    ensures Canon(x) == Canon(y) && s == t && RlpEncode(x) == RlpEncode(y)
  {
    RoundTrip(x, s);
    RoundTrip(y, t);
    var a, b := RlpEncode(x).value, RlpEncode(y).value;
    assert |a| == |b| by { assert |a + s| == |b + t|; }
    assert (a + s)[..|a|] == a && (b + t)[..|b|] == b;
  }

  lemma {:induction false} ReadLengthCanonical(b: seq<byte>, offset: nat)
    requires b != [] && offset <= b[0] < offset + 64 && ReadLength(b, offset).Some?
    ensures var header := ReadLength(b, offset).value;
      b[..header.0] == EncodeLength(header.1, offset)
  {
    var tag := b[0] - offset;
    if tag < 56 {
      assert b[..1] == [AsByte(offset + tag)];
    } else {
      LongHeader(b, offset, b[1..1 + (tag - 55)]);
    }
  }

  lemma {:induction false} LongHeader(b: seq<byte>, offset: nat, lenBytes: seq<byte>)
    requires |lenBytes| < |b| && b[1..1 + |lenBytes|] == lenBytes && b[0] == offset + 55 + |lenBytes|
    requires Minimal(lenBytes) && BigEndian(lenBytes) >= 56
    ensures b[..1 + |lenBytes|] == EncodeLength(BigEndian(lenBytes), offset)
  {
    var len, n := BigEndian(lenBytes), |lenBytes|;
    MinimalSpelling(lenBytes);
    assert EncodeLength(len, offset) == [AsByte(offset + 55 + n)] + lenBytes;
    assert b[..1 + n] == [b[0]] + lenBytes;
    assert AsByte(b[0]) == b[0];
  }

  lemma {:induction false} MinimalSpelling(b: seq<byte>)
    requires Minimal(b)
    ensures ToMinimalBytes(BigEndian(b)) == b
  {
    MinimalUnique(b, ToMinimalBytes(BigEndian(b)));
  }

  /** The decoder accepts nothing but encodings. */
  lemma {:induction false} DecodedIsEncoded(b: seq<byte>)
    requires DecodeItem(b).Some?
    ensures var (x, rest) := DecodeItem(b).value;
      RlpEncode(x).Some? && b == RlpEncode(x).value + rest
    decreases |b|, 0
  {
    if b[0] < 0x80 {
      assert b == b[..1] + b[1..];
    } else if b[0] < 0xc0 {
      var (n, len) := ReadLength(b, 0x80).value;
      ReadLengthCanonical(b, 0x80);
      SplitAt(b, n, n + len);
    } else {
      var (n, len) := ReadLength(b, 0xc0).value;
      ReadLengthCanonical(b, 0xc0);
      SplitAt(b, n, n + len);
      DecodedAreEncoded(b[n..n + len]);
    }
  }

  lemma {:induction false} SplitAt(b: seq<byte>, i: nat, j: nat)
    requires i <= j <= |b|
    ensures b == b[..i] + b[i..j] + b[j..]
  {
  }

  lemma {:induction false} DecodedAreEncoded(b: seq<byte>)
    requires DecodeItems(b).Some?
    ensures EncodeAll(DecodeItems(b).value) == Some(b)
    decreases |b|, 1
  {
    if b != [] {
      var (x, rest) := DecodeItem(b).value;
      DecodedIsEncoded(b);
      DecodedAreEncoded(rest);
      var items := DecodeItems(b).value;
      assert items[0] == x && items[1..] == DecodeItems(rest).value;
    }
  }

  /** Encoding fails exactly on an input that holds a negative integer. */
  predicate NonNegative(x: RlpInput)
  {
    match x
    case Bytes(b) => true
    case Number(n) => n >= 0
    case List(items) => forall i :: 0 <= i < |items| ==> NonNegative(items[i])
  }

  lemma {:induction false} EncodableExactly(x: RlpInput)
    ensures RlpEncode(x).Some? <==> NonNegative(x)
    decreases x, 1
  {
    if x.List? { AllEncodableExactly(x.items); }
  }

  lemma {:induction false} AllEncodableExactly(items: seq<RlpInput>)
    ensures EncodeAll(items).Some? <==> forall i :: 0 <= i < |items| ==> NonNegative(items[i])
    decreases items, 0
  {
    if items != [] {
      EncodableExactly(items[0]);
      AllEncodableExactly(items[1..]);
      assert forall i :: 1 <= i < |items| ==> items[i] == items[1..][i - 1];
    }
  }
}
