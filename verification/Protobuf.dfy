/** The protobuf reader that guards Tron signing (readFields of
    backend/src/chains/tron/tron-tx-verify.ts) against the canonical writer of the
    Protocol Buffers encoding specification ("Base 128 Varints", "Length-Delimited
    Records"). */
module Protobuf {
  import opened Modular
  import opened Wrappers
  import opened Hex

  datatype Field = Field(no: nat, wire: nat, bytes: Option<seq<byte>>, value: Option<nat>)

  datatype ProtoError = TruncatedVarint | OverlongVarint | TruncatedField | UnsupportedWire

  // ------------------------------------------------------------------ reader

  /** A varint whose first byte is the k-th of its group, and what follows it. The
      reader gives up once the next shift would exceed 70 bits. */
  function TakeVarint(b: seq<byte>, k: nat): (r: Result<(nat, seq<byte>), ProtoError>)
    ensures r.Success? ==> |r.value.1| < |b|
  {
    if b == [] then Failure(TruncatedVarint)
    else if b[0] < 128 then Success((b[0], b[1..]))
    else if 7 * (k + 1) > 70 then Failure(OverlongVarint)
    else
      var rest := TakeVarint(b[1..], k + 1);
      if rest.Failure? then rest
      else Success((b[0] % 128 + 128 * rest.value.0, rest.value.1))
  }

  /** One field and what follows it. Fixed-width fields are skipped without a check
      that their bytes are there. */
  function TakeField(b: seq<byte>): (r: Result<(Field, seq<byte>), ProtoError>)
    ensures r.Success? ==> |r.value.1| < |b|
  {
    var key := TakeVarint(b, 0);
    if key.Failure? then Failure(key.error)
    else
      var no, wire, rest := key.value.0 / 8, key.value.0 % 8, key.value.1;
      if wire == 0 then
        var v := TakeVarint(rest, 0);
        if v.Failure? then Failure(v.error) else Success((Field(no, wire, None, Some(v.value.0)), v.value.1))
      else if wire == 2 then
        var len := TakeVarint(rest, 0);
        if len.Failure? then Failure(len.error)
        else if len.value.0 > |len.value.1| then Failure(TruncatedField)
        else Success((Field(no, wire, Some(len.value.1[..len.value.0]), None), len.value.1[len.value.0..]))
      else if wire == 5 then Success((Field(no, wire, None, None), Skip(rest, 4)))
      else if wire == 1 then Success((Field(no, wire, None, None), Skip(rest, 8)))
      else Failure(UnsupportedWire)
  }

  function Skip(b: seq<byte>, n: nat): (r: seq<byte>)
    ensures |r| <= |b|
  {
    if |b| <= n then [] else b[n..]
  }

  function TakeFields(b: seq<byte>): (r: Result<seq<Field>, ProtoError>)
    decreases |b|
  {
    if b == [] then Success([])
    else
      var first := TakeField(b);
      if first.Failure? then Failure(first.error) else Prepend([first.value.0], TakeFields(first.value.1))
  }

  function Prepend(fields: seq<Field>, r: Result<seq<Field>, ProtoError>): Result<seq<Field>, ProtoError>
  {
    if r.Failure? then r else Success(fields + r.value)
  }

  lemma {:induction false} PrependNothing(r: Result<seq<Field>, ProtoError>)
    ensures Prepend([], r) == r
  {
    if r.Success? { assert [] + r.value == r.value; }
  }

  lemma {:induction false} PrependTwice(fields: seq<Field>, f: Field, r: Result<seq<Field>, ProtoError>)
    ensures Prepend(fields, Prepend([f], r)) == Prepend(fields + [f], r)
  {
    if r.Success? { assert fields + ([f] + r.value) == fields + [f] + r.value; }
  }

  /** The `varint` closure: i is the shared read position. `result |= bits << shift`
      adds, because result is below 2^shift. */
  method ReadVarint(buf: seq<byte>, i: nat) returns (r: Result<nat, ProtoError>, next: nat)
    requires i <= |buf|
    ensures next <= |buf|
    ensures match TakeVarint(buf[i..], 0)
      case Failure(e) => r == Failure(e)
      case Success(v) => r == Success(v.0) && buf[next..] == v.1
  {
    var result: nat, shift: nat, k: nat := 0, 1, 0;
    next := i;
    ghost var goal := TakeVarint(buf[i..], 0);
    while true
      invariant i <= next <= |buf| && 7 * k <= 70 && shift > 0 && result < shift
      invariant goal == Extend(result, shift, TakeVarint(buf[next..], k))
      decreases |buf| - next
    {
      if next >= |buf| {
        assert buf[next..] == [];
        return Failure(TruncatedVarint), next;
      }
      var b := buf[next];
      ExtendStep(result, shift, buf[next..], k);
      assert buf[next..][1..] == buf[next + 1..];
      next := next + 1;
      result := result + (b % 128) * shift;
      if b < 128 {
        return Success(result), next;
      }
      if 7 * (k + 1) > 70 {
        return Failure(OverlongVarint), next;
      }
      k := k + 1;
      shift := 128 * shift;
    }
  }

  /** The reading that remains, seen through the bits already collected. */
  ghost function Extend(result: nat, shift: nat, rest: Result<(nat, seq<byte>), ProtoError>)
    : Result<(nat, seq<byte>), ProtoError>
  {
    if rest.Failure? then rest else Success((result + shift * rest.value.0, rest.value.1))
  }

  lemma {:induction false} ExtendStep(result: nat, shift: nat, b: seq<byte>, k: nat)
    requires result < shift && b != []
    ensures 0 <= (b[0] % 128) * shift && result + (b[0] % 128) * shift < 128 * shift
    ensures b[0] < 128 ==>
      Extend(result, shift, TakeVarint(b, k)) == Success((result + (b[0] % 128) * shift, b[1..]))
    ensures b[0] >= 128 && 7 * (k + 1) <= 70 ==>
      Extend(result, shift, TakeVarint(b, k))
        == Extend(result + (b[0] % 128) * shift, 128 * shift, TakeVarint(b[1..], k + 1))
  {
    DigitBound(result, shift, b[0] % 128);
    if b[0] >= 128 && 7 * (k + 1) <= 70 { ExtendMore(result, shift, b[0] % 128, TakeVarint(b[1..], k + 1)); }
  }

  lemma {:induction false} DigitBound(result: nat, shift: nat, digit: nat)
    requires result < shift && digit < 128
    ensures 0 <= digit * shift && result + digit * shift < 128 * shift
  {
    MulMono(digit, 127, shift);
    MulMono(0, digit, shift);
  }

  lemma {:induction false} ExtendMore(result: nat, shift: nat, digit: nat,
                                      rest: Result<(nat, seq<byte>), ProtoError>)
    requires digit * shift >= 0
    ensures Extend(result, shift, if rest.Failure? then rest else Success((digit + 128 * rest.value.0, rest.value.1)))
      == Extend(result + digit * shift, 128 * shift, rest)
  {
    if rest.Success? { ShiftedSum(shift, digit, rest.value.0); }
  }

  lemma {:induction false} ShiftedSum(shift: int, digit: int, rest: int)
    ensures shift * (digit + 128 * rest) == digit * shift + (128 * shift) * rest
  {
    MulAssoc(shift, 128, rest);
  }

  /** `readFields`. */
  method ReadFields(buf: seq<byte>) returns (r: Result<seq<Field>, ProtoError>)
    ensures r == TakeFields(buf)
  {
    var out: seq<Field> := [];
    var i := 0;
    assert buf[0..] == buf;
    PrependNothing(TakeFields(buf));
    while i < |buf|
      invariant 0 <= i <= |buf|
      invariant TakeFields(buf) == Prepend(out, TakeFields(buf[i..]))
      decreases |buf| - i
    {
      var f, next := ReadField(buf, i);
      if f.Failure? {
        return Failure(f.error);
      }
      PrependTwice(out, f.value, TakeFields(buf[next..]));
      out := out + [f.value];
      i := next;
    }
    assert buf[i..] == [] && out + [] == out;
    return Success(out);
  }

  /** The loop body: the key, and what its wire type asks for. Past the end of the buffer the
      loop stops, so the position is cut off there. */
  method ReadField(buf: seq<byte>, i: nat) returns (r: Result<Field, ProtoError>, next: nat)
    requires i < |buf|
    ensures next <= |buf|
    ensures match TakeField(buf[i..])
      case Failure(e) => r == Failure(e)
      case Success(v) => r == Success(v.0) && buf[next..] == v.1 && next > i
  {
    var key, j := ReadVarint(buf, i);
    if key.Failure? {
      return Failure(key.error), j;
    }
    var no, wire := key.value / 8, key.value % 8;
    if wire == 0 {
      var v, k := ReadVarint(buf, j);
      if v.Failure? {
        return Failure(v.error), k;
      }
      return Success(Field(no, wire, None, Some(v.value))), k;
    } else if wire == 2 {
      var len, k := ReadVarint(buf, j);
      if len.Failure? {
        return Failure(len.error), k;
      }
      if k + len.value > |buf| {
        return Failure(TruncatedField), k;
      }
      assert buf[k..][..len.value] == buf[k..k + len.value];
      assert buf[k..][len.value..] == buf[k + len.value..];
      return Success(Field(no, wire, Some(buf[k..k + len.value]), None)), k + len.value;
    } else if wire == 5 || wire == 1 {
      var k := j + if wire == 5 then 4 else 8;
      assert Skip(buf[j..], if wire == 5 then 4 else 8) == if k <= |buf| then buf[k..] else [];
      return Success(Field(no, wire, None, None)), if k <= |buf| then k else |buf|;
    }
    return Failure(UnsupportedWire), j;
  }

  // ------------------------------------------------------------------ writer

  function WriteVarint(n: nat): (b: seq<byte>)
    ensures |b| >= 1
  {
    if n < 128 then [n] else [128 + n % 128] + WriteVarint(n / 128)
  }

  function VarintField(no: nat, value: nat): Field { Field(no, 0, None, Some(value)) }

  function BytesField(no: nat, bytes: seq<byte>): Field { Field(no, 2, Some(bytes), None) }

  /** The largest group the reader takes is eleven bytes: values below 2^77. */
  const VARINT_LIMIT: nat := 0x2000_0000_0000_0000_0000

  lemma {:induction false} VarintLimitIsPow()
    ensures VARINT_LIMIT == Pow(128, 11)
  {
    assert Pow(128, 3) == 0x20_0000;
    PowAdd(128, 3, 3);
    PowAdd(128, 6, 3);
    assert Pow(128, 2) == 0x4000;
    PowAdd(128, 9, 2);
  }

  /** Varint and length-delimited fields whose numbers fit the reader. Every message
      within the protobuf limits (64-bit varints, 29-bit field numbers) is writable. */
  predicate Writable(f: Field)
  {
    && 8 * f.no + 7 < VARINT_LIMIT
    && ((f.wire == 0 && f.bytes == None && f.value.Some? && f.value.value < VARINT_LIMIT)
        || (f.wire == 2 && f.value == None && f.bytes.Some? && |f.bytes.value| < VARINT_LIMIT))
  }

  function WriteField(f: Field): (b: seq<byte>)
    ensures |b| >= 1
  {
    if f.value.Some? then WriteVarint(8 * f.no) + WriteVarint(f.value.value)
    else
      var payload := if f.bytes.Some? then f.bytes.value else [];
      WriteVarint(8 * f.no + 2) + WriteVarint(|payload|) + payload
  }

  predicate AllWritable(fields: seq<Field>)
  {
    forall i :: 0 <= i < |fields| ==> Writable(fields[i])
  }

  function WriteFields(fields: seq<Field>): (b: seq<byte>)
    ensures fields != [] ==> b != []
  {
    if fields == [] then [] else WriteField(fields[0]) + WriteFields(fields[1..])
  }

  // -------------------------------------------------------------- round trip

  lemma {:induction false} VarintLength(n: nat, k: nat)
    requires k >= 1
    ensures |WriteVarint(n)| <= k <==> n < Pow(128, k)
  {
    if n < 128 {
      PowMono(128, 1, k);
    } else if k == 1 {
      assert Pow(128, 1) == 128;
    } else {
      VarintLength(n / 128, k - 1);
      DivBelow(n, 128, Pow(128, k - 1));
    }
  }

  /** A written varint reads back, whatever follows, exactly when it is short enough. */
  lemma {:induction false} VarintTaken(n: nat, rest: seq<byte>, k: nat)
    requires k <= 10
    ensures TakeVarint(WriteVarint(n) + rest, k)
      == if |WriteVarint(n)| + k <= 11 then Success((n, rest)) else Failure(OverlongVarint)
    decreases n
  {
    var b := WriteVarint(n) + rest;
    if n < 128 {
      assert b[1..] == rest;
    } else {
      assert b[1..] == WriteVarint(n / 128) + rest;
      if k < 10 { VarintTaken(n / 128, rest, k + 1); }
    }
  }

  /** The reader inverts the writer exactly on values below 2^77. */
  lemma {:induction false} VarintRoundTrip(n: nat, rest: seq<byte>)
    ensures TakeVarint(WriteVarint(n) + rest, 0)
      == if n < VARINT_LIMIT then Success((n, rest)) else Failure(OverlongVarint)
  {
    VarintTaken(n, rest, 0);
    VarintLength(n, 11);
    VarintLimitIsPow();
  }

  lemma {:induction false} VarintFieldRoundTrip(no: nat, value: nat, rest: seq<byte>)
    requires 8 * no + 7 < VARINT_LIMIT && value < VARINT_LIMIT
    ensures TakeField(WriteVarint(8 * no) + WriteVarint(value) + rest) == Success((VarintField(no, value), rest))
  {
    var v := WriteVarint(value);
    VarintRoundTrip(8 * no, v + rest);
    VarintRoundTrip(value, rest);
    assert WriteVarint(8 * no) + v + rest == WriteVarint(8 * no) + (v + rest);
  }

  lemma {:induction false} BytesFieldRoundTrip(no: nat, p: seq<byte>, rest: seq<byte>)
    requires 8 * no + 7 < VARINT_LIMIT && |p| < VARINT_LIMIT
    ensures TakeField(WriteVarint(8 * no + 2) + WriteVarint(|p|) + p + rest) == Success((BytesField(no, p), rest))
  {
    var tail := WriteVarint(|p|) + (p + rest);
    VarintRoundTrip(8 * no + 2, tail);
    VarintRoundTrip(|p|, p + rest);
    assert WriteVarint(8 * no + 2) + WriteVarint(|p|) + p + rest == WriteVarint(8 * no + 2) + tail;
    assert (8 * no + 2) / 8 == no && (8 * no + 2) % 8 == 2;
    assert (p + rest)[..|p|] == p && (p + rest)[|p|..] == rest;
  }

  lemma {:induction false} FieldRoundTrip(f: Field, rest: seq<byte>)
    requires Writable(f)
    ensures TakeField(WriteField(f) + rest) == Success((f, rest))
  {
    if f.wire == 0 {
      VarintFieldRoundTrip(f.no, f.value.value, rest);
    } else {
      BytesFieldRoundTrip(f.no, f.bytes.value, rest);
    }
  }

  /** `readFields` inverts the canonical writer on every list of fields. */
  lemma {:induction false} FieldsRoundTrip(fields: seq<Field>)
    requires AllWritable(fields)
    ensures TakeFields(WriteFields(fields)) == Success(fields)
    decreases |fields|
  {
    if fields != [] {
      var rest := fields[1..];
      FieldsRoundTrip(rest);
      FieldRoundTrip(fields[0], WriteFields(rest));
      OneMoreField(WriteFields(fields), fields[0], WriteFields(rest), rest);
      assert [fields[0]] + rest == fields;
    }
  }

  lemma {:induction false} OneMoreField(b: seq<byte>, f: Field, tail: seq<byte>, rest: seq<Field>)
    requires b != [] && TakeField(b) == Success((f, tail)) && TakeFields(tail) == Success(rest)
    ensures TakeFields(b) == Success([f] + rest)
  {
  }

  /** Fields of the other wire types: a fixed-width field is skipped with its four or eight
      bytes, or to the end if there are fewer, and carries nothing; any other type is refused. */
  lemma {:induction false} OtherWires(no: nat, wire: nat, payload: seq<byte>, rest: seq<byte>)
    requires 8 * no + 7 < VARINT_LIMIT && wire < 8 && wire != 0 && wire != 2
    requires (wire == 5 && (|payload| == 4 || (|payload| < 4 && rest == [])))
      || (wire == 1 && (|payload| == 8 || (|payload| < 8 && rest == []))) || (wire != 5 && wire != 1)
    ensures TakeFields(WriteVarint(8 * no + wire) + payload + rest)
      == if wire == 5 || wire == 1 then Prepend([Field(no, wire, None, None)], TakeFields(rest))
         else Failure(UnsupportedWire)
  {
    var b := WriteVarint(8 * no + wire) + payload + rest;
    VarintRoundTrip(8 * no + wire, payload + rest);
    assert b == WriteVarint(8 * no + wire) + (payload + rest);
    assert (8 * no + wire) / 8 == no && (8 * no + wire) % 8 == wire;
    assert Skip(payload + rest, |payload|) == rest by { assert (payload + rest)[|payload|..] == rest; }
    assert rest == [] ==> payload + rest == payload;
    SkipsPayload(payload, rest, if wire == 5 then 4 else 8);
  }

  lemma {:induction false} SkipsPayload(payload: seq<byte>, rest: seq<byte>, n: nat)
    ensures |payload| == n || (|payload| < n && rest == []) ==> Skip(payload + rest, n) == rest
  {
    if |payload| == n { assert (payload + rest)[n..] == rest; }
  }
}
