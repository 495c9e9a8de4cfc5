/** EIP-1559 transactions and ERC-20 calldata
    (backend/src/chains/evm/evm-tx.ts, abi.ts and address.ts). Hashes are left out:
    what is modelled is the exact byte string that is hashed or broadcast. */
module EvmTx {
  import opened Wrappers
  import opened Hex
  import opened Rlp

  const TX_TYPE: byte := 0x02

  datatype Eip1559Tx = Eip1559Tx(
    chainId: int, nonce: int, maxPriorityFeePerGas: int, maxFeePerGas: int, gasLimit: int,
    to: string, value: int, data: seq<byte>)

  // --------------------------------------------------------------- addresses

  /** `normalizeHexAddress` followed by the hexadecimal decoding: 20 bytes or an error.
      Case is ignored and one leading 0x is dropped. */
  function AddressBytes(to: string): (r: Option<seq<byte>>)
    ensures r.Some? ==> |r.value| == 20
  {
    var clean := if |to| >= 2 && to[0] == '0' && (to[1] == 'x' || to[1] == 'X') then to[2..] else to;
    if |clean| == 40 && IsHex(clean) then Some(FromHex(clean)) else None
  }

  // ------------------------------------------------------------ transactions

  function Fields(tx: Eip1559Tx): (r: Option<seq<RlpInput>>)
    ensures r.Some? <==> AddressBytes(tx.to).Some?
    ensures r.Some? ==> |r.value| == 9
  {
    var to := AddressBytes(tx.to);
    if to.None? then None
    else Some([
      Number(tx.chainId), Number(tx.nonce), Number(tx.maxPriorityFeePerGas), Number(tx.maxFeePerGas),
      Number(tx.gasLimit), Bytes(to.value), Number(tx.value), Bytes(tx.data), List([])])
  }

  /** The bytes that `signingHash` hashes; None where it throws. */
  function SigningPreimage(tx: Eip1559Tx): Option<seq<byte>>
  {
    var fields := Fields(tx);
    if fields.None? then None
    else
      var body := RlpEncode(List(fields.value));
      if body.None? then None else Some([TX_TYPE] + body.value)
  }

  /** `toBigInt`: by way of the hexadecimal spelling. */
  function ToBigInt(b: seq<byte>): (n: nat)
    ensures n == BigEndian(b)
  {
    HexRoundTrip(b);
    HexValueOfBytes(ToHex(b));
    HexToNat(ToHex(b))
  }

  /** The `raw` field of `serializeSigned`. */
  function SerializeSigned(tx: Eip1559Tx, signature: seq<byte>): Result<string, string>
  {
    if |signature| != 65 then Failure("expected a 65-byte recoverable signature")
    else if Fields(tx).None? then Failure("not a 20-byte hex address")
    else
      var r, s := ToBigInt(signature[..32]), ToBigInt(signature[32..64]);
      var yParity := signature[64];
      var signed := RlpEncode(List(Fields(tx).value + [Number(yParity), Number(r), Number(s)]));
      if signed.None? then Failure("cannot RLP-encode a negative integer")
      else Success("0x" + ToHex([TX_TYPE] + signed.value))
  }

  // ----------------------------------------------------------------- readers

  /** A transaction as a node reads it: the recipient is 20 bytes. */
  datatype TxView = TxView(
    chainId: int, nonce: int, maxPriorityFeePerGas: int, maxFeePerGas: int, gasLimit: int,
    to: seq<byte>, value: int, data: seq<byte>)

  datatype SignedView = SignedView(tx: TxView, yParity: int, r: int, s: int)

  function View(tx: Eip1559Tx): TxView
    requires AddressBytes(tx.to).Some?
  {
    TxView(tx.chainId, tx.nonce, tx.maxPriorityFeePerGas, tx.maxFeePerGas, tx.gasLimit,
           AddressBytes(tx.to).value, tx.value, tx.data)
  }

  function ReadBytes(x: RlpInput): seq<byte> { if x.Bytes? then x.bytes else [] }

  function ReadNumber(x: RlpInput): int { BigEndian(ReadBytes(x)) }

  /** The nine fields of EIP-1559: eight strings, the recipient of 20 bytes, and an access
      list that is the empty list. */
  predicate NineFields(f: seq<RlpInput>)
  {
    && |f| >= 9 && (forall i :: 0 <= i < 8 ==> f[i].Bytes?)
    && |f[5].bytes| == 20 && f[8] == List([])
  }

  function ReadTx(f: seq<RlpInput>): TxView
    requires NineFields(f)
  {
    TxView(ReadNumber(f[0]), ReadNumber(f[1]), ReadNumber(f[2]), ReadNumber(f[3]), ReadNumber(f[4]),
           ReadBytes(f[5]), ReadNumber(f[6]), ReadBytes(f[7]))
  }

  /** Reading a type-2 envelope (EIP-2718) that holds a signed payload of EIP-1559. */
  function DecodeSigned(raw: string): Option<SignedView>
  {
    if |raw| < 4 || raw[..2] != "0x" || !IsHex(raw[2..]) || |raw[2..]| % 2 != 0 then None
    else DecodeEnvelope(FromHex(raw[2..]))
  }

  /** The items of a type-2 envelope: the type byte and one list with nothing after it. */
  function EnvelopeItems(bytes: seq<byte>): Option<seq<RlpInput>>
  {
    if bytes == [] || bytes[0] != 0x02 then None
    else
      var item := DecodeItem(bytes[1..]);
      if item.None? || item.value.1 != [] || !item.value.0.List? then None else Some(item.value.0.items)
  }

  function DecodeEnvelope(bytes: seq<byte>): Option<SignedView>
  {
    var items := EnvelopeItems(bytes);
    if items.None? || |items.value| != 12 || !NineFields(items.value) then None
    else
      var f := items.value;
      Some(SignedView(ReadTx(f), ReadNumber(f[9]), ReadNumber(f[10]), ReadNumber(f[11])))
  }

  /** Reading what is hashed for a signature: the same list without the signature. */
  function DecodePreimage(bytes: seq<byte>): Option<TxView>
  {
    var items := EnvelopeItems(bytes);
    if items.None? || |items.value| != 9 || !NineFields(items.value) then None else Some(ReadTx(items.value))
  }

  // -------------------------------------------------------------- properties

  lemma {:induction false} ReadCanonNumber(n: int)
    requires n >= 0
    ensures ReadNumber(Canon(Number(n))) == n
  {
    assert BigEndian(ToMinimalBytes(n)) == n;
  }

  lemma {:induction false} ReadCanon(f: seq<RlpInput>, i: nat)
    requires i < |f| && NonNegative(f[i])
    ensures f[i].Number? ==> ReadNumber(CanonAll(f)[i]) == f[i].n
    ensures f[i].Bytes? ==> ReadBytes(CanonAll(f)[i]) == f[i].bytes
  {
    if f[i].Number? { ReadCanonNumber(f[i].n); }
  }

  lemma {:induction false} FieldsShape(tx: Eip1559Tx, extra: seq<RlpInput>)
    requires Fields(tx).Some?
    ensures NineFields(CanonAll(Fields(tx).value + extra))
  {
    var f := Fields(tx).value + extra;
    assert f[8] == List([]) && f[5] == Bytes(AddressBytes(tx.to).value);
    assert forall i :: 0 <= i < 8 ==> Canon(f[i]).Bytes?;
  }

  /** Whatever is appended, the fields of a transaction read back as the transaction. */
  lemma {:induction false} FieldsRead(tx: Eip1559Tx, extra: seq<RlpInput>)
    requires Fields(tx).Some? && EncodeAll(Fields(tx).value + extra).Some?
    ensures NineFields(CanonAll(Fields(tx).value + extra))
    ensures ReadTx(CanonAll(Fields(tx).value + extra)) == View(tx)
  {
    var f := Fields(tx).value + extra;
    FieldsShape(tx, extra);
    AllEncodableExactly(f);
    forall i | 0 <= i < 9
      ensures f[i].Number? ==> ReadNumber(CanonAll(f)[i]) == f[i].n
      ensures f[i].Bytes? ==> ReadBytes(CanonAll(f)[i]) == f[i].bytes
    {
      ReadCanon(f, i);
    }
  }

  /** Two transactions with one signing preimage are the same transaction (addresses
      compared as bytes): a signature can never be carried over to a different one. */
  lemma {:induction false} PreimageInjective(a: Eip1559Tx, b: Eip1559Tx)
    requires SigningPreimage(a).Some? && SigningPreimage(a) == SigningPreimage(b)
    requires |SigningPreimage(a).value| <= LENGTH_LIMIT
    ensures View(a) == View(b)
  {
    var f, g := Fields(a).value, Fields(b).value;
    assert RlpEncode(List(f)).value == SigningPreimage(a).value[1..];
    assert RlpEncode(List(g)).value == SigningPreimage(b).value[1..];
    UniquelyDecodable(List(f), List(g), [], []);
    assert f + [] == f && g + [] == g;
    FieldsRead(a, []);
    FieldsRead(b, []);
  }

  /** A broadcast transaction reads back as exactly the transaction and signature that
      went in. */
  lemma {:induction false} SignedRoundTrip(tx: Eip1559Tx, signature: seq<byte>)
    requires SerializeSigned(tx, signature).Success?
    requires |SerializeSigned(tx, signature).value| < LENGTH_LIMIT
    ensures DecodeSigned(SerializeSigned(tx, signature).value) == Some(SignedView(
      View(tx), signature[64], BigEndian(signature[..32]), BigEndian(signature[32..64])))
  {
    var r, s, v := ToBigInt(signature[..32]), ToBigInt(signature[32..64]), signature[64];
    var f := Fields(tx).value + [Number(v), Number(r), Number(s)];
    var bytes := [TX_TYPE] + RlpEncode(List(f)).value;
    var raw := SerializeSigned(tx, signature).value;
    assert raw[2..] == ToHex(bytes) && raw[..2] == "0x";
    HexRoundTrip(bytes);
    EnvelopeRoundTrip(tx, v, r, s);
  }

  lemma {:induction false} EnvelopeRoundTrip(tx: Eip1559Tx, v: nat, r: nat, s: nat)
    requires Fields(tx).Some?
    requires var e := RlpEncode(List(Fields(tx).value + [Number(v), Number(r), Number(s)]));
      e.Some? && |e.value| < LENGTH_LIMIT
    ensures DecodeEnvelope([TX_TYPE] + RlpEncode(List(Fields(tx).value + [Number(v), Number(r), Number(s)])).value)
         == Some(SignedView(View(tx), v, r, s))
  {
    var f := Fields(tx).value + [Number(v), Number(r), Number(s)];
    EnvelopeOfList(f);
    FieldsRead(tx, [Number(v), Number(r), Number(s)]);
    ReadCanon(f, 9);
    ReadCanon(f, 10);
    ReadCanon(f, 11);
  }

  lemma {:induction false} EnvelopeOfList(f: seq<RlpInput>)
    requires RlpEncode(List(f)).Some? && |RlpEncode(List(f)).value| < LENGTH_LIMIT
    ensures EnvelopeItems([TX_TYPE] + RlpEncode(List(f)).value) == Some(CanonAll(f))
  {
    var body := RlpEncode(List(f)).value;
    assert ([TX_TYPE] + body)[1..] == body && body + [] == body;
    RoundTrip(List(f), []);
  }

  /** What can be encoded: a 20-byte recipient and no negative number. */
  predicate Encodable(tx: Eip1559Tx)
  {
    && AddressBytes(tx.to).Some? && tx.chainId >= 0 && tx.nonce >= 0 && tx.maxPriorityFeePerGas >= 0
    && tx.maxFeePerGas >= 0 && tx.gasLimit >= 0 && tx.value >= 0
  }

  /** Hashing and serialising throw exactly on the others, and on a signature of another
      length. */
  lemma {:induction false} SerializableExactly(tx: Eip1559Tx, signature: seq<byte>)
    ensures SigningPreimage(tx).Some? <==> Encodable(tx)
    ensures SerializeSigned(tx, signature).Success? <==> |signature| == 65 && Encodable(tx)
  {
    if AddressBytes(tx.to).Some? {
      var f := Fields(tx).value;
      EncodableFields(tx, []);
      assert f + [] == f;
      if |signature| == 65 {
        EncodableFields(tx, [Number(signature[64]), Number(ToBigInt(signature[..32])),
                             Number(ToBigInt(signature[32..64]))]);
      }
    }
  }

  lemma {:induction false} EncodableFields(tx: Eip1559Tx, extra: seq<RlpInput>)
    requires Fields(tx).Some? && forall i :: 0 <= i < |extra| ==> extra[i].Number? && extra[i].n >= 0
    ensures RlpEncode(List(Fields(tx).value + extra)).Some? <==> Encodable(tx)
  {
    var f := Fields(tx).value + extra;
    EncodableExactly(List(f));
    assert NonNegative(f[8]) && NonNegative(f[5]) && NonNegative(f[7]);
    assert forall i :: 9 <= i < |f| ==> f[i] == extra[i - 9] && NonNegative(f[i]);
    assert NonNegative(List(f)) <==> forall i :: 0 <= i < |f| ==> NonNegative(f[i]);
    assert (forall i :: 0 <= i < 9 ==> NonNegative(f[i])) <==>
      NonNegative(f[0]) && NonNegative(f[1]) && NonNegative(f[2]) && NonNegative(f[3]) && NonNegative(f[4])
      && NonNegative(f[6]);
  }

  /** What is hashed for the signature is a type-2 envelope of exactly nine fields that read
      back as the transaction, with an empty access list. */
  lemma {:induction false} PreimageRoundTrip(tx: Eip1559Tx)
    requires SigningPreimage(tx).Some? && |SigningPreimage(tx).value| <= LENGTH_LIMIT
    ensures DecodePreimage(SigningPreimage(tx).value) == Some(View(tx))
  {
    var f := Fields(tx).value;
    assert f + [] == f;
    EnvelopeOfList(f);
    FieldsRead(tx, []);
  }

  /** What is broadcast is what was hashed, followed by yParity, r and s: the same nine items
      and three more. */
  lemma {:induction false} SignedExtendsPreimage(tx: Eip1559Tx, signature: seq<byte>) returns (nine: seq<RlpInput>)
    requires SerializeSigned(tx, signature).Success? && |SerializeSigned(tx, signature).value| < LENGTH_LIMIT
    requires SigningPreimage(tx).Some? && |SigningPreimage(tx).value| <= LENGTH_LIMIT
    ensures |nine| == 9 && EnvelopeItems(SigningPreimage(tx).value) == Some(nine)
    ensures var raw := SerializeSigned(tx, signature).value;
      && raw[..2] == "0x" && IsHex(raw[2..]) && |raw[2..]| % 2 == 0
      && EnvelopeItems(FromHex(raw[2..])) == Some(nine + [
           Canon(Number(signature[64])), Canon(Number(BigEndian(signature[..32]))),
           Canon(Number(BigEndian(signature[32..64])))])
  {
    var f := Fields(tx).value;
    var extra := [Number(signature[64]), Number(ToBigInt(signature[..32])), Number(ToBigInt(signature[32..64]))];
    nine := CanonAll(f);
    EnvelopeOfList(f);
    var raw, bytes := SerializeSigned(tx, signature).value, [TX_TYPE] + RlpEncode(List(f + extra)).value;
    assert raw[2..] == ToHex(bytes) && raw[..2] == "0x";
    HexRoundTrip(bytes);
    EnvelopeOfList(f + extra);
    CanonConcat(f, extra);
    CanonThree(extra[0], extra[1], extra[2]);
  }

  lemma {:induction false} CanonConcat(f: seq<RlpInput>, g: seq<RlpInput>)
    ensures CanonAll(f + g) == CanonAll(f) + CanonAll(g)
  {
    var l, r := CanonAll(f + g), CanonAll(f) + CanonAll(g);
    assert forall i :: 0 <= i < |l| ==> l[i] == Canon((f + g)[i]) == r[i];
  }

  lemma {:induction false} CanonThree(x: RlpInput, y: RlpInput, z: RlpInput)
    ensures CanonAll([x, y, z]) == [Canon(x), Canon(y), Canon(z)]
  {
    assert [x, y, z][1..] == [y, z] && [y, z][1..] == [z] && [z][1..] == [];
  }

  /** The signature itself can be recovered from r, s and yParity. */
  lemma {:induction false} SignatureRecovered(a: seq<byte>, b: seq<byte>)
    requires |a| == |b| == 65 && a[64] == b[64]
    requires BigEndian(a[..32]) == BigEndian(b[..32]) && BigEndian(a[32..64]) == BigEndian(b[32..64])
    ensures a == b
  {
    BigEndianInjective(a[..32], b[..32]);
    BigEndianInjective(a[32..64], b[32..64]);
    assert a == a[..32] + a[32..64] + [a[64]] && b == b[..32] + b[32..64] + [b[64]];
  }

  // ---------------------------------------------------------------- calldata

  const TRANSFER_SELECTOR: seq<byte> := [0xa9, 0x05, 0x9c, 0xbb]

  /** `word`: right-aligned in 32 bytes. */
  function Word(b: seq<byte>): (r: Option<seq<byte>>)
    ensures r.Some? <==> |b| <= 32
    ensures r.Some? ==> |r.value| == 32 && BigEndian(r.value) == BigEndian(b)
    ensures r.Some? ==> r.value[32 - |b|..] == b
  {
    if |b| > 32 then None
    else
      BigEndianPadded(32 - |b|, b);
      Some(seq(32 - |b|, _ => 0) + b)
  }

  /** The same through a zeroed 32-byte buffer, as the code does it. */
  method WriteWord(b: seq<byte>) returns (r: Option<array<byte>>)
    ensures r.None? <==> Word(b).None?
    ensures r.Some? ==> fresh(r.value) && r.value[..] == Word(b).value
  {
    if |b| > 32 {
      return None;
    }
    var w := new byte[32](_ => 0);
    var i := 0;
    while i < |b|
      invariant 0 <= i <= |b|
      invariant forall k :: 0 <= k < 32 - |b| ==> w[k] == 0
      invariant forall k :: 0 <= k < i ==> w[32 - |b| + k] == b[k]
    {
      w[32 - |b| + i] := b[i];
      i := i + 1;
    }
    assert w[..] == seq(32 - |b|, _ => 0) + b;
    return Some(w);
  }

  /** `erc20TransferData`. */
  function Erc20TransferData(to: string, amount: int): Option<seq<byte>>
  {
    var addr := AddressBytes(to);
    if addr.None? || amount < 0 then None
    else
      var a, v := Word(addr.value), Word(ToMinimalBytes(amount));
      if a.None? || v.None? then None else Some(TRANSFER_SELECTOR + a.value + v.value)
  }

  /** Calldata exists exactly for a valid address and an amount below 2^256, and both can
      be read back from it. */
  lemma {:induction false} TransferDataExact(to: string, amount: int)
    ensures Erc20TransferData(to, amount).Some? <==> AddressBytes(to).Some? && 0 <= amount < Pow(256, 32)
    ensures Erc20TransferData(to, amount).Some? ==>
      var d := Erc20TransferData(to, amount).value;
      && |d| == 68 && d[..4] == TRANSFER_SELECTOR
      && d[4..16] == seq(12, _ => 0) && d[16..36] == AddressBytes(to).value
      && BigEndian(d[36..]) == amount
  {
    if AddressBytes(to).Some? && amount >= 0 {
      var addr, min := AddressBytes(to).value, ToMinimalBytes(amount);
      MinimalLength(amount, 32);
      if |min| <= 32 {
        var a, v := Word(addr).value, Word(min).value;
        assert a[..12] == seq(12, _ => 0);
        CalldataParts(a, v);
      }
    }
  }

  lemma {:induction false} CalldataParts(a: seq<byte>, v: seq<byte>)
    requires |a| == 32 && |v| == 32
    ensures var d := TRANSFER_SELECTOR + a + v;
      |d| == 68 && d[..4] == TRANSFER_SELECTOR && d[4..16] == a[..12] && d[16..36] == a[12..] && d[36..] == v
  {
  }

  /** Different transfers have different calldata. */
  lemma {:induction false} TransferDataInjective(to: string, amount: int, to': string, amount': int)
    requires Erc20TransferData(to, amount).Some?
    requires Erc20TransferData(to, amount) == Erc20TransferData(to', amount')
    ensures AddressBytes(to) == AddressBytes(to') && amount == amount'
  {
    TransferDataExact(to, amount);
    TransferDataExact(to', amount');
  }

  /** Every 20-byte address has its hexadecimal spellings, with and without 0x. */
  lemma {:induction false} AddressRoundTrip(b: seq<byte>)
    requires |b| == 20
    ensures AddressBytes("0x" + ToHex(b)) == Some(b) && AddressBytes("0X" + ToHex(b)) == Some(b)
    ensures AddressBytes(ToHex(b)) == Some(b)
  {
    var s := ToHex(b);
    HexRoundTrip(b);
    assert ("0x" + s)[2..] == s && ("0X" + s)[2..] == s;
    assert IsHexDigit(s[1]);
  }
}
