/** The check a Tron transaction passes before it is signed
    (backend/src/chains/tron/tron-tx-verify.ts and tron-encoding.ts). An address is its
    21-byte base58check payload; sha256 is a parameter. */
module TronTx {
  import opened Wrappers
  import opened Hex
  import opened Protobuf

  const TRANSFER_SELECTOR := "a9059cbb"

  datatype TransferKind = NativeTransfer | TriggerSmartContract

  datatype DecodedTransfer = DecodedTransfer(
    kind: TransferKind, ownerHex: string, toHex: string, amount: nat, contractHex: Option<string>)

  datatype Refusal = Malformed(cause: ProtoError) | NoRawData | ContractCount(n: nat) | NoValue
    | UnknownType(n: nat) | NotATransfer | CallValue | BadRecipientWord
    | NoTxId | WrongTxId | WrongOwner | WrongDestination | WrongAmount | WrongContract

  // ----------------------------------------------------------------- decoder

  /** `field`: the first field with the given number. */
  function FirstField(fields: seq<Field>, no: nat): (r: Option<Field>)
    ensures r.Some? ==> r.value.no == no && r.value in fields
  {
    if fields == [] then None
    else if fields[0].no == no then Some(fields[0])
    else FirstField(fields[1..], no)
  }

  /** `field(f, no)?.bytes`. */
  function BytesOf(fields: seq<Field>, no: nat): Option<seq<byte>>
  {
    var f := FirstField(fields, no);
    if f.None? then None else f.value.bytes
  }

  /** `field(f, no)?.value ?? 0n`. */
  function ValueOf(fields: seq<Field>, no: nat): nat
  {
    var f := FirstField(fields, no);
    if f.None? || f.value.value.None? then 0 else f.value.value.value
  }

  /** `hex`: the empty string when there are no bytes. */
  function HexOf(b: Option<seq<byte>>): string
  {
    if b.None? then "" else ToHex(b.value)
  }

  function DecodeTransferContract(value: seq<byte>): Result<DecodedTransfer, Refusal>
  {
    var f := TakeFields(value);
    if f.Failure? then Failure(Malformed(f.error)) else Success(TransferOf(f.value))
  }

  function TransferOf(f: seq<Field>): DecodedTransfer
  {
    DecodedTransfer(NativeTransfer, HexOf(BytesOf(f, 1)), HexOf(BytesOf(f, 2)), ValueOf(f, 3), None)
  }

  function DecodeTriggerSmartContract(value: seq<byte>): Result<DecodedTransfer, Refusal>
  {
    var f := TakeFields(value);
    if f.Failure? then Failure(Malformed(f.error)) else TriggerOf(f.value)
  }

  function TriggerOf(f: seq<Field>): Result<DecodedTransfer, Refusal>
  {
    var data := HexOf(BytesOf(f, 4));
    if |data| != 136 || data[..8] != TRANSFER_SELECTOR then Failure(NotATransfer)
    else if ValueOf(f, 3) != 0 then Failure(CallValue)
    else if data[8..32] != Zeros(24) then Failure(BadRecipientWord)
    else Success(DecodedTransfer(TriggerSmartContract, HexOf(BytesOf(f, 1)), "41" + data[32..72],
                                 HexToNat(data[72..]), Some(HexOf(BytesOf(f, 2)))))
  }

  predicate IsContract(f: Field) { f.no == 11 && f.bytes.Some? }

  function Contracts(fields: seq<Field>): (r: seq<Field>)
    ensures forall i :: 0 <= i < |r| ==> IsContract(r[i])
  {
    if fields == [] then []
    else (if IsContract(fields[0]) then [fields[0]] else []) + Contracts(fields[1..])
  }

  function Strip0x(s: string): string
  {
    if |s| >= 2 && s[..2] == "0x" then s[2..] else s
  }

  /** `decodeTronRawData`. */
  function DecodeTronRawData(rawDataHex: string): Result<DecodedTransfer, Refusal>
  {
    var clean := Strip0x(rawDataHex);
    if |clean| == 0 || !IsHex(clean) || |clean| % 2 != 0 then Failure(NoRawData)
    else DecodeRawBytes(FromHex(clean))
  }

  function DecodeRawBytes(raw: seq<byte>): Result<DecodedTransfer, Refusal>
  {
    var fields := TakeFields(raw);
    if fields.Failure? then Failure(Malformed(fields.error))
    else
      var contracts := Contracts(fields.value);
      if |contracts| != 1 then Failure(ContractCount(|contracts|))
      else DecodeContract(contracts[0].bytes.value)
  }

  function DecodeContract(contract: seq<byte>): Result<DecodedTransfer, Refusal>
  {
    var c := TakeFields(contract);
    if c.Failure? then Failure(Malformed(c.error))
    else
      var param := BytesOf(c.value, 2);
      var any := TakeFields(if param.None? then [] else param.value);
      if any.Failure? then Failure(Malformed(any.error))
      else DecodeValue(ValueOf(c.value, 1), BytesOf(any.value, 2))
  }

  function DecodeValue(kind: nat, value: Option<seq<byte>>): Result<DecodedTransfer, Refusal>
  {
    if value.None? then Failure(NoValue)
    else if kind == 1 then DecodeTransferContract(value.value)
    else if kind == 31 then DecodeTriggerSmartContract(value.value)
    else Failure(UnknownType(kind))
  }

  // ---------------------------------------------------------------- verifier

  datatype Intent = Intent(ownerHex: string, toHex: string, amount: int, contractHex: Option<string>)

  function LowerChar(c: char): char
  {
    if 'A' <= c <= 'Z' then c - 'A' + 'a' else c
  }

  function Lower(s: string): (r: string)
    ensures |r| == |s|
  {
    seq(|s|, i requires 0 <= i < |s| => LowerChar(s[i]))
  }

  function Clean(s: string): string { Lower(Strip0x(s)) }

  /** `Buffer.from(s, "hex")` on any string: it stops at the first pair that is not
      hexadecimal. */
  function LenientHex(s: string): seq<byte>
  {
    if |s| < 2 || !IsHexDigit(s[0]) || !IsHexDigit(s[1]) then []
    else [16 * HexValue(s[0]) + HexValue(s[1])] + LenientHex(s[2..])
  }

  /** `verifiedTronSigningHash`: the digest to sign, or a refusal. */
  function VerifiedSigningHash(txId: string, rawDataHex: string, intent: Intent, sha256: seq<byte> -> seq<byte>)
    : (r: Result<seq<byte>, Refusal>)
    ensures r.Success? ==> r.value == sha256(LenientHex(Clean(rawDataHex))) && ToHex(r.value) == Clean(txId)
    ensures r.Success? ==>
      var got := DecodeTronRawData(Clean(rawDataHex));
      got.Success? && Satisfies(got.value, intent)
  {
    var rawHex, id := Clean(rawDataHex), Clean(txId);
    if id == "" then Failure(NoTxId)
    else
      var digest := sha256(LenientHex(rawHex));
      if |rawHex| == 0 || ToHex(digest) != id then Failure(WrongTxId)
      else
        var got := DecodeTronRawData(rawHex);
        if got.Failure? then Failure(got.error)
        else if got.value.ownerHex != Clean(intent.ownerHex) then Failure(WrongOwner)
        else if got.value.toHex != Clean(intent.toHex) then Failure(WrongDestination)
        else if got.value.amount != intent.amount then Failure(WrongAmount)
        else if intent.contractHex.None? then
          if got.value.kind != NativeTransfer then Failure(WrongContract) else Success(digest)
        else if got.value.contractHex != Some(Clean(intent.contractHex.value)) then Failure(WrongContract)
        else Success(digest)
  }

  /** The transaction moves exactly what the payout authorised. */
  predicate Satisfies(got: DecodedTransfer, intent: Intent)
  {
    && got.ownerHex == Clean(intent.ownerHex) && got.toHex == Clean(intent.toHex)
    && got.amount == intent.amount
    && match intent.contractHex
       case None => got.kind == NativeTransfer
       case Some(c) => got.contractHex == Some(Clean(c))
  }

  // -------------------------------------------------- canonical transactions

  /** What a node is asked to build. */
  datatype Transfer = Transfer(owner: seq<byte>, to: seq<byte>, amount: nat, contract: Option<seq<byte>>)

  /** `abiEncodeTransfer`: two left-padded words; it throws unless the amount is positive. */
  function AbiEncodeTransfer(to: seq<byte>, amount: int): (r: Option<string>)
    requires |to| >= 1
    ensures r.Some? <==> amount > 0
  {
    if amount <= 0 then None
    else Some(PadStart(ToHex(to[1..]), 64) + PadStart(NatToHex(amount), 64))
  }

  /** A 21-byte payload with the Tron prefix. */
  predicate IsTronAddress(a: seq<byte>)
  {
    |a| == 21 && a[0] == 0x41
  }

  /** Transfers the wire format can carry: native amounts within the varint bound, token
      amounts below 2^256. */
  predicate Carriable(x: Transfer)
  {
    && IsTronAddress(x.owner) && IsTronAddress(x.to) && x.amount > 0
    && match x.contract
       case None => x.amount < VARINT_LIMIT
       case Some(c) => IsTronAddress(c) && x.amount < TOKEN_LIMIT
  }

  /** 2^256. */
  const TOKEN_LIMIT: nat := 0x1_0000_0000_0000_0000_0000_0000_0000_0000_0000_0000_0000_0000_0000_0000_0000_0000

  lemma {:induction false} TokenLimitIsPow()
    ensures TOKEN_LIMIT == Pow(16, 64)
  {
    assert Pow(16, 4) == 0x1_0000;
    PowAdd(16, 4, 4);
    PowAdd(16, 8, 8);
    assert Pow(16, 16) == 0x1_0000_0000_0000_0000;
    PowAdd(16, 16, 16);
    PowAdd(16, 32, 32);
  }

  function TransferData(to: seq<byte>, amount: nat): string
    requires IsTronAddress(to) && amount > 0
  {
    TRANSFER_SELECTOR + AbiEncodeTransfer(to, amount).value
  }

  lemma {:induction false} TransferDataFacts(to: seq<byte>, amount: nat)
    requires IsTronAddress(to) && 0 < amount < TOKEN_LIMIT
    ensures var s := TransferData(to, amount);
      && |s| == 136 && IsLowerHex(s) && s[..8] == TRANSFER_SELECTOR
      && s[8..32] == Zeros(24) && "41" + s[32..72] == ToHex(to) && HexToNat(s[72..]) == amount
  {
    var addr, value := PadStart(ToHex(to[1..]), 64), PadStart(NatToHex(amount), 64);
    AddressWord(to);
    AmountWord(amount);
    LowerHexConcat(addr, value);
    LowerHexConcat(TRANSFER_SELECTOR, addr + value);
    Calldata(addr, value);
  }

  lemma {:induction false} AddressWord(to: seq<byte>)
    requires IsTronAddress(to)
    ensures var addr := PadStart(ToHex(to[1..]), 64);
      |addr| == 64 && IsLowerHex(addr) && addr[..24] == Zeros(24) && "41" + addr[24..] == ToHex(to)
  {
    ToHexLower(to[1..]);
    PadStartFacts(ToHex(to[1..]), 64);
    ToHexHead(to);
  }

  lemma {:induction false} AmountWord(amount: nat)
    requires amount < TOKEN_LIMIT
    ensures var value := PadStart(NatToHex(amount), 64);
      |value| == 64 && IsLowerHex(value) && HexToNat(value) == amount
  {
    NatToHexLower(amount);
    TokenLimitIsPow();
    HexLength(amount, 64);
    PadStartFacts(NatToHex(amount), 64);
  }

  lemma {:induction false} Calldata(addr: string, value: string)
    requires |addr| == 64 && |value| == 64
    ensures var s := TRANSFER_SELECTOR + (addr + value);
      && |s| == 136 && s[..8] == TRANSFER_SELECTOR
      && s[8..32] == addr[..24] && s[32..72] == addr[24..] && s[72..] == value
  {
  }

  lemma {:induction false} ToHexHead(to: seq<byte>)
    requires IsTronAddress(to)
    ensures ToHex(to) == "41" + ToHex(to[1..])
  {
    ToHexCons(to[0], to[1..]);
    assert to == [to[0]] + to[1..];
    assert [HexDigit(4), HexDigit(1)] == "41";
  }

  /** The calldata of a token transfer as bytes. */
  function TokenData(to: seq<byte>, amount: nat): (b: seq<byte>)
    requires IsTronAddress(to) && 0 < amount < TOKEN_LIMIT
    ensures |b| == 68 && ToHex(b) == TransferData(to, amount)
  {
    var s := TransferData(to, amount);
    TransferDataFacts(to, amount);
    LowerHexRoundTrip(s);
    FromHex(s)
  }

  /** The transfer message inside the transaction. */
  function ValueFields(x: Transfer): (r: seq<Field>)
    requires Carriable(x)
  {
    match x.contract
    case None => [BytesField(1, x.owner), BytesField(2, x.to), VarintField(3, x.amount)]
    case Some(c) => [BytesField(1, x.owner), BytesField(2, c), BytesField(4, TokenData(x.to, x.amount))]
  }

  lemma {:induction false} ValueFieldsWritable(x: Transfer)
    requires Carriable(x)
    ensures AllWritable(ValueFields(x))
  {
    var f := ValueFields(x);
    assert Writable(f[0]) && Writable(f[1]) && Writable(f[2]);
  }

  function ParamFields(x: Transfer, typeUrl: seq<byte>): seq<Field>
    requires Carriable(x)
  {
    [BytesField(1, typeUrl), BytesField(2, WriteFields(ValueFields(x)))]
  }

  function ContractFields(x: Transfer, typeUrl: seq<byte>): seq<Field>
    requires Carriable(x)
  {
    [VarintField(1, if x.contract.None? then 1 else 31), BytesField(2, WriteFields(ParamFields(x, typeUrl)))]
  }

  /** Everything in a raw transaction besides the transfer: header fields, trailer
      fields and the type URL of the parameter. */
  datatype Envelope = Envelope(before: seq<Field>, after: seq<Field>, typeUrl: seq<byte>)

  function RawFields(x: Transfer, env: Envelope): seq<Field>
    requires Carriable(x)
  {
    env.before + [BytesField(11, WriteFields(ContractFields(x, env.typeUrl)))] + env.after
  }

  /** The canonical encoding of x in env. */
  function RawTx(x: Transfer, env: Envelope): seq<byte>
    requires Carriable(x)
  {
    WriteFields(RawFields(x, env))
  }

  /** The nested messages stay within the reader's bounds and no other field of the
      envelope is a contract. */
  predicate WellFormed(x: Transfer, env: Envelope)
    requires Carriable(x)
  {
    && AllWritable(ParamFields(x, env.typeUrl)) && AllWritable(ContractFields(x, env.typeUrl))
    && AllWritable(RawFields(x, env))
    && (forall i :: 0 <= i < |env.before| ==> !IsContract(env.before[i]))
    && (forall i :: 0 <= i < |env.after| ==> !IsContract(env.after[i]))
  }

  lemma {:induction false} OneContract(before: seq<Field>, c: Field, after: seq<Field>)
    requires IsContract(c)
    requires forall i :: 0 <= i < |before| ==> !IsContract(before[i])
    requires forall i :: 0 <= i < |after| ==> !IsContract(after[i])
    ensures Contracts(before + [c] + after) == [c]
  {
    var all := before + [c] + after;
    if before == [] {
      assert all[1..] == after;
      NoContracts(after);
    } else {
      OneContract(before[1..], c, after);
      assert all[1..] == before[1..] + [c] + after;
    }
  }

  lemma {:induction false} NoContracts(fields: seq<Field>)
    requires forall i :: 0 <= i < |fields| ==> !IsContract(fields[i])
    ensures Contracts(fields) == []
  {
    if fields != [] { NoContracts(fields[1..]); }
  }

  function Meaning(x: Transfer): DecodedTransfer
  {
    DecodedTransfer(if x.contract.None? then NativeTransfer else TriggerSmartContract,
                    ToHex(x.owner), ToHex(x.to), x.amount,
                    if x.contract.None? then None else Some(ToHex(x.contract.value)))
  }

  lemma {:induction false} PairLookup(a: Field, b: Field)
    requires a.no != b.no
    ensures FirstField([a, b], a.no) == Some(a) && FirstField([a, b], b.no) == Some(b)
  {
    assert [a, b][1..] == [b];
  }

  lemma {:induction false} TripleLookup(a: Field, b: Field, c: Field, no: nat)
    requires a.no != b.no && b.no != c.no && a.no != c.no
    ensures FirstField([a, b, c], no) ==
      if no == a.no then Some(a) else if no == b.no then Some(b) else if no == c.no then Some(c) else None
  {
    assert [a, b, c][1..] == [b, c] && [b, c][1..] == [c] && [c][1..] == [];
    assert FirstField([c], no) == if no == c.no then Some(c) else None;
  }

  lemma {:induction false} NativeFields(x: Transfer)
    requires Carriable(x) && x.contract.None?
    ensures TransferOf(ValueFields(x)) == Meaning(x)
  {
    var a, b, c := BytesField(1, x.owner), BytesField(2, x.to), VarintField(3, x.amount);
    TripleLookup(a, b, c, 1);
    TripleLookup(a, b, c, 2);
    TripleLookup(a, b, c, 3);
  }

  lemma {:induction false} TokenFields(x: Transfer)
    requires Carriable(x) && x.contract.Some?
    ensures TriggerOf(ValueFields(x)) == Success(Meaning(x))
  {
    var a, b, c := BytesField(1, x.owner), BytesField(2, x.contract.value), BytesField(4, TokenData(x.to, x.amount));
    TripleLookup(a, b, c, 1);
    TripleLookup(a, b, c, 2);
    TripleLookup(a, b, c, 3);
    TripleLookup(a, b, c, 4);
    TransferDataFacts(x.to, x.amount);
  }

  lemma {:induction false} ValueDecodes(x: Transfer)
    requires Carriable(x)
    ensures DecodeValue(if x.contract.None? then 1 else 31, Some(WriteFields(ValueFields(x)))) == Success(Meaning(x))
  {
    ValueFieldsWritable(x);
    FieldsRoundTrip(ValueFields(x));
    if x.contract.None? { NativeFields(x); } else { TokenFields(x); }
  }

  lemma {:induction false} UnwrapsParameter(kind: nat, param: seq<Field>, c: seq<Field>, typeUrl: seq<byte>,
                                            value: seq<byte>)
    requires param == [BytesField(1, typeUrl), BytesField(2, value)] && AllWritable(param)
    requires c == [VarintField(1, kind), BytesField(2, WriteFields(param))] && AllWritable(c)
    ensures DecodeContract(WriteFields(c)) == DecodeValue(kind, Some(value))
  {
    FieldsRoundTrip(param);
    FieldsRoundTrip(c);
    PairLookup(c[0], c[1]);
    PairLookup(param[0], param[1]);
    assert BytesOf(param, 2) == Some(value) && BytesOf(c, 2) == Some(WriteFields(param)) && ValueOf(c, 1) == kind;
  }

  lemma {:induction false} ContractDecodes(x: Transfer, typeUrl: seq<byte>)
    requires Carriable(x) && AllWritable(ParamFields(x, typeUrl)) && AllWritable(ContractFields(x, typeUrl))
    ensures DecodeContract(WriteFields(ContractFields(x, typeUrl))) == Success(Meaning(x))
  {
    UnwrapsParameter(if x.contract.None? then 1 else 31, ParamFields(x, typeUrl), ContractFields(x, typeUrl),
                     typeUrl, WriteFields(ValueFields(x)));
    ValueDecodes(x);
  }

  /** The canonical transaction of a transfer decodes to exactly that transfer. */
  lemma {:induction false} CanonicalDecodes(x: Transfer, env: Envelope)
    requires Carriable(x) && WellFormed(x, env)
    ensures DecodeRawBytes(RawTx(x, env)) == Success(Meaning(x))
  {
    FieldsRoundTrip(RawFields(x, env));
    OneContract(env.before, BytesField(11, WriteFields(ContractFields(x, env.typeUrl))), env.after);
    ContractDecodes(x, env.typeUrl);
  }

  /** A transfer as a payout intent. */
  function IntentOf(x: Transfer): Intent
  {
    Intent(ToHex(x.owner), ToHex(x.to), x.amount,
           if x.contract.None? then None else Some(ToHex(x.contract.value)))
  }

  lemma {:induction false} CleanHex(b: seq<byte>)
    requires b != []
    ensures Clean(ToHex(b)) == ToHex(b) && Strip0x(ToHex(b)) == ToHex(b)
  {
    ToHexLower(b);
    var s := ToHex(b);
    assert s[1] != 'x';
    assert Strip0x(s) == s;
  }

  lemma {:induction false} LenientIsExact(b: seq<byte>)
    ensures LenientHex(ToHex(b)) == b
  {
    LenientOnHex(ToHex(b));
    HexRoundTrip(b);
  }

  lemma {:induction false} LenientOnHex(s: string)
    requires IsHex(s) && |s| % 2 == 0
    ensures LenientHex(s) == FromHex(s)
  {
    if s != [] {
      LenientOnHex(s[2..]);
      assert FromHex(s)[1..] == FromHex(s[2..]);
      assert FromHex(s) == [FromHex(s)[0]] + FromHex(s)[1..];
    }
  }

  lemma {:induction false} ToHexInjective(a: seq<byte>, b: seq<byte>)
    requires ToHex(a) == ToHex(b)
    ensures a == b
  {
    HexRoundTrip(a);
    HexRoundTrip(b);
  }

  /** End to end: the canonical transaction of x, with its true txID, is signed for the
      intent of y exactly when x and y are the same transfer. */
  lemma {:induction false} SignsExactlyTheIntent(x: Transfer, y: Transfer, env: Envelope,
                                                 sha256: seq<byte> -> seq<byte>)
    requires Carriable(x) && WellFormed(x, env) && Carriable(y)
    requires sha256(RawTx(x, env)) != []
    ensures var raw := RawTx(x, env);
      var r := VerifiedSigningHash(ToHex(sha256(raw)), ToHex(raw), IntentOf(y), sha256);
      (r.Success? <==> x == y) && (x == y ==> r.value == sha256(raw))
  {
    var raw := RawTx(x, env);
    CanonicalDecodes(x, env);
    CleanHex(raw);
    CleanHex(sha256(raw));
    LenientIsExact(raw);
    HexRoundTrip(raw);
    assert DecodeTronRawData(ToHex(raw)) == Success(Meaning(x));
    SatisfiesExactly(x, y);
  }

  lemma {:induction false} SatisfiesExactly(x: Transfer, y: Transfer)
    requires Carriable(x) && Carriable(y)
    ensures Satisfies(Meaning(x), IntentOf(y)) <==> x == y
  {
    CleanHex(y.owner);
    CleanHex(y.to);
    if y.contract.Some? { CleanHex(y.contract.value); }
    if Satisfies(Meaning(x), IntentOf(y)) {
      ToHexInjective(x.owner, y.owner);
      ToHexInjective(x.to, y.to);
      if x.contract.Some? && y.contract.Some? { ToHexInjective(x.contract.value, y.contract.value); }
    }
  }
}
