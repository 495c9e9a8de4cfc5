/** What a returned signing hash guarantees, for every answer a node can give
    (backend/src/chains/tron/tron-tx-verify.ts). The guarantees are stated on the fields of
    the protobuf messages themselves, by position. */
module TronSoundness {
  import opened Wrappers
  import opened Hex
  import opened Protobuf
  import opened TronTx

  // ------------------------------------------------------------- fields by position

  /** Position i holds the first field with this number. */
  ghost predicate IsFirst(fields: seq<Field>, no: nat, i: nat)
  {
    i < |fields| && fields[i].no == no && forall k :: 0 <= k < i ==> fields[k].no != no
  }

  ghost predicate CarriesBytes(fields: seq<Field>, no: nat, b: seq<byte>)
  {
    exists i: nat :: IsFirst(fields, no, i) && fields[i].bytes == Some(b)
  }

  ghost predicate CarriesValue(fields: seq<Field>, no: nat, v: nat)
  {
    exists i: nat :: IsFirst(fields, no, i) && fields[i].value == Some(v)
  }

  /** The field is absent, or holds no number, or zero. */
  ghost predicate ZeroOrAbsent(fields: seq<Field>, no: nat)
  {
    forall i: nat :: IsFirst(fields, no, i) ==> fields[i].value == None || fields[i].value == Some(0)
  }

  /** The field holds the bytes that the text spells; an empty text asks for nothing. */
  ghost predicate Spells(fields: seq<Field>, no: nat, text: string)
  {
    text != "" ==> exists b :: CarriesBytes(fields, no, b) && ToHex(b) == text
  }

  predicate HoldsContract(f: Field) { f.no == 11 && f.bytes.Some? }

  /** Exactly one field of the transaction is a contract, and these are its bytes. */
  ghost predicate OnlyContract(fields: seq<Field>, contract: seq<byte>)
  {
    exists i: nat :: i < |fields| && HoldsContract(fields[i]) && fields[i].bytes == Some(contract)
      && forall k: nat :: k < |fields| && k != i ==> !HoldsContract(fields[k])
  }

  lemma {:induction false} FirstByPosition(fields: seq<Field>, no: nat)
    ensures var f := FirstField(fields, no);
      && (f.Some? ==> exists i: nat :: IsFirst(fields, no, i) && fields[i] == f.value)
      && (f.None? ==> forall i: nat :: !IsFirst(fields, no, i))
  {
    if fields != [] && fields[0].no != no {
      FirstByPosition(fields[1..], no);
      var f := FirstField(fields[1..], no);
      if f.Some? {
        var i: nat :| IsFirst(fields[1..], no, i) && fields[1..][i] == f.value;
        assert IsFirst(fields, no, i + 1) by {
          forall k | 0 <= k < i + 1 ensures fields[k].no != no { if k > 0 { assert fields[k] == fields[1..][k - 1]; } }
        }
      } else {
        forall i: nat ensures !IsFirst(fields, no, i) { FirstShifts(fields, no, i); }
      }
    } else if fields != [] {
      assert IsFirst(fields, no, 0);
    }
  }

  lemma {:induction false} FirstShifts(fields: seq<Field>, no: nat, i: nat)
    requires fields != [] && fields[0].no != no && forall j: nat :: !IsFirst(fields[1..], no, j)
    ensures !IsFirst(fields, no, i)
  {
    if IsFirst(fields, no, i) {
      assert forall k :: 0 <= k < i - 1 ==> fields[1..][k] == fields[k + 1];
      assert IsFirst(fields[1..], no, i - 1);
    }
  }

  lemma {:induction false} FirstUnique(fields: seq<Field>, no: nat, i: nat, j: nat)
    requires IsFirst(fields, no, i) && IsFirst(fields, no, j)
    ensures i == j
  {
  }

  lemma {:induction false} BytesByPosition(fields: seq<Field>, no: nat)
    ensures var b := BytesOf(fields, no); b.Some? ==> CarriesBytes(fields, no, b.value)
  {
    FirstByPosition(fields, no);
  }

  lemma {:induction false} SpellsByPosition(fields: seq<Field>, no: nat)
    ensures Spells(fields, no, HexOf(BytesOf(fields, no)))
  {
    BytesByPosition(fields, no);
  }

  lemma {:induction false} ValueByPosition(fields: seq<Field>, no: nat)
    ensures var v := ValueOf(fields, no);
      (v > 0 ==> CarriesValue(fields, no, v)) && (v == 0 ==> ZeroOrAbsent(fields, no))
  {
    FirstByPosition(fields, no);
    forall i: nat, j: nat | IsFirst(fields, no, i) && IsFirst(fields, no, j) ensures i == j {
      FirstUnique(fields, no, i, j);
    }
  }

  lemma {:induction false} ContractByPosition(fields: seq<Field>)
    ensures |Contracts(fields)| == 0 ==> forall k: nat :: k < |fields| ==> !HoldsContract(fields[k])
    ensures |Contracts(fields)| == 1 ==> OnlyContract(fields, Contracts(fields)[0].bytes.value)
  {
    if fields != [] {
      var rest := fields[1..];
      ContractByPosition(rest);
      assert forall k: nat :: 0 < k < |fields| ==> fields[k] == rest[k - 1];
      if |Contracts(fields)| == 1 {
        if HoldsContract(fields[0]) {
          assert |Contracts(rest)| == 0;
          assert forall k: nat :: k < |fields| && k != 0 ==> !HoldsContract(fields[k]);
        } else {
          Shifted(fields, Contracts(fields)[0].bytes.value);
        }
      }
    }
  }

  lemma {:induction false} Shifted(fields: seq<Field>, contract: seq<byte>)
    requires fields != [] && !HoldsContract(fields[0]) && OnlyContract(fields[1..], contract)
    ensures OnlyContract(fields, contract)
  {
    var rest := fields[1..];
    var i: nat :| i < |rest| && HoldsContract(rest[i]) && rest[i].bytes == Some(contract)
      && forall k: nat :: k < |rest| && k != i ==> !HoldsContract(rest[k]);
    assert fields[i + 1] == rest[i];
    forall k: nat | k < |fields| && k != i + 1 ensures !HoldsContract(fields[k]) {
      if k > 0 { assert fields[k] == rest[k - 1]; }
    }
  }

  // --------------------------------------------------------------- spelling of bytes

  lemma {:induction false} ToHexConcat(a: seq<byte>, b: seq<byte>)
    ensures ToHex(a + b) == ToHex(a) + ToHex(b)
  {
    if b == [] {
      assert a + b == a;
    } else {
      var k := |b| - 1;
      ToHexConcat(a, b[..k]);
      ToHexSnoc(b[..k], b[k]);
      ToHexSnoc(a + b[..k], b[k]);
      assert b == b[..k] + [b[k]] && a + b == a + b[..k] + [b[k]];
    }
  }

  lemma {:induction false} ToHexSnoc(b: seq<byte>, x: byte)
    ensures ToHex(b + [x]) == ToHex(b) + [HexDigit(x / 16), HexDigit(x % 16)]
  {
    assert (b + [x])[..|b|] == b;
  }

  lemma {:induction false} ToHexSlice(b: seq<byte>, i: nat, j: nat)
    requires i <= j <= |b|
    ensures ToHex(b)[2 * i..2 * j] == ToHex(b[i..j])
  {
    assert b == b[..i] + (b[i..j] + b[j..]);
    ToHexConcat(b[..i], b[i..j] + b[j..]);
    ToHexConcat(b[i..j], b[j..]);
  }

  lemma {:induction false} ZeroBytes(n: nat)
    ensures ToHex(seq(n, _ => 0)) == Zeros(2 * n)
  {
    if n > 0 {
      ZeroBytes(n - 1);
      var z: seq<byte> := seq(n, _ => 0);
      assert z[..n - 1] == seq(n - 1, _ => 0);
      assert HexDigit(0) == '0';
    }
  }

  /** The calldata of transfer(address,uint256): selector, recipient word, amount word. */
  ghost predicate TransferCall(data: seq<byte>, toHex: string, amount: int)
  {
    && |data| == 68 && data[..4] == [0xa9, 0x05, 0x9c, 0xbb] && data[4..16] == seq(12, _ => 0)
    && "41" + ToHex(data[16..36]) == toHex && BigEndian(data[36..]) == amount
  }

  lemma {:induction false} CallFromHex(data: seq<byte>, toHex: string, amount: int)
    requires |ToHex(data)| == 136
    requires var s := ToHex(data);
      && s[..8] == TRANSFER_SELECTOR && s[8..32] == Zeros(24) && "41" + s[32..72] == toHex
      && HexToNat(s[72..]) == amount
    ensures TransferCall(data, toHex, amount)
  {
    var s := ToHex(data);
    SelectorBytes(data);
    ToHexSlice(data, 4, 16);
    ZeroBytes(12);
    ToHexInjective(data[4..16], seq(12, _ => 0));
    ToHexSlice(data, 16, 36);
    ToHexSlice(data, 36, 68);
    assert data[36..68] == data[36..] && s[72..136] == s[72..];
    HexRoundTrip(data[36..]);
    HexValueOfBytes(ToHex(data[36..]));
  }

  lemma {:induction false} SelectorBytes(data: seq<byte>)
    requires |data| >= 4 && ToHex(data)[..8] == TRANSFER_SELECTOR
    ensures data[..4] == [0xa9, 0x05, 0x9c, 0xbb]
  {
    ToHexSlice(data, 0, 4);
    assert ToHex(data)[0..8] == ToHex(data)[..8] && data[0..4] == data[..4];
    HexRoundTrip(data[..4]);
    var s := TRANSFER_SELECTOR;
    assert FromHex(s)[0] == 0xa9 && FromHex(s)[1] == 0x05 && FromHex(s)[2] == 0x9c && FromHex(s)[3] == 0xbb;
    assert FromHex(s) == [0xa9, 0x05, 0x9c, 0xbb];
  }

  // ------------------------------------------------------------------- soundness

  /** The messages on the way from the transaction to the transfer. */
  datatype Path = Path(fields: seq<Field>, contract: seq<byte>, c: seq<Field>, param: seq<byte>, p: seq<Field>,
                       value: seq<byte>)

  /** The transaction's only contract has this type and holds this transfer message. */
  ghost predicate Opens(raw: seq<byte>, path: Path, kind: nat, message: seq<Field>)
  {
    && TakeFields(raw) == Success(path.fields) && OnlyContract(path.fields, path.contract)
    && TakeFields(path.contract) == Success(path.c)
    && CarriesValue(path.c, 1, kind) && CarriesBytes(path.c, 2, path.param)
    && TakeFields(path.param) == Success(path.p) && CarriesBytes(path.p, 2, path.value)
    && TakeFields(path.value) == Success(message)
  }

  /** The bytes that are decoded, and the bytes that are hashed. */
  function DecodedBytes(rawDataHex: string): seq<byte> { LenientHex(Strip0x(Clean(rawDataHex))) }

  function HashedBytes(rawDataHex: string): seq<byte> { LenientHex(Clean(rawDataHex)) }

  /** What a transfer message of either type decodes to. */
  function Decoded(kind: nat, message: seq<Field>): Result<DecodedTransfer, Refusal>
  {
    if kind == 1 then Success(TransferOf(message)) else TriggerOf(message)
  }

  lemma {:induction false} DecodedOpens(rawDataHex: string) returns (path: Path, kind: nat, message: seq<Field>)
    requires DecodeTronRawData(Clean(rawDataHex)).Success?
    ensures Opens(DecodedBytes(rawDataHex), path, kind, message) && (kind == 1 || kind == 31)
    ensures DecodeTronRawData(Clean(rawDataHex)) == Decoded(kind, message)
  {
    var clean := Strip0x(Clean(rawDataHex));
    LenientOnHex(clean);
    var raw := FromHex(clean);
    var fields := TakeFields(raw).value;
    var contract := Contracts(fields)[0].bytes.value;
    ContractByPosition(fields);
    path, kind, message := ContractOpens(raw, fields, contract);
  }

  lemma {:induction false} ContractOpens(raw: seq<byte>, fields: seq<Field>, contract: seq<byte>)
    returns (path: Path, kind: nat, message: seq<Field>)
    requires TakeFields(raw) == Success(fields) && OnlyContract(fields, contract) && DecodeContract(contract).Success?
    ensures Opens(raw, path, kind, message) && (kind == 1 || kind == 31)
    ensures DecodeContract(contract) == Decoded(kind, message)
  {
    var c := TakeFields(contract).value;
    HasParameter(contract, c);
    var param := BytesOf(c, 2).value;
    var p := TakeFields(param).value;
    var value := BytesOf(p, 2).value;
    kind := ValueOf(c, 1);
    message := TakeFields(value).value;
    path := Path(fields, contract, c, param, p, value);
    ValueByPosition(c, 1);
    BytesByPosition(c, 2);
    BytesByPosition(p, 2);
  }

  lemma {:induction false} HasParameter(contract: seq<byte>, c: seq<Field>)
    requires TakeFields(contract) == Success(c) && DecodeContract(contract).Success?
    ensures BytesOf(c, 2).Some?
    ensures TakeFields(BytesOf(c, 2).value).Success? && BytesOf(TakeFields(BytesOf(c, 2).value).value, 2).Some?
    ensures DecodeContract(contract)
         == DecodeValue(ValueOf(c, 1), BytesOf(TakeFields(BytesOf(c, 2).value).value, 2))
  {
    assert TakeFields([]) == Success([]) && BytesOf([], 2) == None;
  }

  /** What the verifier compared. */
  lemma {:induction false} Verified(txId: string, rawDataHex: string, intent: Intent, sha256: seq<byte> -> seq<byte>)
    requires VerifiedSigningHash(txId, rawDataHex, intent, sha256).Success?
    ensures var got := DecodeTronRawData(Clean(rawDataHex)); got.Success? && Satisfies(got.value, intent)
  {
  }

  /** If a hash is returned for a token payout, the one contract of the transaction is of type
      31, names the intent's owner and token, carries no call value, and its data is a plain
      transfer of the intent's amount to the intent's recipient. */
  lemma {:induction false} TokenSoundness(txId: string, rawDataHex: string, intent: Intent,
                                          sha256: seq<byte> -> seq<byte>)
    returns (path: Path, message: seq<Field>, data: seq<byte>)
    requires VerifiedSigningHash(txId, rawDataHex, intent, sha256).Success? && intent.contractHex.Some?
    ensures Opens(DecodedBytes(rawDataHex), path, 31, message)
    ensures Spells(message, 1, Clean(intent.ownerHex)) && Spells(message, 2, Clean(intent.contractHex.value))
    ensures ZeroOrAbsent(message, 3)
    ensures CarriesBytes(message, 4, data) && TransferCall(data, Clean(intent.toHex), intent.amount)
  {
    Verified(txId, rawDataHex, intent, sha256);
    var kind: nat;
    path, kind, message := DecodedOpens(rawDataHex);
    TokenIsTrigger(kind, message, intent);
    data := TriggerIsPlain(message, intent);
  }

  lemma {:induction false} TokenIsTrigger(kind: nat, message: seq<Field>, intent: Intent)
    requires intent.contractHex.Some? && (kind == 1 || kind == 31)
    requires Decoded(kind, message).Success? && Satisfies(Decoded(kind, message).value, intent)
    ensures kind == 31 && TriggerOf(message).Success? && Satisfies(TriggerOf(message).value, intent)
  {
  }

  lemma {:induction false} TriggerIsPlain(message: seq<Field>, intent: Intent) returns (data: seq<byte>)
    requires intent.contractHex.Some?
    requires TriggerOf(message).Success? && Satisfies(TriggerOf(message).value, intent)
    ensures Spells(message, 1, Clean(intent.ownerHex)) && Spells(message, 2, Clean(intent.contractHex.value))
    ensures ZeroOrAbsent(message, 3)
    ensures CarriesBytes(message, 4, data) && TransferCall(data, Clean(intent.toHex), intent.amount)
  {
    SpellsByPosition(message, 1);
    SpellsByPosition(message, 2);
    ValueByPosition(message, 3);
    BytesByPosition(message, 4);
    data := BytesOf(message, 4).value;
    CallFromHex(data, Clean(intent.toHex), intent.amount);
  }

  /** If a hash is returned for a native payout, the one contract of the transaction is of type
      1 and names the intent's owner, recipient and amount. */
  lemma {:induction false} NativeSoundness(txId: string, rawDataHex: string, intent: Intent,
                                           sha256: seq<byte> -> seq<byte>)
    returns (path: Path, message: seq<Field>)
    requires VerifiedSigningHash(txId, rawDataHex, intent, sha256).Success? && intent.contractHex.None?
    ensures Opens(DecodedBytes(rawDataHex), path, 1, message) && NativeMatches(message, intent)
  {
    Verified(txId, rawDataHex, intent, sha256);
    var kind: nat;
    path, kind, message := DecodedOpens(rawDataHex);
    NativeIsTransfer(kind, message, intent);
  }

  /** The message names the intent's owner, recipient and amount. */
  ghost predicate NativeMatches(message: seq<Field>, intent: Intent)
  {
    && Spells(message, 1, Clean(intent.ownerHex)) && Spells(message, 2, Clean(intent.toHex)) && intent.amount >= 0
    && if intent.amount > 0 then CarriesValue(message, 3, intent.amount) else ZeroOrAbsent(message, 3)
  }

  lemma {:induction false} NativeIsTransfer(kind: nat, message: seq<Field>, intent: Intent)
    requires intent.contractHex.None? && (kind == 1 || kind == 31)
    requires Decoded(kind, message).Success? && Satisfies(Decoded(kind, message).value, intent)
    ensures kind == 1 && NativeMatches(message, intent)
  {
    SpellsByPosition(message, 1);
    SpellsByPosition(message, 2);
    ValueByPosition(message, 3);
  }

  /** The bytes that are hashed are the bytes that were checked, unless the text still starts
      with 0x once one prefix is dropped: then nothing is hashed. */
  lemma {:induction false} HashesWhatItChecks(rawDataHex: string)
    requires DecodeTronRawData(Clean(rawDataHex)).Success?
    ensures DecodedBytes(rawDataHex) != []
    ensures HashedBytes(rawDataHex) == DecodedBytes(rawDataHex) <==> Strip0x(Clean(rawDataHex)) == Clean(rawDataHex)
    ensures Strip0x(Clean(rawDataHex)) != Clean(rawDataHex) ==> HashedBytes(rawDataHex) == []
  {
    LenientOnHex(Strip0x(Clean(rawDataHex)));
    PrefixStops(Clean(rawDataHex));
  }

  lemma {:induction false} PrefixStops(s: string)
    ensures Strip0x(s) != s ==> LenientHex(s) == []
  {
    if |s| >= 2 && s[..2] == "0x" { assert s[1] == s[..2][1] == 'x'; }
  }

  // -------------------------------------------------------- what is refused, exactly

  /** A raw transaction around any transfer message. */
  function Wrapped(kind: nat, value: seq<byte>, env: Envelope): seq<Field>
  {
    env.before + [BytesField(11, WriteFields(ContractOf(kind, value, env)))] + env.after
  }

  function ParamOf(value: seq<byte>, env: Envelope): seq<Field> { [BytesField(1, env.typeUrl), BytesField(2, value)] }

  function ContractOf(kind: nat, value: seq<byte>, env: Envelope): seq<Field>
  {
    [VarintField(1, kind), BytesField(2, WriteFields(ParamOf(value, env)))]
  }

  predicate WrapsWell(kind: nat, value: seq<byte>, env: Envelope)
  {
    && AllWritable(ParamOf(value, env)) && AllWritable(ContractOf(kind, value, env))
    && AllWritable(Wrapped(kind, value, env))
    && (forall i :: 0 <= i < |env.before| ==> !IsContract(env.before[i]))
    && (forall i :: 0 <= i < |env.after| ==> !IsContract(env.after[i]))
  }

  lemma {:induction false} WrappedDecodes(kind: nat, value: seq<byte>, env: Envelope)
    requires WrapsWell(kind, value, env)
    ensures DecodeRawBytes(WriteFields(Wrapped(kind, value, env))) == DecodeValue(kind, Some(value))
  {
    FieldsRoundTrip(Wrapped(kind, value, env));
    OneContract(env.before, BytesField(11, WriteFields(ContractOf(kind, value, env))), env.after);
    UnwrapsParameter(kind, ParamOf(value, env), ContractOf(kind, value, env), env.typeUrl, value);
  }

  /** The token transfer with a call value added. */
  function PayingFields(x: Transfer, callValue: nat): seq<Field>
    requires Carriable(x) && x.contract.Some?
  {
    [BytesField(1, x.owner), BytesField(2, x.contract.value), VarintField(3, callValue),
     BytesField(4, TokenData(x.to, x.amount))]
  }

  lemma {:induction false} FourLookup(a: Field, b: Field, c: Field, d: Field)
    requires a.no == 1 && b.no == 2 && c.no == 3 && d.no == 4
    ensures var f := [a, b, c, d];
      && FirstField(f, 1) == Some(a) && FirstField(f, 2) == Some(b) && FirstField(f, 3) == Some(c)
      && FirstField(f, 4) == Some(d)
  {
    assert [a, b, c, d][1..] == [b, c, d];
    TripleLookup(b, c, d, 2);
    TripleLookup(b, c, d, 3);
    TripleLookup(b, c, d, 4);
  }

  lemma {:induction false} PayingTrigger(x: Transfer, v: nat)
    requires Carriable(x) && x.contract.Some?
    ensures TriggerOf(PayingFields(x, v)) == if v == 0 then Success(Meaning(x)) else Failure(CallValue)
  {
    FourLookup(BytesField(1, x.owner), BytesField(2, x.contract.value), VarintField(3, v),
               BytesField(4, TokenData(x.to, x.amount)));
    TransferDataFacts(x.to, x.amount);
  }

  /** The asked-for token transfer with a call value v is signed if and only if v is zero. */
  lemma {:induction false} CallValueExactly(x: Transfer, v: nat, env: Envelope, sha256: seq<byte> -> seq<byte>)
    requires Carriable(x) && x.contract.Some? && v < VARINT_LIMIT && AllWritable(PayingFields(x, v))
    requires WrapsWell(31, WriteFields(PayingFields(x, v)), env)
    requires sha256(WriteFields(Wrapped(31, WriteFields(PayingFields(x, v)), env))) != []
    ensures var raw := WriteFields(Wrapped(31, WriteFields(PayingFields(x, v)), env));
      VerifiedSigningHash(ToHex(sha256(raw)), ToHex(raw), IntentOf(x), sha256).Success? <==> v == 0
  {
    var raw := WriteFields(Wrapped(31, WriteFields(PayingFields(x, v)), env));
    WrappedDecodes(31, WriteFields(PayingFields(x, v)), env);
    FieldsRoundTrip(PayingFields(x, v));
    PayingTrigger(x, v);
    SignsIffSatisfied(raw, IntentOf(x), sha256);
    SatisfiesExactly(x, x);
  }

  /** For a body spelled plainly with its true id, the check passes exactly when the body
      decodes to something that satisfies the intent. */
  lemma {:induction false} SignsIffSatisfied(raw: seq<byte>, intent: Intent, sha256: seq<byte> -> seq<byte>)
    requires raw != [] && sha256(raw) != []
    ensures VerifiedSigningHash(ToHex(sha256(raw)), ToHex(raw), intent, sha256).Success?
      <==> DecodeRawBytes(raw).Success? && Satisfies(DecodeRawBytes(raw).value, intent)
  {
    CleanHex(raw);
    CleanHex(sha256(raw));
    LenientIsExact(raw);
    HexRoundTrip(raw);
    assert DecodeTronRawData(ToHex(raw)) == DecodeRawBytes(raw);
  }

  /** A transaction with two contracts is never signed, whatever they are. */
  lemma {:induction false} TwoContractsRefused(txId: string, fields: seq<Field>, i: nat, j: nat, intent: Intent,
                                               sha256: seq<byte> -> seq<byte>)
    requires AllWritable(fields) && i < j < |fields| && HoldsContract(fields[i]) && HoldsContract(fields[j])
    ensures VerifiedSigningHash(txId, ToHex(WriteFields(fields)), intent, sha256).Failure?
  {
    var raw := WriteFields(fields);
    CleanHex(raw);
    HexRoundTrip(raw);
    FieldsRoundTrip(fields);
    ContractByPosition(fields);
    forall contract: seq<byte> ensures !OnlyContract(fields, contract) { NotOnly(fields, contract, i, j); }
    assert |Contracts(fields)| != 1;
  }

  lemma {:induction false} NotOnly(fields: seq<Field>, contract: seq<byte>, i: nat, j: nat)
    requires i < j < |fields| && HoldsContract(fields[i]) && HoldsContract(fields[j])
    ensures !OnlyContract(fields, contract)
  {
  }
}
