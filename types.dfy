/**
 * The transaction builder of chain/eth/core/types.go: the string-typed
 * Transaction record, its conversion GetRawTx into one of go-ethereum's two
 * unsigned transaction shapes, and the CallMsg gas-estimation parameters.
 */
module Types {
  import opened Wrappers
  import opened Numerals
  import opened Codec
  import opened GoLib

  /** The gas limit used when the GasLimit field is empty. */
  const DEFAULT_GAS_LIMIT: Uint64 := 90000

  /** The field-specific errors of GetRawTx. */
  datatype TxError =
    | InvalidGasPrice
    | InvalidValue
    | InvalidMaxPriorityFeePerGas
    | InvalidNonce
    | InvalidGasLimit
    | InvalidToAddress
    | InvalidDataString
  {
    /** The text of the error GetRawTx returns. */
    function Message(): string
    {
      match this
      case InvalidGasPrice => "invalid gasPrice"
      case InvalidValue => "invalid value"
      case InvalidMaxPriorityFeePerGas => "invalid max priority fee per gas"
      case InvalidNonce => "invalid Nonce"
      case InvalidGasLimit => "invalid gas limit"
      case InvalidToAddress => "invalid toAddress"
      case InvalidDataString => "invalid data string"
    }
  }

  /** Each error has its own text, so a caller can tell the failing field
      from the message alone. */
  lemma MessageIdentifiesError(e1: TxError, e2: TxError)
    requires e1.Message() == e2.Message()
    ensures e1 == e2
  {
  }

  /** The seven string fields of a Transaction, in the struct's order. */
  datatype TxFields = TxFields(
    Nonce: string,
    GasPrice: string,
    GasLimit: string,
    To: string,
    Value: string,
    Data: string,
    MaxPriorityFeePerGas: string)

  /**
   * An unsigned go-ethereum transaction: LegacyTx or DynamicFeeTx (EIP-1559).
   * A None amount is the nil *big.Int left by an empty field. The recipient
   * is always present.
   */
  datatype RawTx =
    | LegacyTx(nonce: Uint64, to: Address, value: Option<int>, gas: Uint64,
               gasPrice: Option<int>, data: seq<byte>)
    | DynamicFeeTx(nonce: Uint64, to: Address, value: Option<int>, gas: Uint64,
                   gasFeeCap: Option<int>, gasTipCap: int, data: seq<byte>)

  /** An optional decimal amount: the empty string leaves it nil, anything
      else must be a decimal big integer or the step fails with err. */
  function OptionalAmount(s: string, err: TxError): (r: Result<Option<int>, TxError>)
    ensures r.Failure? <==> s != "" && ParseBigInt(s, Decimal).None?
    ensures r.Failure? ==> r.error == err
    ensures r.Success? ==> r.value == (if s == "" then None else ParseBigInt(s, Decimal))
  {
    if s == "" then Success(None)
    else
      var v := ParseBigInt(s, Decimal);
      if v.None? then Failure(err) else Success(Some(v.value))
  }

  /** An optional unsigned 64-bit decimal: the empty string gives the
      default, anything else must parse or the step fails with err. */
  function OptionalUint64(s: string, default: Uint64, err: TxError): (r: Result<Uint64, TxError>)
    ensures r.Failure? <==> s != "" && !(AllDigits(s, Decimal) && Numeral(s, Decimal) < TWO_64)
    ensures r.Failure? ==> r.error == err
    ensures r.Success? && s == "" ==> r.value == default
    ensures r.Success? && s != "" ==> AllDigits(s, Decimal) && r.value == Numeral(s, Decimal)
  {
    if s == "" then Success(default)
    else
      var v := ParseUint64(s);
      if v.Failure? then Failure(err) else Success(v.value)
  }

  /** Optional hex data: the empty string is no data, anything else must
      decode after one "0x" is trimmed. */
  function OptionalData(s: string): (r: Result<seq<byte>, TxError>)
    ensures r.Failure? <==> s != "" && !AllDigits(TrimPrefix(s, "0x"), Hexadecimal)
    ensures r.Failure? ==> r.error == InvalidDataString
    ensures r.Success? && s == "" ==> r.value == []
    ensures r.Success? && s != "" ==> HexDecodeString(s) == Success(r.value)
  {
    if s == "" then Success([])
    else
      var v := HexDecodeString(s);
      if v.Failure? then Failure(InvalidDataString) else Success(v.value)
  }

  /** The recipient: a non-empty string must be a hex address; the empty
      string becomes the zero address. */
  function Recipient(s: string): (r: Result<Address, TxError>)
    ensures r.Failure? <==> s != "" && !IsHexAddress(s)
    ensures r.Failure? ==> r.error == InvalidToAddress
    ensures r.Success? ==> r.value == HexToAddress(s)
  {
    if s != "" && !IsHexAddress(s) then Failure(InvalidToAddress) else Success(HexToAddress(s))
  }

  /** Every field of a Transaction after parsing, before the shape is chosen. */
  datatype Parsed = Parsed(
    gasPrice: Option<int>,
    value: Option<int>,
    maxPriorityFeePerGas: Option<int>,
    nonce: Uint64,
    gasLimit: Uint64,
    to: Address,
    data: seq<byte>)

  /** The validation half of GetRawTx: each field in the source's order,
      stopping at the first failure. */
  function ParseFields(tx: TxFields): (r: Result<Parsed, TxError>)
    ensures r.Success? <==>
      && OptionalAmount(tx.GasPrice, InvalidGasPrice).Success?
      && OptionalAmount(tx.Value, InvalidValue).Success?
      && OptionalAmount(tx.MaxPriorityFeePerGas, InvalidMaxPriorityFeePerGas).Success?
      && OptionalUint64(tx.Nonce, 0, InvalidNonce).Success?
      && OptionalUint64(tx.GasLimit, DEFAULT_GAS_LIMIT, InvalidGasLimit).Success?
      && Recipient(tx.To).Success?
      && OptionalData(tx.Data).Success?
    ensures r.Success? ==> r.value == Parsed(
      OptionalAmount(tx.GasPrice, InvalidGasPrice).value,
      OptionalAmount(tx.Value, InvalidValue).value,
      OptionalAmount(tx.MaxPriorityFeePerGas, InvalidMaxPriorityFeePerGas).value,
      OptionalUint64(tx.Nonce, 0, InvalidNonce).value,
      OptionalUint64(tx.GasLimit, DEFAULT_GAS_LIMIT, InvalidGasLimit).value,
      Recipient(tx.To).value,
      OptionalData(tx.Data).value)
  {
    var gasPrice := OptionalAmount(tx.GasPrice, InvalidGasPrice);
    if gasPrice.Failure? then Failure(gasPrice.error) else
    var value := OptionalAmount(tx.Value, InvalidValue);
    if value.Failure? then Failure(value.error) else
    var fee := OptionalAmount(tx.MaxPriorityFeePerGas, InvalidMaxPriorityFeePerGas);
    if fee.Failure? then Failure(fee.error) else
    var nonce := OptionalUint64(tx.Nonce, 0, InvalidNonce);
    if nonce.Failure? then Failure(nonce.error) else
    var gasLimit := OptionalUint64(tx.GasLimit, DEFAULT_GAS_LIMIT, InvalidGasLimit);
    if gasLimit.Failure? then Failure(gasLimit.error) else
    var to := Recipient(tx.To);
    if to.Failure? then Failure(to.error) else
    var data := OptionalData(tx.Data);
    if data.Failure? then Failure(data.error) else
    Success(Parsed(gasPrice.value, value.value, fee.value, nonce.value, gasLimit.value, to.value, data.value))
  }

  /** The shape step of GetRawTx: legacy when the priority fee is nil or its
      Int64() is zero, dynamic-fee with the gas price as fee cap otherwise. */
  function Shape(p: Parsed): (r: RawTx)
    ensures r.nonce == p.nonce && r.to == p.to && r.value == p.value && r.gas == p.gasLimit && r.data == p.data
    ensures r.LegacyTx? <==> p.maxPriorityFeePerGas.None? || p.maxPriorityFeePerGas.value % TWO_64 == 0
    ensures r.LegacyTx? ==> r.gasPrice == p.gasPrice
    ensures r.DynamicFeeTx? ==> r.gasFeeCap == p.gasPrice && Some(r.gasTipCap) == p.maxPriorityFeePerGas
  {
    match p.maxPriorityFeePerGas
    case None => LegacyTx(p.nonce, p.to, p.value, p.gasLimit, p.gasPrice, p.data)
    case Some(fee) =>
      BigInt64Zero(fee);
      if BigInt64(fee) == 0 then LegacyTx(p.nonce, p.to, p.value, p.gasLimit, p.gasPrice, p.data)
      else DynamicFeeTx(p.nonce, p.to, p.value, p.gasLimit, p.gasPrice, fee, p.data)
  }

  /**
   * Transaction.GetRawTx: parse gasPrice, value, priority fee, nonce, gas
   * limit, recipient and data in that order, failing on the first non-empty
   * field that does not parse; then choose the transaction shape.
   */
  function GetRawTx(tx: TxFields): (r: Result<RawTx, TxError>)
    ensures r.Success? && tx.Nonce == "" ==> r.value.nonce == 0
    ensures r.Success? && tx.GasLimit == "" ==> r.value.gas == DEFAULT_GAS_LIMIT
    ensures r.Success? && tx.Data == "" ==> r.value.data == []
    ensures r.Success? && tx.MaxPriorityFeePerGas == "" ==> r.value.LegacyTx?
  {
    match ParseFields(tx)
    case Failure(e) => Failure(e)
    case Success(p) => Success(Shape(p))
  }

  /** The fields GetRawTx checks, named for the reference definition below. */
  datatype Field = GasPriceField | ValueField | PriorityFeeField | NonceField
                 | GasLimitField | ToField | DataField

  /** The position of a field in GetRawTx's validation order. */
  function Rank(k: Field): nat
  {
    match k
    case GasPriceField => 0
    case ValueField => 1
    case PriorityFeeField => 2
    case NonceField => 3
    case GasLimitField => 4
    case ToField => 5
    case DataField => 6
  }

  function ErrorFor(k: Field): TxError
  {
    match k
    case GasPriceField => InvalidGasPrice
    case ValueField => InvalidValue
    case PriorityFeeField => InvalidMaxPriorityFeePerGas
    case NonceField => InvalidNonce
    case GasLimitField => InvalidGasLimit
    case ToField => InvalidToAddress
    case DataField => InvalidDataString
  }

  /** Field k holds a non-empty string that is not of the field's form:
      a decimal big integer, a decimal below 2^64, a hex address or hex data. */
  predicate Rejects(tx: TxFields, k: Field)
  {
    match k
    case GasPriceField => tx.GasPrice != "" && ParseBigInt(tx.GasPrice, Decimal).None?
    case ValueField => tx.Value != "" && ParseBigInt(tx.Value, Decimal).None?
    case PriorityFeeField =>
      tx.MaxPriorityFeePerGas != "" && ParseBigInt(tx.MaxPriorityFeePerGas, Decimal).None?
    case NonceField =>
      tx.Nonce != "" && !(AllDigits(tx.Nonce, Decimal) && Numeral(tx.Nonce, Decimal) < TWO_64)
    case GasLimitField =>
      tx.GasLimit != "" && !(AllDigits(tx.GasLimit, Decimal) && Numeral(tx.GasLimit, Decimal) < TWO_64)
    case ToField => tx.To != "" && !IsHexAddress(tx.To)
    case DataField => tx.Data != "" && !AllDigits(TrimPrefix(tx.Data, "0x"), Hexadecimal)
  }

  /** GetRawTx fails with a field's error exactly when that field is the
      first rejected one in the order gasPrice, value, priority fee, nonce,
      gas limit, to, data. */
  lemma ValidationOrder(tx: TxFields, k: Field)
    ensures GetRawTx(tx) == Failure(ErrorFor(k)) <==>
              Rejects(tx, k) && forall j :: Rank(j) < Rank(k) ==> !Rejects(tx, j)
  {
    AmountChecks(tx);
    CounterChecks(tx);
    RecipientCheck(tx);
    DataCheck(tx);
    forall j | Rank(j) < Rank(k) && GetRawTx(tx) == Failure(ErrorFor(k)) ensures !Rejects(tx, j) {
      match j
      case GasPriceField =>
      case ValueField =>
      case PriorityFeeField =>
      case NonceField =>
      case GasLimitField =>
      case ToField =>
      case DataField =>
    }
    match k
    case GasPriceField =>
    case ValueField =>
    case PriorityFeeField =>
    case NonceField =>
    case GasLimitField =>
    case ToField =>
    case DataField =>
  }

  /** The amount steps of ParseFields fail exactly when their field is rejected. */
  lemma AmountChecks(tx: TxFields)
    ensures Rejects(tx, GasPriceField) == OptionalAmount(tx.GasPrice, InvalidGasPrice).Failure?
    ensures Rejects(tx, ValueField) == OptionalAmount(tx.Value, InvalidValue).Failure?
    ensures Rejects(tx, PriorityFeeField) ==
              OptionalAmount(tx.MaxPriorityFeePerGas, InvalidMaxPriorityFeePerGas).Failure?
  {
    assert Rejects(tx, GasPriceField) <==> tx.GasPrice != "" && ParseBigInt(tx.GasPrice, Decimal).None?;
    assert Rejects(tx, ValueField) <==> tx.Value != "" && ParseBigInt(tx.Value, Decimal).None?;
    assert Rejects(tx, PriorityFeeField) <==>
             tx.MaxPriorityFeePerGas != "" && ParseBigInt(tx.MaxPriorityFeePerGas, Decimal).None?;
  }

  /** The nonce and gas limit steps fail exactly when their field is rejected. */
  lemma CounterChecks(tx: TxFields)
    ensures Rejects(tx, NonceField) == OptionalUint64(tx.Nonce, 0, InvalidNonce).Failure?
    ensures Rejects(tx, GasLimitField) ==
              OptionalUint64(tx.GasLimit, DEFAULT_GAS_LIMIT, InvalidGasLimit).Failure?
  {
    assert Rejects(tx, NonceField) <==>
             tx.Nonce != "" && !(AllDigits(tx.Nonce, Decimal) && Numeral(tx.Nonce, Decimal) < TWO_64);
    assert Rejects(tx, GasLimitField) <==>
             tx.GasLimit != "" && !(AllDigits(tx.GasLimit, Decimal) && Numeral(tx.GasLimit, Decimal) < TWO_64);
  }

  /** The recipient step fails exactly when To is rejected. */
  lemma RecipientCheck(tx: TxFields)
    ensures Rejects(tx, ToField) == Recipient(tx.To).Failure?
  {
    assert Rejects(tx, ToField) <==> tx.To != "" && !IsHexAddress(tx.To);
    assert Recipient(tx.To).Failure? <==> tx.To != "" && !IsHexAddress(tx.To);
  }

  /** The data step fails exactly when Data is rejected. */
  lemma DataCheck(tx: TxFields)
    ensures Rejects(tx, DataField) == OptionalData(tx.Data).Failure?
  {
    assert Rejects(tx, DataField) <==> tx.Data != "" && !AllDigits(TrimPrefix(tx.Data, "0x"), Hexadecimal);
  }

  /** GetRawTx succeeds exactly when no field is rejected. */
  lemma SucceedsIffNoFieldRejected(tx: TxFields)
    ensures GetRawTx(tx).Success? <==> forall k :: !Rejects(tx, k)
  {
    AmountChecks(tx);
    CounterChecks(tx);
    RecipientCheck(tx);
    DataCheck(tx);
    if GetRawTx(tx).Success? {
      forall k ensures !Rejects(tx, k) {
        match k
        case GasPriceField =>
        case ValueField =>
        case PriorityFeeField =>
        case NonceField =>
        case GasLimitField =>
        case ToField =>
        case DataField =>
      }
    }
  }

  /** On success, each field holds what its string denotes, with the
      defaults nonce 0 and gas limit 90000 for empty fields. */
  lemma AcceptedFields(tx: TxFields)
    requires GetRawTx(tx).Success?
    ensures var r := GetRawTx(tx).value;
      && (tx.Nonce != "" ==> AllDigits(tx.Nonce, Decimal) && r.nonce == Numeral(tx.Nonce, Decimal))
      && (tx.GasLimit != "" ==> AllDigits(tx.GasLimit, Decimal) && r.gas == Numeral(tx.GasLimit, Decimal))
      && (tx.To == "" ==> r.to == ZERO_ADDRESS)
      && (tx.To != "" ==> IsHexAddress(tx.To) && ValueOf(r.to, 256) == Numeral(Without0x(tx.To), Hexadecimal))
      && (tx.Data != "" ==> HexDecodeString(tx.Data) == Success(r.data))
      && r.value == (if tx.Value == "" then None else ParseBigInt(tx.Value, Decimal))
  {
    var p := ParseFields(tx).value;
    assert GetRawTx(tx).value == Shape(p);
    assert p.to == Recipient(tx.To).value;
    if tx.To == "" {
      HexToAddressEmpty();
    }
  }

  /** The shape: legacy exactly when the priority fee is empty or a multiple
      of 2^64 (Int64() == 0); the fee fields carry gasPrice and the fee. */
  lemma ShapeSelection(tx: TxFields)
    requires GetRawTx(tx).Success?
    ensures var r := GetRawTx(tx).value;
      var fee := ParseBigInt(tx.MaxPriorityFeePerGas, Decimal);
      var gasPrice := if tx.GasPrice == "" then None else ParseBigInt(tx.GasPrice, Decimal);
      && (tx.MaxPriorityFeePerGas != "" ==> fee.Some?)
      && (r.LegacyTx? <==> tx.MaxPriorityFeePerGas == "" || fee.value % TWO_64 == 0)
      && (r.LegacyTx? ==> r.gasPrice == gasPrice)
      && (r.DynamicFeeTx? ==> r.gasFeeCap == gasPrice && r.gasTipCap == fee.value)
  {
    var p := ParseFields(tx).value;
    assert GetRawTx(tx).value == Shape(p);
  }

  /** The priority fee decides only the shape and the fee fields: nonce,
      recipient, value, gas and data do not depend on it. */
  lemma SharedFieldsAcrossShapes(tx: TxFields, fee: string)
    requires GetRawTx(tx).Success?
    requires GetRawTx(tx.(MaxPriorityFeePerGas := fee)).Success?
    ensures var a, b := GetRawTx(tx).value, GetRawTx(tx.(MaxPriorityFeePerGas := fee)).value;
      a.nonce == b.nonce && a.to == b.to && a.value == b.value && a.gas == b.gas && a.data == b.data
  {
  }

  /** Writing the decimal form of a nonce into the Nonce field makes GetRawTx
      use exactly that nonce and never introduces a nonce error. */
  lemma NonceFieldRoundTrip(tx: TxFields, n: Uint64)
    ensures GetRawTx(tx.(Nonce := FormatUint(n))) != Failure(InvalidNonce)
    ensures GetRawTx(tx.(Nonce := FormatUint(n))).Success? ==> GetRawTx(tx.(Nonce := FormatUint(n))).value.nonce == n
    ensures GetRawTx(tx.(Nonce := FormatUint(n))).Success? <==> GetRawTx(tx.(Nonce := "")).Success?
  {
    FormatParseRoundTrip(n);
    var t := tx.(Nonce := FormatUint(n));
    var u := tx.(Nonce := "");
    assert OptionalUint64(t.Nonce, 0, InvalidNonce) == Success(n);
    assert ParseFields(t).Success? <==> ParseFields(u).Success?;
    if ParseFields(t).Success? {
      assert GetRawTx(t).value == Shape(ParseFields(t).value);
    }
  }

  /** A Transaction: the record the caller fills in and BuildTxUnSign updates. */
  class Transaction {
    var Nonce: string
    var GasPrice: string
    var GasLimit: string
    var To: string
    var Value: string
    var Data: string
    var MaxPriorityFeePerGas: string

    function Fields(): TxFields
      reads this
    {
      TxFields(Nonce, GasPrice, GasLimit, To, Value, Data, MaxPriorityFeePerGas)
    }

    /** NewTransaction: the priority fee is the fourth argument but the last field. */
    constructor NewTransaction(nonce: string, gasPrice: string, gasLimit: string,
                               maxPriorityFeePerGas: string, to: string, value: string, data: string)
      ensures Fields() == TxFields(nonce, gasPrice, gasLimit, to, value, data, maxPriorityFeePerGas)
      ensures Fields().MaxPriorityFeePerGas == maxPriorityFeePerGas && Fields().To == to
    {
      Nonce, GasPrice, GasLimit, To, Value, Data, MaxPriorityFeePerGas :=
        nonce, gasPrice, gasLimit, to, value, data, maxPriorityFeePerGas;
    }

    /** The EIP-1559 fee cap is stored in GasPrice. */
    function MaxFee(): (fee: string)
      reads this
      ensures fee == Fields().GasPrice
    {
      GasPrice
    }

    method SetMaxFee(maxFee: string)
      modifies this
      ensures MaxFee() == maxFee
      ensures Fields() == old(Fields()).(GasPrice := maxFee)
    {
      GasPrice := maxFee;
    }
  }

  /** ethereum.CallMsg: the parameters of a gas estimate. Nil amounts are None. */
  datatype CallParams = CallParams(
    From: Address,
    To: Option<Address>,
    Gas: Uint64,
    GasPrice: Option<int>,
    Value: Option<int>,
    Data: seq<byte>)

  /** CallMsg: a mutable holder of CallParams, set field by field. */
  class CallMsg {
    var Msg: CallParams

    /** NewCallMsg: every field at its zero value. */
    constructor NewCallMsg()
      ensures Msg == CallParams(ZERO_ADDRESS, None, 0, None, None, [])
    {
      Msg := CallParams(ZERO_ADDRESS, None, 0, None, None, []);
    }

    method SetFrom(address: string)
      modifies this
      ensures Msg == old(Msg).(From := HexToAddress(address))
    {
      Msg := Msg.(From := HexToAddress(address));
    }

    /** The parse error is dropped: a syntax error stores 0 and an
        out-of-range value stores 2^64 - 1. */
    method SetGasLimit(gas: string)
      modifies this
      ensures Msg == old(Msg).(Gas := ParseUintValue(gas))
      ensures ParseUint64(gas).Success? ==> Msg.Gas == ParseUint64(gas).value
    {
      Msg := Msg.(Gas := ParseUintValue(gas));
    }

    /** A malformed price stores nil. */
    method SetGasPrice(price: string)
      modifies this
      ensures Msg == old(Msg).(GasPrice := ParseBigInt(price, Decimal))
    {
      Msg := Msg.(GasPrice := ParseBigInt(price, Decimal));
    }

    /** A malformed amount stores nil. */
    method SetValue(value: string)
      modifies this
      ensures Msg == old(Msg).(Value := ParseBigInt(value, Decimal))
    {
      Msg := Msg.(Value := ParseBigInt(value, Decimal));
    }

    /** One lower-case "0x" is trimmed, the rest read in base 16; a
        malformed amount stores nil. */
    method SetValueHex(hex: string)
      modifies this
      ensures Msg == old(Msg).(Value := ParseBigInt(TrimPrefix(hex, "0x"), Hexadecimal))
    {
      var digits := TrimPrefix(hex, "0x");
      Msg := Msg.(Value := ParseBigInt(digits, Hexadecimal));
    }

    method SetData(data: seq<byte>)
      modifies this
      ensures Msg == old(Msg).(Data := data)
    {
      Msg := Msg.(Data := data);
    }

    /** Invalid hex leaves Data as it was. */
    method SetDataHex(hex: string)
      modifies this
      ensures HexDecodeString(hex).Failure? ==> Msg == old(Msg)
      ensures HexDecodeString(hex).Success? ==> Msg == old(Msg).(Data := HexDecodeString(hex).value)
    {
      var data := HexDecodeString(hex);
      if data.Failure? {
        return;
      }
      Msg := Msg.(Data := data.value);
    }

    /** The empty string clears the recipient; any other string sets it. */
    method SetTo(address: string)
      modifies this
      ensures address == "" ==> Msg == old(Msg).(To := None)
      ensures address != "" ==> Msg == old(Msg).(To := Some(HexToAddress(address)))
    {
      if address == "" {
        Msg := Msg.(To := None);
      } else {
        var a := HexToAddress(address);
        Msg := Msg.(To := Some(a));
      }
    }
  }
}
