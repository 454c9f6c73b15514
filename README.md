# zan-inscription-tool core, modelled in Dafny

The tool builds, signs and broadcasts Ethereum "inscription" transactions. This
project models three pieces of its core and proves properties about them:

- **the hex codec** (`chain/util/codec.go`). It drops one lower-case `0x`,
  left-pads an odd digit count with `0` and decodes. It encodes as `0x` plus
  lower-case digits. It also hex-encodes a string's UTF-8 bytes.
- **the transaction builder** (`chain/eth/core/types.go`):
  - the string-typed `Transaction` record and `GetRawTx`, which turns it into
    go-ethereum's legacy or EIP-1559 dynamic-fee shape;
  - the `CallMsg` setters that fill the parameters of a gas estimate.
- **the RPC proxy bookkeeping** (`chain/eth/core/rpcproxy.go`):
  - the process-wide cache of connections keyed by RPC URL;
  - the default timeout;
  - the nonce-fill policy of `BuildTxUnSign`;
  - the nil guards of `BuildTxSign` and `SendTx`.

Modules:

- `Wrappers`: `Option` (Go's nil) and `Result` (Go's `(T, error)`).
- `Numerals`: digit strings and the number they denote. Every hex and decimal
  format in the core is specified through `Numeral` (the value of a digit string)
  and `ValueOf` (the big-endian value of a byte sequence).
- `Codec`: `codec.go`, Go's `encoding/hex` and UTF-8 encoding.
- `GoLib`: the library routines the core calls. These are `strconv.ParseUint`,
  `strconv.FormatUint`, `big.Int.SetString`, `big.Int.Int64`, go-ethereum's
  `common.IsHexAddress` and `common.HexToAddress`, and the repository's
  `util.IsValidAddress`. Each is an assumption about the routine, written
  from its documented behaviour: their source is not part of this model.
  Like Go, `common.FromHex` measures and decodes the string's UTF-8 bytes,
  not its characters.
- `Types`: `types.go`.
  - `GetRawTx` is a pure function. It is split into the field parsers, the
    validation chain `ParseFields` and the shape choice `Shape`.
  - `Transaction` and `CallMsg` are classes whose methods assign fields in place.
- `RpcProxy`: `rpcproxy.go`.
  - The remote node is an oracle. A `Network` object answers each request
    from fixed answer functions, indexed by how many requests came before,
    and appends the request to `log`. "No network call" is stated as "the
    log is unchanged".
  - `Proxy` and the cache `Registry` are classes.

## Model

| member | source | states |
|---|---|---|
| Codec.TrimPrefix | chain/util/codec.go:9 | strings.TrimPrefix: when s starts with the prefix the result is what follows it, otherwise s itself. |
| Codec.TrimHexPrefix | chain/util/codec.go:9 | "0x" followed by t is trimmed to t. |
| Codec.DecodeString | chain/util/codec.go:15-18 | hex.DecodeString on an even-length string. The bytes it returns, read big-endian, equal the number the matching digit prefix denotes. It succeeds iff every character is a hex digit, and then returns all |d|/2 bytes. Otherwise the pair right after the returned bytes holds a non-hex character. |
| Codec.LeadingPairs | chain/util/codec.go:15 | hex.DecodeString's stopping point: every pair before it consists of hex digits, and the pair at it, if any, does not. |
| Codec.DecodePairs | chain/util/codec.go:15 | On a string of hex digits: one byte per two digits, and the bytes, read big-endian, denote the number the digits denote. |
| Codec.LeadingPairsAll | chain/util/codec.go:15-18 | hex.DecodeString decodes every pair exactly when every character is a hex digit. |
| Codec.ValueOfInjective | chain/util/codec.go:8-25 | Two byte sequences of the same length that denote the same number are equal. So the value and the length fix a decoder's output. |
| Codec.LowerNumeralInjective | chain/util/codec.go:23-25 | Two lower-case digit strings of the same length that denote the same number are equal. So the value and the length fix the encoder's output. |
| Codec.EncodeToString | chain/util/codec.go:24 | Exactly 2 lower-case digits per byte, denoting the bytes' big-endian value. |
| Codec.HexDecodeString | chain/util/codec.go:8-21 | Succeeds iff what is left after removing one lower-case "0x" is all hex digits. The byte count is then ceil(n/2) for n digits, and the bytes denote the digits' value. This fixes the odd-length left pad. On failure no bytes are returned. |
| Codec.HexEncodeToString | chain/util/codec.go:23-25 | "0x" followed by exactly 2·|b| lower-case hex digits that denote b. |
| Codec.HexRoundTrip | chain/util/codec.go:8-25 | HexDecodeString(HexEncodeToString(b)) == Success(b) for every byte sequence, the empty one included. |
| Codec.DecodeEncode | chain/util/codec.go:15-24 | hex.DecodeString undoes hex.EncodeToString completely and reports no error. |
| Codec.EncodeDecode | chain/util/codec.go:15-24 | On an even-length lower-case digit string, encoding the decoded bytes gives the string back. |
| Codec.HexCanonicalRoundTrip | chain/util/codec.go:8-25 | "0x" plus an even number of lower-case digits decodes, and re-encodes to itself. |
| Codec.OddLengthPadded | chain/util/codec.go:9-15 | An odd digit count decodes exactly as the same digits with one leading "0": "0x" + t and "0x" + ("0" + t) give the same result. |
| Codec.OddLengthReencoded | chain/util/codec.go:8-25 | An odd number of lower-case digits decodes, but re-encodes with an extra leading "0" ("0xabc" comes back as "0x0abc"). It is not the input. |
| Codec.PrefixRemovedOnce | chain/util/codec.go:9 | Only one "0x" is trimmed, so "0x0x…" always fails to decode. |
| Codec.UpperCasePrefixKept | chain/util/codec.go:9 | "0X" is not trimmed, so "0X…" always fails to decode. |
| Codec.EncodeRune | chain/util/codec.go:28 | A character's UTF-8 form: 1 byte below U+0080, 2 below U+0800, 3 below U+10000, 4 otherwise. The lead byte is below 0x80, in [0xC0, 0xE0), [0xE0, 0xF0) or [0xF0, 0xF8) for 1, 2, 3 or 4 bytes; every continuation byte is in [0x80, 0xC0). The bytes carry the character's code point. |
| Codec.Utf8 | chain/util/codec.go:28 | []byte(s): between |s| and 4·|s| bytes. |
| Codec.AsciiUtf8 | chain/util/codec.go:28 | On ASCII text []byte(s) has one byte per character, each byte the character's code. |
| Codec.TextToHex | chain/util/codec.go:27-29 | TextToHex(s) is HexEncodeToString of the UTF-8 bytes of s. |
| Codec.TextToHexDecodes | chain/util/codec.go:8-29 | Decoding TextToHex(s) gives back the UTF-8 bytes of s. |
| GoLib.ParseUint64 | chain/eth/core/types.go:126-135 | strconv.ParseUint(s, 10, 64) succeeds iff s is a non-empty decimal string whose value is below 2^64, and then returns that value. The error kind is that of the first problem met from the left. The empty string is a syntax error. So is a non-digit reached while the digits before it still fit. A digit prefix whose value reaches 2^64 is a range error. |
| GoLib.ScanFromStart | chain/eth/core/types.go:127 | ParseUint's digit loop, run over a whole non-empty string, succeeds iff the string is decimal with a value below 2^64, returns that value, and stops with a range error on a decimal string that does not fit. |
| GoLib.ScanDecimalValue | chain/eth/core/types.go:127 | On a decimal string, the digit loop resumed after a prefix, with that prefix's value in hand, ends with the whole value, or with a range error when the value does not fit. |
| GoLib.ScanDecimalRejects | chain/eth/core/types.go:127 | A non-digit anywhere ahead makes the digit loop fail. |
| GoLib.ScanDecimalSyntax | chain/eth/core/types.go:127 | The digit loop reaching a non-digit while the value read so far fits fails with a syntax error. |
| GoLib.ScanDecimalRange | chain/eth/core/types.go:127 | A digit prefix whose value reaches 2^64 stops the loop with a range error, whatever follows. |
| GoLib.ScanStopsEarly | chain/eth/core/types.go:127 | From the start of the string: a syntax error at the first non-digit reached in range, a range error at a prefix out of range. |
| GoLib.ParseUintValue | chain/eth/core/types.go:38-40 | The number ParseUint returns beside its error, which SetGasLimit stores: 0 for the empty string, the value for a decimal string below 2^64, 2^64 - 1 for a decimal string above it. A syntax error gives 0, so SetGasLimit("12a") stores 0. A range error gives 2^64 - 1. |
| GoLib.FormatUint | chain/eth/core/rpcproxy.go:158 | strconv.FormatUint: a non-empty decimal string that denotes n, with no leading zero except for "0" itself. |
| GoLib.FormatParseRoundTrip | chain/eth/core/rpcproxy.go:158 | ParseUint of FormatUint(n) gives n back, for every 64-bit n. |
| GoLib.ParseBigInt | chain/eth/core/types.go:111-125 | big.Int.SetString(s, base). A non-empty string of base digits is accepted with the value it denotes. A '+' or '-' followed by such digits gives that value with the sign. The empty string and a bare sign are rejected. Any other character, such as '.', a space, 'x' or 'e', or a sign past the first position, gives nil. Without a leading '-' the value is not negative. |
| GoLib.ParseBigIntExtendsParseUint64 | chain/eth/core/types.go:111-135 | Every string that strconv accepts as a uint64 is read to the same value by big.Int.SetString. |
| GoLib.BigInt64 | chain/eth/core/types.go:146 | Int64() always lies in the signed 64-bit range. |
| GoLib.BigInt64Zero | chain/eth/core/types.go:146 | Int64() is zero exactly for the multiples of 2^64, not only for zero. |
| GoLib.IsHexAddress | chain/eth/core/types.go:136 | An accepted string is 40 characters long, or 42 with a 0x/0X prefix. |
| GoLib.IsValidAddress | chain/eth/core/rpcproxy.go:150 | An accepted address is 40 or 42 characters long. |
| GoLib.ByteChars | chain/eth/core/types.go:139 | The byte view of a string has one character per byte, each with that byte's code. |
| GoLib.HexDigitsByteChars | chain/eth/core/types.go:139 | A string of hex digits is its own byte view. |
| GoLib.Hex2Bytes | chain/eth/core/types.go:139 | common.Hex2Bytes, which does not pad. An even number of hex digits gives n/2 bytes denoting the digits' value. An odd number gives the bytes of the pairs before the last digit ("abc" gives [0xab]). |
| GoLib.PadToEven | chain/eth/core/types.go:139 | FromHex's pad: the length becomes even by at most one leading '0', the original follows it, and a digit string keeps its value. |
| GoLib.FromHex | chain/eth/core/types.go:139 | After an optional 0x/0X prefix, an odd byte count is padded with a leading '0' before Hex2Bytes. So a string of hex digits gives ceil(n/2) bytes denoting its value. |
| GoLib.FromHexCountsBytes | chain/eth/core/types.go:139 | FromHex measures and decodes UTF-8 bytes, not characters: two hex digits then a two-byte character is an even byte count, so nothing is padded and only the first pair is decoded. |
| GoLib.BytesToAddress | chain/eth/core/types.go:139 | The last 20 bytes are kept in place, a shorter input is left-padded with zero bytes, and 20 bytes are kept as they are. |
| GoLib.HexToAddress | chain/eth/core/types.go:139 | A hex address gives the 20 bytes whose value its 40 digits denote; an empty string, or a bare prefix, gives all zero bytes. |
| GoLib.HexToAddressEmpty | chain/eth/core/types.go:139 | HexToAddress("") is the all-zero address. |
| GoLib.HexToAddressOfHexAddress | chain/eth/core/types.go:136-139 | For a string that passes IsHexAddress, HexToAddress gives the 20 bytes whose value the 40 digits denote. |
| GoLib.AddressHexRoundTrip | chain/eth/core/types.go:136-139 | Every address's hex form passes IsHexAddress and converts back to the same address. |
| Types.OptionalAmount | chain/eth/core/types.go:111-125 | An empty amount stays nil. A non-empty one fails with the field's error iff big.Int.SetString rejects it, and is otherwise its parsed value. |
| Types.OptionalUint64 | chain/eth/core/types.go:126-135 | An empty nonce or gas limit takes its default. A non-empty one fails with the field's error iff it is not a decimal below 2^64, and is otherwise the value it denotes. |
| Types.OptionalData | chain/eth/core/types.go:140-144 | Empty data is no bytes. Otherwise it fails with "invalid data string" iff HexDecodeString fails, and is otherwise the decoded bytes. |
| Types.Recipient | chain/eth/core/types.go:136-139 | A non-empty To that is not a hex address fails with "invalid toAddress". Every other To, the empty one included, becomes HexToAddress(To). |
| Types.ParseFields | chain/eth/core/types.go:111-144 | The validation chain succeeds iff every field step accepts its string. The parsed record then holds each step's value. |
| Types.Shape | chain/eth/core/types.go:146-167 | The result is legacy iff the priority fee is nil or Int64() of it is zero, i.e. the fee is a multiple of 2^64. A legacy result carries the gas price. A dynamic-fee result carries the gas price as fee cap and the fee as tip. Nonce, recipient, value, gas and data pass through unchanged. |
| Types.GetRawTx | chain/eth/core/types.go:100-168 | On success, an empty Nonce gives nonce 0, an empty GasLimit gives gas 90000, empty Data gives no data, and an empty priority fee gives the legacy shape. |
| Types.ValidationOrder | chain/eth/core/types.go:111-144 | GetRawTx fails with a field's error iff that field is rejected and no field earlier in the order gasPrice, value, priority fee, nonce, gas limit, to, data is rejected. A rejected field is non-empty and not of the field's form. |
| Types.SucceedsIffNoFieldRejected | chain/eth/core/types.go:111-144 | GetRawTx produces a transaction iff no field is rejected. |
| Types.AcceptedFields | chain/eth/core/types.go:104-144 | On success: the nonce and gas are the values of their decimal strings; the recipient is the zero address for an empty To and otherwise the 20 bytes the address digits denote; data is the decoded hex; value is the parsed amount. |
| Types.ShapeSelection | chain/eth/core/types.go:146-167 | On success the result is legacy iff the priority fee is empty or a multiple of 2^64. A legacy result carries the parsed gas price. A dynamic-fee result carries the gas price as fee cap and the parsed fee as tip. |
| Types.SharedFieldsAcrossShapes | chain/eth/core/types.go:146-167 | Changing only the priority fee leaves nonce, recipient, value, gas and data of the result unchanged. |
| Types.NonceFieldRoundTrip | chain/eth/core/types.go:126-130 | Writing FormatUint(n) into Nonce never causes "invalid Nonce", yields nonce n, and succeeds exactly when an empty Nonce would. |
| Types.Transaction.NewTransaction | chain/eth/core/types.go:88-90 | Each argument lands in its same-named field, although the priority fee is the 4th parameter and the last field. |
| Types.MessageIdentifiesError | chain/eth/core/types.go:113-142 | The seven GetRawTx error texts are pairwise different, so the text names the failing field. |
| Types.Transaction.MaxFee | chain/eth/core/types.go:92-94 | MaxFee() reads the GasPrice field. |
| Types.Transaction.SetMaxFee | chain/eth/core/types.go:92-98 | MaxFee() then returns the new value. Only GasPrice changes. |
| Types.CallMsg.NewCallMsg | chain/eth/core/types.go:25-27 | Every call parameter starts at its zero value: zero sender, no recipient, gas 0, nil price and value, no data. |
| Types.CallMsg.SetFrom | chain/eth/core/types.go:37 | Only From changes, to HexToAddress of the argument. |
| Types.CallMsg.SetGasLimit | chain/eth/core/types.go:38-41 | Only Gas changes, to ParseUint's value with its error dropped. A valid string stores its value. |
| Types.CallMsg.SetGasPrice | chain/eth/core/types.go:42-45 | Only GasPrice changes, to the decimal parse, nil when malformed. |
| Types.CallMsg.SetValue | chain/eth/core/types.go:48-51 | Only Value changes, to the decimal parse, nil when malformed. |
| Types.CallMsg.SetValueHex | chain/eth/core/types.go:54-58 | Only Value changes, to the base-16 parse after one "0x" is trimmed. |
| Types.CallMsg.SetData | chain/eth/core/types.go:59 | Only Data changes, to the given bytes. |
| Types.CallMsg.SetDataHex | chain/eth/core/types.go:60-66 | Invalid hex leaves the message unchanged. Valid hex changes only Data, to the decoded bytes. |
| Types.CallMsg.SetTo | chain/eth/core/types.go:67-74 | "" clears the recipient. Any other string sets it to HexToAddress of the string. Nothing else changes. |
| RpcProxy.EffectiveTimeout | chain/eth/core/rpcproxy.go:73-75 | The timeout in force is positive: a positive request is kept, and anything else becomes 60. |
| RpcProxy.ProxyMessageIdentifiesError | chain/eth/core/rpcproxy.go:39-180 | The proxy's own error texts ("rpc url can't be empty", "address format is error", "param is empty", "signed transaction can't be empty") differ from each other and from every GetRawTx text, so apart from a passed-on external error the message names the error. |
| RpcProxy.UnsetNonceParsesZero | chain/eth/core/rpcproxy.go:149 | Both spellings of an unset nonce, "" and "0", parse as nonce 0. |
| RpcProxy.Network.DialContext | chain/eth/core/rpcproxy.go:79-82 | The dial is one logged request, answered by the oracle. |
| RpcProxy.Network.ChainID | chain/eth/core/rpcproxy.go:85-88 | The chain-id query is one logged request, answered by the oracle. |
| RpcProxy.Network.PendingNonce | chain/eth/core/rpcproxy.go:141 | The pending-nonce query is one logged request, answered by the oracle. |
| RpcProxy.Network.Send | chain/eth/core/rpcproxy.go:184 | The broadcast is one logged request, answered by the oracle. |
| RpcProxy.Proxy.constructor | chain/eth/core/rpcproxy.go:90-96 | A proxy stores its network, timeout, chain id and URL. |
| RpcProxy.Proxy.Nonce | chain/eth/core/rpcproxy.go:138-146 | One PendingNonceAt request, for HexToAddress of the given string, with the proxy's URL and timeout. The node's answer is returned. |
| RpcProxy.Proxy.BuildTxUnSign | chain/eth/core/rpcproxy.go:148-161 | A set nonce (not "" or "0") means no request, no change, and the result of GetRawTx on the transaction as it is. An unset nonce with an invalid address means "address format is error", no request and no change. Otherwise there is exactly one nonce request, and the caller's Nonce field alone is overwritten with the decimal form of the answer, or "0" when the lookup failed. The result is GetRawTx on the updated transaction. |
| RpcProxy.Proxy.BuildTxSign | chain/eth/core/rpcproxy.go:163-176 | "param is empty" iff the key or the transaction is missing. Otherwise the transaction is signed with the proxy's chain id. A signing error is passed on. On success the hash is returned as 0x-prefixed lower-case hex. |
| RpcProxy.Proxy.SendTx | chain/eth/core/rpcproxy.go:178-189 | A missing transaction fails with "signed transaction can't be empty" before any request. Otherwise exactly one SendTransaction request is made, and its error is returned. |
| RpcProxy.NewProxy | chain/eth/core/rpcproxy.go:72-98 | The request log is the dial, then the chain-id query only if the dial succeeded. Both use the normalised timeout. Either failure gives no proxy. A success gives a fresh proxy with this URL, network, normalised timeout and the reported chain id. |
| RpcProxy.Registry.constructor | chain/eth/core/rpcproxy.go:19 | The cache starts empty and satisfies its invariant. |
| RpcProxy.Registry.GetProxy | chain/eth/core/rpcproxy.go:37-65 | The call keeps the cache invariant. "" fails with "rpc url can't be empty" and changes nothing. A cached URL returns the stored proxy, whatever the timeout, with no request. Any other URL logs exactly a dial at the normalised timeout and, only if the dial succeeds, a chain-id query. A failed dial or a failed query is returned as that external error. The call succeeds iff both succeed; the cache then gains exactly that URL, mapped to a fresh proxy with the URL, the normalised timeout and the reported chain id. On failure the cache is unchanged, so a later call retries. |
| RpcProxy.NonceFillOnlyChangesNonce | chain/eth/core/rpcproxy.go:149-160 | For a transaction whose nonce is unset, filling in FormatUint(n) does not change whether GetRawTx succeeds, nor which error it reports. It only replaces the nonce of the built transaction with n. |

## Left out

- Transport, contexts and concurrency.
  - Dialing, JSON-RPC, contexts and their deadlines are abstracted by the
    `Network` oracle. Timeouts appear only as the value that is stored and
    passed along.
  - The `sync.RWMutex` and the second, locked cache lookup in `GetProxy`
    (rpcproxy.go:47-55) are not modelled. In a sequential model that lookup
    always misses once the first one has.
- Library code with no logic of the repository's own.
  - Signing and hashing (`types.SignTx`, `LatestSignerForChainID`,
    `Transaction.Hash`) are a `Signer` function parameter. The signed
    transaction carries its hash.
  - `types.NewTx`'s own treatment of nil amounts is not modelled. A nil
    amount stays `None` in `RawTx`.
- `Proxy.Close` (rpcproxy.go:100-107) only closes library clients.
- `EstimateGasLimit` (rpcproxy.go:109-136) depends on `config`, which is not
  part of this model, and scales the gas by a floating-point factor.
- The `CallMsg` getters (types.go:29-35) are one-line conversions to strings
  and are not modelled.
- Files outside the core are not part of this model: `account.go` (keys,
  HD wallets), `feature/token.go`, `app/app.go`, `app/log.go`, `main.go` and
  `transfer_test.go`.
- Error payloads: a hex decoding error is a single `InvalidHex`, without the
  offending byte, and a strconv error is `ErrSyntax` or `ErrRange`, without
  the input text.
- Strings are sequences of Unicode scalar values. Go strings holding bytes that
  are not valid UTF-8 cannot be written down, so `[]byte(s)` is always the UTF-8
  encoding.
- GoLib.IsValidAddress: the source of `util.IsValidAddress` is not part of
  this model, so it is assumed to accept what `common.IsHexAddress` accepts.
- Types.Shape: a priority fee that is a non-zero multiple of 2^64 gives the
  legacy shape, as the `Int64() == 0` test at types.go:146 does, and the fee is
  then dropped. A negative fee gives the dynamic-fee shape with a negative tip,
  which GetRawTx itself does not reject.
- Integer widths: `Timeout` is an unbounded integer rather than an `int64`.
  The seconds-to-duration product at rpcproxy.go:77 is not modelled.
