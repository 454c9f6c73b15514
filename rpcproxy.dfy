/**
 * The bookkeeping of chain/eth/core/rpcproxy.go around an Ethereum JSON-RPC
 * endpoint: the URL-keyed cache of connections, the timeout default, the
 * nonce-fill policy of BuildTxUnSign and the nil guards of BuildTxSign and
 * SendTx. The remote node is an oracle: a Network object answers each
 * request from fixed answer functions and records the request in its log,
 * so "no network call" is "the log is unchanged".
 */
module RpcProxy {
  import opened Wrappers
  import opened Numerals
  import opened Codec
  import opened GoLib
  import opened Types

  /** The timeout, in seconds, used when the caller gives none. */
  const DEFAULT_TIMEOUT: int := 60

  /** An error reported by the remote node or the signing library. */
  datatype ExternalError = ExternalError(message: string)

  type PrivateKey = seq<byte>

  /** A signed transaction as the signing library returns it. */
  datatype SignedTx = SignedTx(unsigned: RawTx, chainId: int, signature: seq<byte>, hash: seq<byte>)

  /** Signing (types.SignTx with the latest signer for a chain id) is given, not modelled. */
  type Signer = (RawTx, int, PrivateKey) -> Result<SignedTx, ExternalError>

  /** A signed transaction with its hash written as 0x-prefixed hex. */
  datatype BuildTxResult = BuildTxResult(SignedTx: SignedTx, TxHex: string)

  /** The requests the proxy sends to the node, with the timeout in force. */
  datatype Request =
    | Dial(url: string, timeout: int)
    | ChainId(url: string, timeout: int)
    | PendingNonceAt(url: string, account: Address, timeout: int)
    | SendTransaction(url: string, tx: SignedTx, timeout: int)

  datatype ProxyError =
    | EmptyRpcUrl
    | AddressFormat
    | ParamEmpty
    | EmptySignedTx
    | Build(txError: TxError)
    | External(external: ExternalError)
  {
    function Message(): string
    {
      match this
      case EmptyRpcUrl => "rpc url can't be empty"
      case AddressFormat => "address format is error"
      case ParamEmpty => "param is empty"
      case EmptySignedTx => "signed transaction can't be empty"
      case Build(e) => e.Message()
      case External(e) => e.message
    }
  }

  /** The proxy's own texts differ from each other and from every GetRawTx
      text, so apart from an external error the message names the error. */
  lemma ProxyMessageIdentifiesError(p: ProxyError, q: ProxyError)
    requires !p.External? && !q.External?
    requires p.Message() == q.Message()
    ensures p == q
  {
  }

  /** A GetRawTx outcome as the proxy returns it. */
  function AsProxyResult(r: Result<RawTx, TxError>): Result<RawTx, ProxyError>
  {
    match r
    case Success(tx) => Success(tx)
    case Failure(e) => Failure(Build(e))
  }

  /** newProxy's timeout: a value that is not positive becomes the default. */
  function EffectiveTimeout(timeout: int): (t: int)
    ensures t > 0
    ensures timeout > 0 ==> t == timeout
    ensures timeout <= 0 ==> t == DEFAULT_TIMEOUT
  {
    if timeout <= 0 then DEFAULT_TIMEOUT else timeout
  }

  /** BuildTxUnSign's test for a nonce the caller left for the node to fill. */
  predicate NonceUnset(nonce: string)
  {
    nonce == "" || nonce == "0"
  }

  /** Both spellings of an unset nonce parse as nonce 0, so filling it is what changes it. */
  lemma UnsetNonceParsesZero(nonce: string)
    requires NonceUnset(nonce)
    ensures OptionalUint64(nonce, 0, InvalidNonce) == Success(0)
  {
    assert DigitValues("0", Decimal) == [0];
    assert ValueOf([0], 10) == ValueOf([], 10) * 10 + 0;
  }

  /** The nonce written back: the node's answer, or 0 when the lookup failed. */
  function NonceOrZero(r: Result<Uint64, ExternalError>): Uint64
  {
    if r.Success? then r.value else 0
  }

  /**
   * The remote node. Each answer depends on the request and on how many
   * requests came before it, which leaves the node free to answer
   * differently over time.
   */
  class Network {
    const dialAnswer: (nat, string, int) -> Option<ExternalError>
    const chainIdAnswer: (nat, string, int) -> Result<int, ExternalError>
    const nonceAnswer: (nat, string, Address, int) -> Result<Uint64, ExternalError>
    const sendAnswer: (nat, string, SignedTx, int) -> Option<ExternalError>
    var log: seq<Request>

    constructor(dialAnswer: (nat, string, int) -> Option<ExternalError>,
                chainIdAnswer: (nat, string, int) -> Result<int, ExternalError>,
                nonceAnswer: (nat, string, Address, int) -> Result<Uint64, ExternalError>,
                sendAnswer: (nat, string, SignedTx, int) -> Option<ExternalError>)
      ensures this.dialAnswer == dialAnswer && this.chainIdAnswer == chainIdAnswer
      ensures this.nonceAnswer == nonceAnswer && this.sendAnswer == sendAnswer
      ensures log == []
    {
      this.dialAnswer, this.chainIdAnswer := dialAnswer, chainIdAnswer;
      this.nonceAnswer, this.sendAnswer := nonceAnswer, sendAnswer;
      log := [];
    }

    /** rpc.DialContext. */
    method DialContext(url: string, timeout: int) returns (err: Option<ExternalError>)
      modifies this
      ensures log == old(log) + [Dial(url, timeout)]
      ensures err == dialAnswer(|old(log)|, url, timeout)
    {
      err := dialAnswer(|log|, url, timeout);
      log := log + [Dial(url, timeout)];
    }

    /** ethclient ChainID. */
    method ChainID(url: string, timeout: int) returns (r: Result<int, ExternalError>)
      modifies this
      ensures log == old(log) + [ChainId(url, timeout)]
      ensures r == chainIdAnswer(|old(log)|, url, timeout)
    {
      r := chainIdAnswer(|log|, url, timeout);
      log := log + [ChainId(url, timeout)];
    }

    /** ethclient PendingNonceAt. */
    method PendingNonce(url: string, account: Address, timeout: int) returns (r: Result<Uint64, ExternalError>)
      modifies this
      ensures log == old(log) + [PendingNonceAt(url, account, timeout)]
      ensures r == nonceAnswer(|old(log)|, url, account, timeout)
    {
      r := nonceAnswer(|log|, url, account, timeout);
      log := log + [PendingNonceAt(url, account, timeout)];
    }

    /** ethclient SendTransaction. */
    method Send(url: string, tx: SignedTx, timeout: int) returns (err: Option<ExternalError>)
      modifies this
      ensures log == old(log) + [SendTransaction(url, tx, timeout)]
      ensures err == sendAnswer(|old(log)|, url, tx, timeout)
    {
      err := sendAnswer(|log|, url, tx, timeout);
      log := log + [SendTransaction(url, tx, timeout)];
    }
  }

  /** A connection to one endpoint; its fields are set once, by newProxy. */
  class Proxy {
    const network: Network
    const Timeout: int
    const chainId: int
    const rpcUrl: string

    constructor(network: Network, timeout: int, chainId: int, rpcUrl: string)
      ensures this.network == network && Timeout == timeout
      ensures this.chainId == chainId && this.rpcUrl == rpcUrl
    {
      this.network, Timeout, this.chainId, this.rpcUrl := network, timeout, chainId, rpcUrl;
    }

    /** The pending nonce of an account, asked of the node. */
    method Nonce(spenderAddressHex: string) returns (r: Result<Uint64, ExternalError>)
      modifies network
      ensures network.log == old(network.log) + [PendingNonceAt(rpcUrl, HexToAddress(spenderAddressHex), Timeout)]
      ensures r == network.nonceAnswer(|old(network.log)|, rpcUrl, HexToAddress(spenderAddressHex), Timeout)
    {
      r := network.PendingNonce(rpcUrl, HexToAddress(spenderAddressHex), Timeout);
    }

    /**
     * Fill an unset nonce ("" or "0") from the node, in place, then build the
     * unsigned transaction. Only an unset nonce makes the sender address
     * matter; a failed lookup writes "0" and building goes on.
     */
    method BuildTxUnSign(address: string, transaction: Transaction) returns (r: Result<RawTx, ProxyError>)
      modifies transaction, network
      ensures !NonceUnset(old(transaction.Nonce)) ==>
                && transaction.Fields() == old(transaction.Fields())
                && network.log == old(network.log)
                && r == AsProxyResult(GetRawTx(old(transaction.Fields())))
      ensures NonceUnset(old(transaction.Nonce)) && !IsValidAddress(address) ==>
                && transaction.Fields() == old(transaction.Fields())
                && network.log == old(network.log)
                && r == Failure(AddressFormat)
      ensures NonceUnset(old(transaction.Nonce)) && IsValidAddress(address) ==>
                var account := HexToAddress(address);
                var answer := network.nonceAnswer(|old(network.log)|, rpcUrl, account, Timeout);
                && network.log == old(network.log) + [PendingNonceAt(rpcUrl, account, Timeout)]
                && transaction.Fields() == old(transaction.Fields()).(Nonce := FormatUint(NonceOrZero(answer)))
                && r == AsProxyResult(GetRawTx(transaction.Fields()))
    {
      if transaction.Nonce == "" || transaction.Nonce == "0" {
        assert NonceUnset(old(transaction.Nonce));
        if !IsValidAddress(address) {
          return Failure(AddressFormat);
        }
        var lookup := Nonce(address);
        var nonce := NonceOrZero(lookup);
        transaction.Nonce := FormatUint(nonce);
        assert transaction.Fields() == old(transaction.Fields()).(Nonce := FormatUint(nonce));
      } else {
        assert !NonceUnset(old(transaction.Nonce));
        assert transaction.Fields() == old(transaction.Fields());
      }
      var fields := transaction.Fields();
      r := AsProxyResult(GetRawTx(fields));
    }

    /** Sign with the proxy's chain id; a missing key or transaction is refused first. */
    function BuildTxSign(privateKey: Option<PrivateKey>, txNoSign: Option<RawTx>, sign: Signer): (r: Result<BuildTxResult, ProxyError>)
      ensures r == Failure(ParamEmpty) <==> privateKey.None? || txNoSign.None?
      ensures privateKey.Some? && txNoSign.Some? ==>
                var signed := sign(txNoSign.value, chainId, privateKey.value);
                && (r.Success? <==> signed.Success?)
                && (r.Success? ==> r.value.SignedTx == signed.value
                                   && r.value.TxHex == HexEncodeToString(signed.value.hash))
                && (r.Failure? ==> r.error == External(signed.error))
    {
      if privateKey.None? || txNoSign.None? then Failure(ParamEmpty)
      else
        var signed := sign(txNoSign.value, chainId, privateKey.value);
        if signed.Failure? then Failure(External(signed.error))
        else Success(BuildTxResult(signed.value, HexEncodeToString(signed.value.hash)))
    }

    /** Broadcast a signed transaction; a missing one is refused before any request. */
    method SendTx(signedTx: Option<SignedTx>) returns (err: Option<ProxyError>)
      modifies network
      ensures signedTx.None? ==> err == Some(EmptySignedTx) && network.log == old(network.log)
      ensures signedTx.Some? ==>
                var answer := network.sendAnswer(|old(network.log)|, rpcUrl, signedTx.value, Timeout);
                && network.log == old(network.log) + [SendTransaction(rpcUrl, signedTx.value, Timeout)]
                && (err.None? <==> answer.None?)
                && (err.Some? ==> err.value == External(answer.value))
    {
      if signedTx.None? {
        return Some(EmptySignedTx);
      }
      var sent := network.Send(rpcUrl, signedTx.value, Timeout);
      err := if sent.None? then None else Some(External(sent.value));
    }
  }

  /**
   * newProxy: normalise the timeout, dial, ask for the chain id and keep
   * both in a new Proxy. Either remote failure ends it with no proxy.
   */
  method NewProxy(network: Network, rpcUrl: string, timeout: int) returns (r: Result<Proxy, ProxyError>)
    modifies network
    ensures var t := EffectiveTimeout(timeout);
      var dialed := network.dialAnswer(|old(network.log)|, rpcUrl, t);
      var id := network.chainIdAnswer(|old(network.log)| + 1, rpcUrl, t);
      && (dialed.Some? ==> network.log == old(network.log) + [Dial(rpcUrl, t)]
                           && r == Failure(External(dialed.value)))
      && (dialed.None? ==> network.log == old(network.log) + [Dial(rpcUrl, t), ChainId(rpcUrl, t)]
                           && (r.Success? <==> id.Success?)
                           && (r.Failure? ==> r.error == External(id.error))
                           && (r.Success? ==> r.value.chainId == id.value))
    ensures r.Success? ==>
      && fresh(r.value)
      && r.value.network == network
      && r.value.rpcUrl == rpcUrl
      && r.value.Timeout == EffectiveTimeout(timeout)
  {
    var t := timeout;
    if t <= 0 {
      t := DEFAULT_TIMEOUT;
    }
    var dialed := network.DialContext(rpcUrl, t);
    if dialed.Some? {
      return Failure(External(dialed.value));
    }
    var id := network.ChainID(rpcUrl, t);
    if id.Failure? {
      return Failure(External(id.error));
    }
    var proxy := new Proxy(network, t, id.value, rpcUrl);
    r := Success(proxy);
  }

  /** The process-wide cache of proxies, keyed by RPC URL. */
  class Registry {
    const network: Network
    var chainConnections: map<string, Proxy>

    /** No entry under the empty URL; each entry was made for its URL, over
        this registry's network, with a positive timeout. */
    predicate Valid()
      reads this
    {
      && "" !in chainConnections
      && forall url :: url in chainConnections ==>
           && chainConnections[url].rpcUrl == url
           && chainConnections[url].network == network
           && chainConnections[url].Timeout > 0
    }

    constructor(network: Network)
      ensures this.network == network && chainConnections == map[]
      ensures Valid()
    {
      this.network := network;
      chainConnections := map[];
    }

    /**
     * GetProxy: the cached proxy for a URL, or a new one that is cached only
     * when it was created. A cached proxy is returned whatever timeout the
     * caller now asks for.
     */
    method GetProxy(rpcUrl: string, timeout: int) returns (r: Result<Proxy, ProxyError>)
      requires Valid()
      modifies this, network
      ensures Valid()
      ensures rpcUrl == "" ==>
                && r == Failure(EmptyRpcUrl)
                && chainConnections == old(chainConnections)
                && network.log == old(network.log)
      ensures rpcUrl in old(chainConnections) ==>
                && r == Success(old(chainConnections)[rpcUrl])
                && chainConnections == old(chainConnections)
                && network.log == old(network.log)
      ensures rpcUrl != "" && rpcUrl !in old(chainConnections) ==>
                var t := EffectiveTimeout(timeout);
                var dialed := network.dialAnswer(|old(network.log)|, rpcUrl, t);
                var id := network.chainIdAnswer(|old(network.log)| + 1, rpcUrl, t);
                && (dialed.Some? ==> network.log == old(network.log) + [Dial(rpcUrl, t)]
                                     && r == Failure(External(dialed.value)))
                && (dialed.None? ==> network.log == old(network.log) + [Dial(rpcUrl, t), ChainId(rpcUrl, t)]
                                     && (r.Success? <==> id.Success?)
                                     && (r.Failure? ==> r.error == External(id.error)))
                && (r.Success? ==>
                      && fresh(r.value)
                      && r.value.chainId == id.value
                      && r.value.rpcUrl == rpcUrl
                      && r.value.Timeout == t
                      && chainConnections == old(chainConnections)[rpcUrl := r.value])
                && (r.Failure? ==> chainConnections == old(chainConnections))
    {
      if rpcUrl == "" {
        return Failure(EmptyRpcUrl);
      }
      if rpcUrl in chainConnections {
        return Success(chainConnections[rpcUrl]);
      }
      r := NewProxy(network, rpcUrl, timeout);
      if r.Failure? {
        return;
      }
      chainConnections := chainConnections[rpcUrl := r.value];
    }
  }

  /**
   * Writing back the nonce of BuildTxUnSign changes GetRawTx's outcome only
   * in the nonce: an unset nonce parses as 0, so the same fields are
   * accepted and the same transaction is built with the node's nonce.
   */
  lemma NonceFillOnlyChangesNonce(tx: TxFields, n: Uint64)
    requires NonceUnset(tx.Nonce)
    ensures var filled := GetRawTx(tx.(Nonce := FormatUint(n)));
      && (filled.Success? <==> GetRawTx(tx).Success?)
      && (filled.Failure? ==> filled == GetRawTx(tx))
      && (filled.Success? ==> filled.value == GetRawTx(tx).value.(nonce := n))
  {
    FormatParseRoundTrip(n);
    assert ParseUint64("0") == Success(0);
    var t := tx.(Nonce := FormatUint(n));
    assert OptionalUint64(t.Nonce, 0, InvalidNonce) == Success(n);
    assert OptionalUint64(tx.Nonce, 0, InvalidNonce) == Success(0);
    if ParseFields(tx).Success? {
      assert ParseFields(t).value == ParseFields(tx).value.(nonce := n);
    }
  }
}
