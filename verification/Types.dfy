/** Value types shared by the model: the enums of src/types.rs and the strategy records
    of src/graph.rs. Floating-point fields are reals. */
module Types {

  datatype Option<+T> = None | Some(value: T)

  function Min(a: nat, b: nat): nat { if a < b then a else b }

  datatype Result<+T> = Ok(value: T) | Err(message: string)

  datatype ProbeOutcome =
    | Success | Timeout | TcpReset | TlsAlert | HttpBlockPage | EmptyResponse | DnsFailure
    | NetworkUnreachable | Refused | Cancelled | InternalError | BodyTooSmall

  datatype FailureKind = StrategyFailure | InfrastructureFailure | TargetFailure | Cancelled

  datatype ProbeErrorClass =
    | SocketCreateFailed | BindFailed | LocalAddrFailed | QueueUnavailable | FirewallInstallFailed
    | FirewallRemoveFailed | NfqwsStartFailed | NfqwsExitedEarly | NfqwsStopFailed | ConnectTimeout
    | ConnectFailed | TlsTimeout | TlsFailed | FirstByteTimeout | ReadTimeout | ReadFailed
    | InvalidHttpResponse | CurlFailed | ProcessFailed | Cancelled | InternalError | BodyTooSmall

  datatype ProbeProtocol = HttpPlain | Tls12Http11 | Tls13Http11 | QuicHttp3Future {
    function DefaultPort(): nat {
      if HttpPlain? then 80 else 443
    }
  }

  datatype HttpMethod = Get | Head

  datatype ReadMode = Headers | Body | Full

  /** The part of a probe result that any decision in the model depends on. */
  datatype ProbeResult = ProbeResult(
    outcome: ProbeOutcome,
    failureKind: Option<FailureKind>,
    errorClass: Option<ProbeErrorClass>)

  datatype StrategyComponent = StrategyComponent(family: string, actionId: string, args: seq<string>)

  datatype StrategyNode = StrategyNode(
    id: string,
    family: string,
    actionId: string,
    args: seq<string>,
    components: seq<StrategyComponent>,
    isCombined: bool,
    cost: real,
    risk: real,
    prior: (real, real))
}
