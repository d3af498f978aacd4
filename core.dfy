/**
 * Types shared by the HTTP source stream and the rest of the servent:
 * the optional value used for the source's nulls, stop reasons, connection
 * status and the monitoring report.
 */
module Core {

  /** `null` in the source becomes `None`. */
  datatype Option<+T> = None | Some(value: T)

  /**
   * Why a source connection ended. The source's `StopReason.None` (no stop
   * recorded yet) is `NoReason` here, so that it does not clash with `Option.None`.
   */
  datatype StopReason =
    | NoReason
    | UserReconnect
    | UserShutdown
    | ConnectionError
    | OffAir
    | UnavailableError

  datatype ConnectionStatus = Idle | Connecting | Connected | Error

  datatype ConnectionType = Source

  /** The locality flag of a report: the source's `RemoteHostStatus.None` is `Unclassified`. */
  datatype RemoteHostStatus = Unclassified | Local

  type IPAddress = seq<int>

  datatype EndPoint = EndPoint(address: IPAddress, port: int)

  /**
   * What `System.Uri` contributes: its printed form, `DnsSafeHost`, `Port`
   * (-1 when the URI has none) and `PathAndQuery`.
   */
  datatype Uri = Uri(text: string, host: string, port: int, pathAndQuery: string)

  /** A point-in-time monitoring report (receive and send rates are not modelled). */
  datatype ConnectionInfo = ConnectionInfo(
    protocolName: string,
    connectionType: ConnectionType,
    status: ConnectionStatus,
    remoteName: string,
    remoteEndPoint: Option<EndPoint>,
    remoteHostStatus: RemoteHostStatus,
    contentPosition: Option<int>,
    agentName: string)

  /** The exceptions the source's connection code catches. */
  datatype Failure =
    | InvalidData          // InvalidDataException
    | OperationCanceled    // OperationCanceledException (a timeout or cancellation)
    | EndOfStream          // EndOfStreamException, an IOException
    | IOFailure            // any other IOException
}
