/**
 * The vocabulary the core shares with the Steam networking transport: ids,
 * opaque handles, connection states, status-change events, queued inbound
 * messages, and the side-effecting transport calls the core issues.
 */
module Transport {

  type byte = x: int | 0 <= x < 256
  type Bytes = seq<byte>

  /** A 64-bit Steam id (`ulong` / `CSteamID`); 0 is `CSteamID.Nil`. */
  type PeerId = nat
  const Nil: PeerId := 0

  /** `HSteamNetConnection` and `HSteamListenSocket`; 0 is the `Invalid` handle of both. */
  type Handle = nat
  const InvalidHandle: Handle := 0

  /** `CSteamID.IsValid`, reduced to "not Nil" (see README). */
  predicate IsValidId(id: PeerId) {
    id != Nil
  }

  /** `EResult.k_EResultOK`. */
  const ResultOK: int := 1

  /** `ESteamNetworkingConnectionState`. */
  datatype ConnectionState =
    | StateNone | Connecting | FindingRoute | Connected
    | ClosedByPeer | ProblemDetectedLocally | FinWait | Linger | Dead

  /** The fields of `SteamNetConnectionStatusChangedCallback_t` the core reads. */
  datatype StatusEvent = StatusEvent(
    conn: Handle,               // m_hConn
    listener: Handle,           // m_info.m_hListenSocket
    remote: PeerId,             // m_info.m_identityRemote
    oldState: ConnectionState,  // m_eOldState
    newState: ConnectionState)  // m_info.m_eState

  /** A received `SteamNetworkingMessage_t`: `m_cbSize` and the bytes at `m_pData`. */
  datatype NetMessage = NetMessage(size: nat, data: Bytes)
  type Message = m: NetMessage | m.size <= |m.data| witness NetMessage(0, [])

  /** The transport's per-connection queues of messages not yet received. */
  type Inbox = map<Handle, seq<Message>>

  function QueueOf(inbox: Inbox, h: Handle): seq<Message> {
    if h in inbox then inbox[h] else []
  }

  /** Side-effecting calls into the transport, in the order the core issues them. */
  datatype TransportCall =
    | ConnectP2P(peer: PeerId)
    | CreateListenSocketP2P
    | AcceptConnection(handle: Handle)
    | CloseConnection(handle: Handle, linger: bool)
    | CloseListenSocket(listener: Handle)
    | SendMessage(handle: Handle, payload: Bytes)
}
