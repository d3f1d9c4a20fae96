/**
 * `Client`: a lobby member's single connection to the lobby owner's server.
 * It sends one connection request at a time, learns the answer from the
 * connection's own status table, and drops the connection on every close,
 * whichever side closed it.
 */
module Clients {
  import opened Wrappers
  import opened Transport
  import opened Connections
  import Closer = ConnectionCloser
  import Receiver = MessageReceiver
  import opened Lobbies

  /** The C# events of `Client`. */
  datatype ClientEvent =
    | ConnectionRequestAccepted
    | ConnectionRequestRejected
    | ConnectionClosedByClient
    | ConnectionClosedByServer

  /** Where the client stands: no connection, a request awaiting its answer, or connected. */
  datatype Phase = Idle | Connecting | Connected

  /** The moves the client makes: Idle to Connecting, Connecting to Connected, and from anywhere back to Idle. */
  predicate Allowed(from: Phase, to: Phase) {
    || from == to
    || (from == Idle && to == Phase.Connecting)
    || (from == Phase.Connecting && to == Phase.Connected)
    || to == Idle
  }

  class Client {
    /** `IsConnected`: the server accepted the current request. */
    var isConnected: bool
    /** `Connection`: the outbound connection whose events the client handles; `None` for `null`. */
    var connection: Option<Connection>
    /** The transport calls issued so far. */
    var calls: seq<TransportCall>

    /**
     * The client only holds an outbound connection with a valid handle that is
     * still subscribed to status changes, and it is connected only through one.
     */
    ghost predicate Valid()
      reads this
    {
      && (isConnected ==> connection.Some?)
      && (connection.Some? ==> connection.value.role == Local(true) && connection.value.handle != InvalidHandle)
    }

    /** The phase the fields encode. */
    function CurrentPhase(): Phase
      reads this
    {
      if connection.None? then Idle else if isConnected then Phase.Connected else Phase.Connecting
    }

    constructor ()
      ensures Valid() && CurrentPhase() == Idle
      ensures !isConnected && connection.None? && calls == []
    {
      isConnected, connection, calls := false, None, [];
    }

    /**
     * `Connect`: inside a lobby, with no connection held, asks the transport
     * for a connection to the lobby owner and keeps it when the handle is
     * valid. The answer arrives later as a status change; the method itself
     * always returns false.
     */
    method Connect(lobby: Lobby, steamOwner: PeerId, transportHandle: Handle) returns (ok: bool)
      requires Valid()
      modifies this
      ensures Valid()
      ensures Allowed(old(CurrentPhase()), CurrentPhase())
      ensures !ok
      ensures isConnected == old(isConnected)
      ensures lobby.IsValid() && !old(isConnected) && old(connection).None? ==>
        var owner := lobby.OwnerID(steamOwner);
        && calls == old(calls) + [ConnectP2P(owner)]
        && connection == (if transportHandle != InvalidHandle then Some(NewLocal(owner, transportHandle)) else None)
      ensures !(lobby.IsValid() && !old(isConnected) && old(connection).None?) ==> unchanged(this)
    {
      if lobby.IsValid() && !isConnected && connection.None? {
        var owner := lobby.OwnerID(steamOwner);
        calls := calls + [ConnectP2P(owner)];
        if transportHandle != InvalidHandle {
          connection := Some(NewLocal(owner, transportHandle));
        }
      }
      return false;
    }

    /** `Invalidate`: the handlers are unwired and the connection forgotten. */
    method Invalidate()
      modifies this
      ensures Valid()
      ensures !isConnected && connection.None? && calls == old(calls)
    {
      connection := None;
      isConnected := false;
    }

    /**
     * `Disconnect`: only a connected client linger-closes its connection,
     * forgets it and reports the close as its own. A request still awaiting
     * its answer is not withdrawn.
     */
    method Disconnect() returns (evs: seq<ClientEvent>)
      requires Valid()
      modifies this
      ensures Valid()
      ensures Allowed(old(CurrentPhase()), CurrentPhase())
      ensures !isConnected
      ensures old(isConnected) ==>
        && connection.None?
        && calls == old(calls) + [Closer.CloseOpenConnection(old(connection).value)]
        && evs == [ConnectionClosedByClient]
      ensures !old(isConnected) ==> evs == [] && unchanged(this)
    {
      evs := [];
      if isConnected {
        calls := calls + [Closer.CloseOpenConnection(connection.value)];
        Invalidate();
        evs := [ConnectionClosedByClient];
      }
    }

    /** `OnLobbyLeft`, wired to the lobby's Left and Kicked: a connected client disconnects. */
    method OnLobbyLeft() returns (evs: seq<ClientEvent>)
      requires Valid()
      modifies this
      ensures Valid()
      ensures Allowed(old(CurrentPhase()), CurrentPhase())
      ensures !isConnected
      ensures old(isConnected) ==>
        && connection.None?
        && calls == old(calls) + [Closer.CloseOpenConnection(old(connection).value)]
        && evs == [ConnectionClosedByClient]
      ensures !old(isConnected) ==> evs == [] && unchanged(this)
    {
      evs := [];
      if isConnected {
        evs := Disconnect();
      }
    }

    /**
     * A status change delivered to the held connection: its own table
     * (`LocalConnection`) decides the outcome and the client's handler for
     * that outcome runs. Accepted connects; Rejected and a close by the
     * server close the dead connection without linger, a local problem closes
     * it with linger; every one of these forgets the connection.
     */
    method OnConnectionStatusChanged(ev: StatusEvent) returns (evs: seq<ClientEvent>)
      requires Valid()
      modifies this
      ensures Valid()
      ensures Allowed(old(CurrentPhase()), CurrentPhase())
      ensures old(connection).None? ==> evs == [] && unchanged(this)
      ensures old(connection).Some? ==>
        var c := old(connection).value;
        var o := OnStatusChanged(c, ev).1;
        && (o.None? ==> evs == [] && unchanged(this))
        && (o == Some(Accepted) ==>
              isConnected && connection == old(connection) && calls == old(calls)
              && evs == [ConnectionRequestAccepted])
        && (o == Some(Rejected) ==>
              !isConnected && connection.None? && calls == old(calls) + [Closer.CloseDeadConnection(c)]
              && evs == [ConnectionRequestRejected])
        && (o == Some(ClosedByLocalHost) ==>
              !isConnected && connection.None? && calls == old(calls) + [Closer.CloseOpenConnection(c)]
              && evs == [ConnectionClosedByClient])
        && (o == Some(ClosedByRemoteHost) ==>
              !isConnected && connection.None? && calls == old(calls) + [Closer.CloseDeadConnection(c)]
              && evs == [ConnectionClosedByServer])
    {
      evs := [];
      if connection.Some? {
        var c := connection.value;
        match OnStatusChanged(c, ev).1
        case None =>
        case Some(Accepted) =>
          isConnected := true;
          evs := [ConnectionRequestAccepted];
        case Some(Rejected) =>
          calls := calls + [Closer.CloseDeadConnection(c)];
          Invalidate();
          evs := [ConnectionRequestRejected];
        case Some(ClosedByLocalHost) =>
          calls := calls + [Closer.CloseOpenConnection(c)];
          Invalidate();
          evs := [ConnectionClosedByClient];
        case Some(ClosedByRemoteHost) =>
          calls := calls + [Closer.CloseDeadConnection(c)];
          Invalidate();
          evs := [ConnectionClosedByServer];
      }
    }

    /** `SendMessage`: only a connected client sends, on its connection. */
    method SendMessage(buffer: Bytes)
      requires Valid()
      modifies this
      ensures Valid()
      ensures isConnected == old(isConnected) && connection == old(connection)
      ensures calls == if isConnected
                       then old(calls) + [TransportCall.SendMessage(connection.value.handle, buffer)]
                       else old(calls)
    {
      if isConnected {
        calls := calls + [TransportCall.SendMessage(connection.value.handle, buffer)];
      }
    }

    /**
     * `PollMessages`: a connected client takes one batch off its connection's
     * transport queue; otherwise `None` (the source's `null`) and every queue
     * is untouched.
     */
    method PollMessages(inbox: Inbox) returns (batch: Option<seq<Bytes>>, inbox': Inbox)
      requires Valid()
      ensures !isConnected ==> batch.None? && inbox' == inbox
      ensures isConnected ==>
        var h := connection.value.handle;
        && batch == Some(Receiver.Batch(QueueOf(inbox, h)))
        && inbox' == inbox[h := QueueOf(inbox, h)[|batch.value|..]]
    {
      batch, inbox' := None, inbox;
      if isConnected {
        var h := connection.value.handle;
        var buffers, rest := Receiver.Receive(QueueOf(inbox, h));
        batch := Some(buffers);
        inbox' := inbox[h := rest];
      }
    }
  }
}
