/**
 * `ListenSocket`: the server side's pool of inbound connections. It owns the
 * listen-socket handle and two lists of `RemoteConnection`s, the requests
 * still pending and the connections accepted and open, and reports every
 * change to its subscribers as a pool event.
 */
module ListenSockets {
  import opened Wrappers
  import opened Lists
  import opened Transport
  import opened Connections
  import Closer = ConnectionCloser
  import Receiver = MessageReceiver

  /** The five C# events of `ListenSocket`, each carrying the remote Steam id. */
  datatype PoolEvent =
    | ConnectionRequested(id: PeerId)
    | ConnectionAccepted(id: PeerId)
    | ConnectionRejected(id: PeerId)
    | ConnectionClosedByLocalHost(id: PeerId)
    | ConnectionClosedByRemoteHost(id: PeerId)

  /** The Steam ids of a list of connections, position by position. */
  function Ids(cs: seq<Connection>): (ids: seq<PeerId>)
    ensures |ids| == |cs|
    ensures forall i :: 0 <= i < |cs| ==> ids[i] == cs[i].identity
  {
    seq(|cs|, i requires 0 <= i < |cs| => cs[i].identity)
  }

  /** `List.Find(con => con.ID64 == id)`: the position of the first connection with that id. */
  function Find(cs: seq<Connection>, id: PeerId): (r: Option<nat>)
    ensures r.Some? <==> id in Ids(cs)
    ensures r.Some? ==> r.value < |cs| && cs[r.value].identity == id
    ensures r.Some? ==> forall i :: 0 <= i < r.value ==> cs[i].identity != id
  {
    var r := IndexOf(Ids(cs), id);
    if r.Some? then
      assert forall i :: 0 <= i < r.value ==> Ids(cs)[i] in Ids(cs)[..r.value];
      r
    else r
  }

  /** What `Close` reports: one ClosedByLocalHost per connection, in list order. */
  function LocalCloseEvents(cs: seq<Connection>): (evs: seq<PoolEvent>)
    ensures |evs| == |cs|
    ensures forall i :: 0 <= i < |cs| ==> evs[i] == ConnectionClosedByLocalHost(cs[i].identity)
  {
    seq(|cs|, i requires 0 <= i < |cs| => ConnectionClosedByLocalHost(cs[i].identity))
  }

  /** What `Close` asks of the transport: one linger close per connection, in list order. */
  function LingerCloses(cs: seq<Connection>): (calls: seq<TransportCall>)
    ensures |calls| == |cs|
    ensures forall i :: 0 <= i < |cs| ==> calls[i] == Closer.CloseOpenHandle(cs[i].handle)
  {
    seq(|cs|, i requires 0 <= i < |cs| => Closer.CloseOpenHandle(cs[i].handle))
  }

  lemma IdsAppend(cs: seq<Connection>, c: Connection)
    ensures Ids(cs + [c]) == Ids(cs) + [c.identity]
  {
    assert Ids(cs + [c]) == Ids(cs) + [c.identity];
  }

  lemma IdsRemoveAt(cs: seq<Connection>, k: nat)
    requires k < |cs|
    ensures Ids(RemoveAt(cs, k)) == RemoveAt(Ids(cs), k)
  {
    assert Ids(RemoveAt(cs, k)) == RemoveAt(Ids(cs), k);
  }

  lemma InIds(cs: seq<Connection>, c: Connection)
    requires c in cs
    ensures c.identity in Ids(cs)
  {
    var i :| 0 <= i < |cs| && cs[i] == c;
    assert Ids(cs)[i] == c.identity;
  }

  /**
   * The pool invariant on values: no Steam id is twice in one list or both
   * pending and open; a closed socket holds no connections; every held
   * connection arrived on the current listener and is still wired to the pool.
   */
  ghost predicate PoolValid(handle: Handle, pending: seq<Connection>, open: seq<Connection>, subscribed: set<Connection>) {
    && NoDuplicates(Ids(pending)) && NoDuplicates(Ids(open))
    && (forall id :: id in Ids(pending) ==> id !in Ids(open))
    && (handle == InvalidHandle ==> pending == [] && open == [])
    && (forall c :: c in pending || c in open ==> c.role == Remote(handle) && c in subscribed)
  }

  /**
   * Taking the k-th pending request out of the pending list, and appending it
   * to the open list when it is accepted, keeps the pool valid; its id is then
   * pending no more, and open exactly when it was accepted.
   */
  lemma TakePending(h: Handle, p: seq<Connection>, o: seq<Connection>, s: set<Connection>, k: nat, accept: bool)
    requires PoolValid(h, p, o, s)
    requires k < |p|
    ensures var o' := if accept then o + [p[k]] else o;
      && PoolValid(h, RemoveAt(p, k), o', s)
      && p[k].identity !in Ids(RemoveAt(p, k))
      && (p[k].identity in Ids(o') <==> accept)
  {
    var id := p[k].identity;
    assert Ids(p)[k] == id;
    IdsRemoveAt(p, k);
    RemoveAtNoDuplicates(Ids(p), k);
    RemoveAtMembers(Ids(p), k);
    RemoveAtMembers(p, k);
    if accept {
      IdsAppend(o, p[k]);
      AppendNoDuplicates(Ids(o), id);
    }
  }

  /** Taking the k-th open connection out of the open list keeps the pool valid, and its id is open no more. */
  lemma TakeOpen(h: Handle, p: seq<Connection>, o: seq<Connection>, s: set<Connection>, k: nat)
    requires PoolValid(h, p, o, s)
    requires k < |o|
    ensures PoolValid(h, p, RemoveAt(o, k), s)
    ensures o[k].identity !in Ids(RemoveAt(o, k))
  {
    assert Ids(o)[k] == o[k].identity;
    IdsRemoveAt(o, k);
    RemoveAtNoDuplicates(Ids(o), k);
    RemoveAtMembers(Ids(o), k);
    RemoveAtMembers(o, k);
  }

  /**
   * Dropping connection `c`, from the pending list if it is there and from
   * the open list otherwise, and unwiring it keeps the pool valid, and `c`
   * is then in neither list.
   */
  lemma Drop(h: Handle, p: seq<Connection>, o: seq<Connection>, s: set<Connection>, c: Connection)
    requires PoolValid(h, p, o, s)
    ensures var p' := if c in p then RemoveFirst(p, c) else p;
      var o' := if c in p then o else RemoveFirst(o, c);
      PoolValid(h, p', o', s - {c}) && c !in p' && c !in o'
  {
    if c in p {
      var k := IndexOf(p, c).value;
      TakePending(h, p, o, s, k, false);
      var p' := RemoveAt(p, k);
      if c in p' { InIds(p', c); }
      InIds(p, c);
      if c in o { InIds(o, c); }
    } else if c in o {
      var k := IndexOf(o, c).value;
      TakeOpen(h, p, o, s, k);
      var o' := RemoveAt(o, k);
      if c in o' { InIds(o', c); }
    }
  }

  /** A request from an id the pool does not hold, on the current listener, keeps the pool valid. */
  lemma AddPending(h: Handle, p: seq<Connection>, o: seq<Connection>, s: set<Connection>, c: Connection)
    requires PoolValid(h, p, o, s)
    requires h != InvalidHandle && c.role == Remote(h)
    requires c.identity !in Ids(o) + Ids(p)
    ensures PoolValid(h, p + [c], o, s + {c})
  {
    IdsAppend(p, c);
    AppendNoDuplicates(Ids(p), c.identity);
  }

  class ListenSocket {
    /** `ListenSocketHandle`; `InvalidHandle` while the socket is closed. */
    var handle: Handle
    /** `OpenConnections`: accepted connections, in acceptance order. */
    var open: seq<Connection>
    /** `PendingConnections`: requests not yet accepted or rejected, in arrival order. */
    var pending: seq<Connection>
    /** The connections whose close events are wired to this socket's handlers. */
    var subscribed: set<Connection>
    /** The transport calls issued so far. */
    var calls: seq<TransportCall>

    /** The pool invariant, `PoolValid`, on the current fields. */
    ghost predicate Valid()
      reads this
    {
      PoolValid(handle, pending, open, subscribed)
    }

    constructor ()
      ensures Valid()
      ensures handle == InvalidHandle && open == [] && pending == [] && subscribed == {} && calls == []
    {
      handle, open, pending, subscribed, calls := InvalidHandle, [], [], {}, [];
    }

    predicate IsOpen()
      reads this
    {
      handle != InvalidHandle
    }

    /** `IsAffectedByCallback`: the event concerns this socket's (valid) listener. */
    predicate IsAffectedByCallback(ev: StatusEvent)
      reads this
    {
      handle != InvalidHandle && handle == ev.listener
    }

    /**
     * `Open`: only a closed socket asks the transport for a listener, and it
     * reports success only when the handle it gets back is valid.
     */
    method Open(transportHandle: Handle) returns (ok: bool)
      requires Valid()
      modifies this
      ensures Valid()
      ensures ok <==> old(handle) == InvalidHandle && transportHandle != InvalidHandle
      ensures old(handle) == InvalidHandle ==>
        handle == transportHandle && calls == old(calls) + [CreateListenSocketP2P]
      ensures old(handle) != InvalidHandle ==> handle == old(handle) && calls == old(calls)
      ensures open == old(open) && pending == old(pending) && subscribed == old(subscribed)
    {
      ok := false;
      if handle == InvalidHandle {
        calls := calls + [CreateListenSocketP2P];
        handle := transportHandle;
        ok := handle != InvalidHandle;
      }
    }

    /**
     * `Close`: linger-closes every open, then every pending connection,
     * reporting each as closed by the local host, empties both lists, closes
     * the listener and ends invalid whatever the transport answers. On a
     * closed socket it does nothing.
     */
    method Close() returns (evs: seq<PoolEvent>)
      requires Valid()
      modifies this
      ensures Valid()
      ensures old(handle) == InvalidHandle ==> evs == [] && unchanged(this)
      ensures old(handle) != InvalidHandle ==>
        && evs == LocalCloseEvents(old(open) + old(pending))
        && calls == old(calls) + LingerCloses(old(open) + old(pending)) + [CloseListenSocket(old(handle))]
        && open == [] && pending == [] && handle == InvalidHandle
        && subscribed == old(subscribed) - set c | c in old(open) + old(pending)
    {
      evs := [];
      if handle != InvalidHandle {
        var all := open + pending;
        var i := 0;
        while i < |all|
          invariant 0 <= i <= |all|
          invariant evs == LocalCloseEvents(all[..i])
          invariant calls == old(calls) + LingerCloses(all[..i])
          invariant subscribed == old(subscribed) - set c | c in all[..i]
          invariant unchanged(`handle, `open, `pending)
        {
          var c := all[i];
          subscribed := subscribed - {c};
          calls := calls + [Closer.CloseOpenHandle(c.handle)];
          evs := evs + [ConnectionClosedByLocalHost(c.identity)];
          assert all[..i + 1] == all[..i] + [c];
          i := i + 1;
        }
        assert all[..i] == all;
        open, pending := [], [];
        calls := calls + [CloseListenSocket(handle)];
        handle := InvalidHandle;
      }
    }

    /**
     * `AcceptRequest`: a pending request is asked to be accepted. On OK it
     * moves to the open list and is reported accepted; on any other result it
     * is linger-closed and reported closed by the local host. Either way it
     * leaves the pending list. An unknown id or a closed socket changes nothing.
     */
    method AcceptRequest(id: PeerId, result: int) returns (evs: seq<PoolEvent>)
      requires Valid()
      modifies this
      ensures Valid()
      ensures handle == old(handle) && subscribed == old(subscribed)
      ensures id !in Ids(pending)
      ensures (old(handle) == InvalidHandle || id !in Ids(old(pending))) ==> evs == [] && unchanged(this)
      ensures old(handle) != InvalidHandle && id in Ids(old(pending)) ==>
        var k := Find(old(pending), id).value;
        var c := old(pending)[k];
        && pending == RemoveAt(old(pending), k)
        && (result == ResultOK ==>
              && open == old(open) + [c]
              && calls == old(calls) + [AcceptConnection(c.handle)]
              && evs == [ConnectionAccepted(id)])
        && (result != ResultOK ==>
              && open == old(open)
              && calls == old(calls) + [AcceptConnection(c.handle), Closer.CloseOpenConnection(c)]
              && evs == [ConnectionClosedByLocalHost(id)])
      ensures old(handle) != InvalidHandle && id in Ids(old(pending)) ==>
        (id in Ids(open) <==> result == ResultOK)
    {
      evs := [];
      if handle != InvalidHandle {
        var found := Find(pending, id);
        if found.Some? {
          var k := found.value;
          var c := pending[k];
          TakePending(handle, pending, open, subscribed, k, result == ResultOK);
          if result == ResultOK {
            open, pending := open + [c], RemoveAt(pending, k);
            calls := calls + [AcceptConnection(c.handle)];
            evs := [ConnectionAccepted(id)];
          } else {
            pending := RemoveAt(pending, k);
            calls := calls + [AcceptConnection(c.handle), Closer.CloseOpenConnection(c)];
            evs := [ConnectionClosedByLocalHost(id)];
          }
        }
      }
    }

    /**
     * `RejectRequest`: a pending request is closed without linger, leaves the
     * pending list and is reported rejected. An unknown id or a closed socket
     * changes nothing.
     */
    method RejectRequest(id: PeerId) returns (evs: seq<PoolEvent>)
      requires Valid()
      modifies this
      ensures Valid()
      ensures handle == old(handle) && open == old(open) && subscribed == old(subscribed)
      ensures id !in Ids(pending)
      ensures (old(handle) == InvalidHandle || id !in Ids(old(pending))) ==> evs == [] && unchanged(this)
      ensures old(handle) != InvalidHandle && id in Ids(old(pending)) ==>
        var k := Find(old(pending), id).value;
        && pending == RemoveAt(old(pending), k)
        && calls == old(calls) + [Closer.CloseDeadConnection(old(pending)[k])]
        && evs == [ConnectionRejected(id)]
    {
      evs := [];
      if handle != InvalidHandle {
        var found := Find(pending, id);
        if found.Some? {
          var k := found.value;
          TakePending(handle, pending, open, subscribed, k, false);
          calls := calls + [Closer.CloseDeadConnection(pending[k])];
          pending := RemoveAt(pending, k);
          evs := [ConnectionRejected(id)];
        }
      }
    }

    /**
     * `CloseConnection`: an open connection is linger-closed, leaves the open
     * list and is reported closed by the local host. An unknown id or a
     * closed socket changes nothing.
     */
    method CloseConnection(id: PeerId) returns (evs: seq<PoolEvent>)
      requires Valid()
      modifies this
      ensures Valid()
      ensures handle == old(handle) && pending == old(pending) && subscribed == old(subscribed)
      ensures id !in Ids(open)
      ensures (old(handle) == InvalidHandle || id !in Ids(old(open))) ==> evs == [] && unchanged(this)
      ensures old(handle) != InvalidHandle && id in Ids(old(open)) ==>
        var k := Find(old(open), id).value;
        && open == RemoveAt(old(open), k)
        && calls == old(calls) + [Closer.CloseOpenConnection(old(open)[k])]
        && evs == [ConnectionClosedByLocalHost(id)]
    {
      evs := [];
      if handle != InvalidHandle {
        var found := Find(open, id);
        if found.Some? {
          var k := found.value;
          TakeOpen(handle, pending, open, subscribed, k);
          calls := calls + [Closer.CloseOpenConnection(open[k])];
          open := RemoveAt(open, k);
          evs := [ConnectionClosedByLocalHost(id)];
        }
      }
    }

    /**
     * `OnConnectionClosedByLocalHost` / `OnConnectionClosedByRemoteHost`, the
     * handlers wired to each connection: the connection leaves the pending
     * list if it is there and the open list otherwise, is closed without
     * linger, is unwired and is reported closed by the side that closed it.
     * Nothing here looks at whether the socket is open.
     */
    method OnConnectionClosed(c: Connection, byRemoteHost: bool) returns (evs: seq<PoolEvent>)
      requires Valid()
      modifies this
      ensures Valid()
      ensures handle == old(handle)
      ensures c in old(pending) ==> pending == RemoveFirst(old(pending), c) && open == old(open)
      ensures c !in old(pending) ==> pending == old(pending) && open == RemoveFirst(old(open), c)
      ensures c !in pending && c !in open
      ensures subscribed == old(subscribed) - {c}
      ensures calls == old(calls) + [Closer.CloseDeadConnection(c)]
      ensures evs == [if byRemoteHost then ConnectionClosedByRemoteHost(c.identity)
                      else ConnectionClosedByLocalHost(c.identity)]
    {
      Drop(handle, pending, open, subscribed, c);
      var inPending := c in pending;
      var p' := if inPending then RemoveFirst(pending, c) else pending;
      var o' := if inPending then open else RemoveFirst(open, c);
      pending, open, subscribed := p', o', subscribed - {c};
      calls := calls + [Closer.CloseDeadConnection(c)];
      evs := [if byRemoteHost then ConnectionClosedByRemoteHost(c.identity)
              else ConnectionClosedByLocalHost(c.identity)];
    }

    /**
     * A status change delivered to one of the socket's inbound connections:
     * the connection's own table (`RemoteConnection`) decides the outcome, and
     * a close outcome reaches the socket's handler only while the connection
     * is still wired to it.
     */
    method OnConnectionStatusChanged(c: Connection, ev: StatusEvent) returns (evs: seq<PoolEvent>)
      requires Valid()
      requires c.role.Remote?
      modifies this
      ensures Valid()
      ensures handle == old(handle)
      ensures var o := OnStatusChanged(c, ev).1;
        if o.Some? && c in old(subscribed) then
          && subscribed == old(subscribed) - {c}
          && calls == old(calls) + [Closer.CloseDeadConnection(c)]
          && evs == [if o == Some(ClosedByRemoteHost) then ConnectionClosedByRemoteHost(c.identity)
                     else ConnectionClosedByLocalHost(c.identity)]
          && c !in pending && c !in open
          && (c in old(pending) ==> pending == RemoveFirst(old(pending), c) && open == old(open))
          && (c !in old(pending) ==> pending == old(pending) && open == RemoveFirst(old(open), c))
        else
          evs == [] && unchanged(this)
    {
      var o := OnStatusChanged(c, ev).1;
      evs := [];
      if o.Some? && c in subscribed {
        evs := OnConnectionClosed(c, o == Some(ClosedByRemoteHost));
      }
    }

    /**
     * `OnSteamNetConnectionStatusChanged`, the socket's own handler: a
     * Connecting event on this listener from an id the socket already holds
     * only gets the new handle linger-closed; from a new id it becomes a
     * pending request and is reported. Every other event is ignored.
     */
    method OnSteamNetConnectionStatusChanged(ev: StatusEvent) returns (evs: seq<PoolEvent>)
      requires Valid()
      modifies this
      ensures Valid()
      ensures handle == old(handle) && open == old(open)
      ensures !(old(IsAffectedByCallback(ev)) && ev.newState == Connecting) ==> evs == [] && unchanged(this)
      ensures old(IsAffectedByCallback(ev)) && ev.newState == Connecting && ev.remote in Ids(old(open)) + Ids(old(pending)) ==>
        && pending == old(pending) && subscribed == old(subscribed)
        && calls == old(calls) + [Closer.CloseOpenHandle(ev.conn)]
        && evs == []
      ensures old(IsAffectedByCallback(ev)) && ev.newState == Connecting && ev.remote !in Ids(old(open)) + Ids(old(pending)) ==>
        && pending == old(pending) + [NewRemote(ev)]
        && subscribed == old(subscribed) + {NewRemote(ev)}
        && calls == old(calls)
        && evs == [ConnectionRequested(ev.remote)]
    {
      evs := [];
      if IsAffectedByCallback(ev) && ev.newState == Connecting {
        if Find(open, ev.remote).Some? || Find(pending, ev.remote).Some? {
          calls := calls + [Closer.CloseOpenHandle(ev.conn)];
        } else {
          var c := NewRemote(ev);
          AddPending(handle, pending, open, subscribed, c);
          pending := pending + [c];
          subscribed := subscribed + {c};
          evs := [ConnectionRequested(ev.remote)];
        }
      }
    }

    /** `SendMessage`: a send on the open connection with that id, if the socket is open. */
    method SendMessage(id: PeerId, buffer: Bytes)
      requires Valid()
      modifies this
      ensures Valid()
      ensures handle == old(handle) && open == old(open) && pending == old(pending) && subscribed == old(subscribed)
      ensures calls == if old(handle) != InvalidHandle && id in Ids(open)
                       then old(calls) + [TransportCall.SendMessage(open[Find(open, id).value].handle, buffer)]
                       else old(calls)
    {
      if handle != InvalidHandle {
        var found := Find(open, id);
        if found.Some? {
          calls := calls + [TransportCall.SendMessage(open[found.value].handle, buffer)];
        }
      }
    }

    /**
     * `PollMessages`: one batch from the open connection with that id, taken
     * off its transport queue; `None` (the source's `null`) for an unknown id
     * or a closed socket, with every queue untouched.
     */
    method PollMessages(id: PeerId, inbox: Inbox) returns (batch: Option<seq<Bytes>>, inbox': Inbox)
      requires Valid()
      ensures !IsOpen() || id !in Ids(open) ==> batch.None? && inbox' == inbox
      ensures IsOpen() && id in Ids(open) ==>
        var h := open[Find(open, id).value].handle;
        && batch == Some(Receiver.Batch(QueueOf(inbox, h)))
        && inbox' == inbox[h := QueueOf(inbox, h)[|batch.value|..]]
    {
      batch, inbox' := None, inbox;
      if handle != InvalidHandle {
        var found := Find(open, id);
        if found.Some? {
          var h := open[found.value].handle;
          var buffers, rest := Receiver.Receive(QueueOf(inbox, h));
          batch := Some(buffers);
          inbox' := inbox[h := rest];
        }
      }
    }
  }
}
