/**
 * `Server` (and `RelayServer`): the lobby owner's game server. It opens the
 * listen socket, tracks the Steam ids of its accepted clients from the
 * socket's events, drops clients who are no longer lobby members, polls each
 * client for a batch of messages once per update and, as a relay, sends
 * every received message on to all other clients.
 */
module Servers {
  import opened Wrappers
  import opened Lists
  import opened Transport
  import opened Connections
  import opened ListenSockets
  import Closer = ConnectionCloser
  import Receiver = MessageReceiver
  import opened Lobbies

  /** The C# events of `Server`. */
  datatype ServerEvent =
    | Started
    | Updated
    | Stopped
    | ClientConnectionRequested(id: PeerId)
    | ClientConnectionAccepted(id: PeerId)
    | ClientConnectionRejected(id: PeerId)
    | ClientConnectionClosedByServer(id: PeerId)
    | ClientConnectionClosedByClient(id: PeerId)
    | MessagesReceived(id: PeerId, messages: seq<Bytes>)

  /** The `OnListenSocket...` handler a pool event reaches, and the server event it raises. */
  function Forward(pe: PoolEvent): ServerEvent {
    match pe
    case ConnectionRequested(id) => ClientConnectionRequested(id)
    case ConnectionAccepted(id) => ClientConnectionAccepted(id)
    case ConnectionRejected(id) => ClientConnectionRejected(id)
    case ConnectionClosedByLocalHost(id) => ClientConnectionClosedByServer(id)
    case ConnectionClosedByRemoteHost(id) => ClientConnectionClosedByClient(id)
  }

  function ForwardAll(pes: seq<PoolEvent>): (evs: seq<ServerEvent>)
    ensures |evs| == |pes|
    ensures forall i :: 0 <= i < |pes| ==> evs[i] == Forward(pes[i])
  {
    seq(|pes|, i requires 0 <= i < |pes| => Forward(pes[i]))
  }

  /** What the handlers do to `clients`: an accepted id is appended, a closed one removed. */
  function OnPoolEvent(clients: seq<PeerId>, pe: PoolEvent): seq<PeerId> {
    match pe
    case ConnectionAccepted(id) => clients + [id]
    case ConnectionClosedByLocalHost(id) => RemoveFirst(clients, id)
    case ConnectionClosedByRemoteHost(id) => RemoveFirst(clients, id)
    case _ => clients
  }

  /** `clients` after the handlers have seen a sequence of pool events, in order. */
  function ClientsAfter(clients: seq<PeerId>, pes: seq<PoolEvent>): seq<PeerId>
    decreases |pes|
  {
    if pes == [] then clients else ClientsAfter(OnPoolEvent(clients, pes[0]), pes[1..])
  }

  /** The handlers' effect of no event and of a single event. */
  lemma ClientsAfterShort(clients: seq<PeerId>, pe: PoolEvent)
    ensures ClientsAfter(clients, []) == clients
    ensures ClientsAfter(clients, [pe]) == OnPoolEvent(clients, pe)
  {
    assert [pe][1..] == [];
  }

  /**
   * The server's invariant on values: each client is listed once and has an
   * open connection in the pool.
   */
  ghost predicate ClientsValid(clients: seq<PeerId>, open: seq<Connection>) {
    && NoDuplicates(clients)
    && (forall id :: id in clients ==> id in Ids(open))
  }

  /** With no open connection there is no client. */
  lemma NoOpenNoClients(clients: seq<PeerId>)
    requires ClientsValid(clients, [])
    ensures clients == []
  {
    assert Ids([]) == [];
    HeadIn(clients);
  }

  /** Accepting an id that had no open connection keeps the clients valid and adds that id. */
  lemma AcceptKeepsClients(clients: seq<PeerId>, open: seq<Connection>, c: Connection)
    requires ClientsValid(clients, open)
    requires c.identity !in Ids(open)
    ensures ClientsValid(OnPoolEvent(clients, ConnectionAccepted(c.identity)), open + [c])
  {
    IdsAppend(open, c);
    AppendNoDuplicates(clients, c.identity);
  }

  /**
   * Closing `x` keeps the clients valid: `x` is no longer a client and every
   * other client stays, provided its connection is still open.
   */
  lemma CloseKeepsClients(clients: seq<PeerId>, open: seq<Connection>, open': seq<Connection>, x: PeerId)
    requires ClientsValid(clients, open)
    requires forall y :: y in Ids(open) && y != x ==> y in Ids(open')
    ensures ClientsValid(RemoveFirst(clients, x), open')
    ensures forall y :: y in RemoveFirst(clients, x) <==> y in clients && y != x
  {
    RemoveFirstGone(clients, x);
  }

  /** Removing the k-th connection keeps every other id open. */
  lemma IdsAfterRemoveAt(open: seq<Connection>, k: nat)
    requires k < |open|
    ensures forall y :: y in Ids(open) && y != open[k].identity ==> y in Ids(RemoveAt(open, k))
    ensures forall y :: y in Ids(RemoveAt(open, k)) ==> y in Ids(open)
  {
    IdsRemoveAt(open, k);
    assert Ids(open)[k] == open[k].identity;
    RemoveAtMembers(Ids(open), k);
  }

  /** Removing connection `c` keeps every other id open. */
  lemma IdsAfterRemoveFirst(open: seq<Connection>, c: Connection)
    ensures forall y :: y in Ids(open) && y != c.identity ==> y in Ids(RemoveFirst(open, c))
  {
    match IndexOf(open, c)
    case None =>
    case Some(k) => IdsAfterRemoveAt(open, k);
  }

  /** A connection that left the pool takes its id out of the clients and keeps the rest valid. */
  lemma ClosedConnectionLeavesClients(clients: seq<PeerId>, open: seq<Connection>, open': seq<Connection>, c: Connection)
    requires ClientsValid(clients, open)
    requires open' == open || open' == RemoveFirst(open, c)
    ensures ClientsValid(RemoveFirst(clients, c.identity), open')
    ensures c.identity !in RemoveFirst(clients, c.identity)
  {
    IdsAfterRemoveFirst(open, c);
    CloseKeepsClients(clients, open, open', c.identity);
  }

  /**
   * Closing the whole pool closes every client: after the handlers have seen
   * one ClosedByLocalHost per pooled connection, no client is left.
   */
  lemma {:induction false} CloseAllEmptiesClients(clients: seq<PeerId>, cs: seq<Connection>)
    requires NoDuplicates(clients)
    requires forall id :: id in clients ==> id in Ids(cs)
    ensures ClientsAfter(clients, LocalCloseEvents(cs)) == []
    decreases |cs|
  {
    var evs := LocalCloseEvents(cs);
    if cs == [] {
      assert evs == [];
      NoOpenNoClients(clients);
    } else {
      var x := cs[0].identity;
      var r := RemoveFirst(clients, x);
      assert ClientsAfter(clients, evs) == ClientsAfter(r, LocalCloseEvents(cs[1..])) by {
        assert evs[0] == ConnectionClosedByLocalHost(x);
        assert evs[1..] == LocalCloseEvents(cs[1..]);
      }
      assert ClientsValid(r, cs[1..]) by {
        assert Ids(cs) == [x] + Ids(cs[1..]);
        CloseKeepsClients(clients, cs, cs[1..], x);
      }
      CloseAllEmptiesClients(r, cs[1..]);
    }
  }

  /** The clients a broadcast reaches: every client not named in the exceptions, in client order. */
  function Recipients(clients: seq<PeerId>, exceptions: Option<seq<PeerId>>): (r: seq<PeerId>)
    ensures forall y :: y in r <==> y in clients && !(exceptions.Some? && y in exceptions.value)
    decreases |clients|
  {
    if clients == [] then []
    else
      var rest, last := clients[..|clients| - 1], clients[|clients| - 1];
      assert clients == rest + [last];
      Recipients(rest, exceptions) + (if exceptions.Some? && last in exceptions.value then [] else [last])
  }

  /** With no client excepted, every client is a recipient, in order. */
  lemma {:induction false} RecipientsNoExceptions(clients: seq<PeerId>, ex: seq<PeerId>)
    requires forall y :: y in clients ==> y !in ex
    ensures Recipients(clients, Some(ex)) == clients
    decreases |clients|
  {
    if clients != [] {
      var rest, last := clients[..|clients| - 1], clients[|clients| - 1];
      assert clients == rest + [last];
      RecipientsNoExceptions(rest, ex);
    }
  }

  /** Excepting one more id that is not a client changes nothing. */
  lemma {:induction false} RecipientsIgnoresAbsent(clients: seq<PeerId>, ex: seq<PeerId>, x: PeerId)
    requires x !in clients
    ensures Recipients(clients, Some(ex + [x])) == Recipients(clients, Some(ex))
    decreases |clients|
  {
    if clients != [] {
      var rest := clients[..|clients| - 1];
      assert clients == rest + [clients[|clients| - 1]];
      RecipientsIgnoresAbsent(rest, ex, x);
    }
  }

  /**
   * On a duplicate-free client list, `List.Remove(x)` after picking the
   * clients not in `ex` is picking the clients in neither `ex` nor `[x]`:
   * the removals of `CloseClient` keep the remaining clients in order.
   */
  lemma {:induction false} RecipientsRemoveFirst(clients: seq<PeerId>, ex: seq<PeerId>, x: PeerId)
    requires NoDuplicates(clients)
    ensures RemoveFirst(Recipients(clients, Some(ex)), x) == Recipients(clients, Some(ex + [x]))
    decreases |clients|
  {
    if clients != [] {
      var rest, last := clients[..|clients| - 1], clients[|clients| - 1];
      assert clients == rest + [last];
      DistinctInit(clients);
      var r := Recipients(rest, Some(ex));
      if last == x {
        RecipientsIgnoresAbsent(rest, ex, x);
        if x !in ex {
          RemoveFirstLast(r, x);
        }
      } else {
        RecipientsRemoveFirst(rest, ex, x);
        RemoveFirstAppend(r, if last in ex then [] else [last], x);
      }
    }
  }

  /** Picking recipients out of a duplicate-free client list picks each at most once. */
  lemma {:induction false} RecipientsNoDuplicates(clients: seq<PeerId>, exceptions: Option<seq<PeerId>>)
    requires NoDuplicates(clients)
    ensures NoDuplicates(Recipients(clients, exceptions))
    decreases |clients|
  {
    if clients != [] {
      var rest, last := clients[..|clients| - 1], clients[|clients| - 1];
      assert NoDuplicates(rest) by {
        forall i, j | 0 <= i < j < |rest| ensures rest[i] != rest[j] {
          assert rest[i] == clients[i] && rest[j] == clients[j];
        }
      }
      RecipientsNoDuplicates(rest, exceptions);
      if !(exceptions.Some? && last in exceptions.value) {
        assert last !in rest by {
          forall i | 0 <= i < |rest| ensures rest[i] != last {
            assert rest[i] == clients[i];
          }
        }
        AppendNoDuplicates(Recipients(rest, exceptions), last);
      } else {
        assert Recipients(clients, exceptions) == Recipients(rest, exceptions) + [];
      }
    }
  }

  /** The handle of the open connection with Steam id `id`. */
  function HandleOf(open: seq<Connection>, id: PeerId): Handle
    requires id in Ids(open)
  {
    open[Find(open, id).value].handle
  }

  /** One send of `buffer` to each of `ids`, in order. */
  function Sends(open: seq<Connection>, ids: seq<PeerId>, buffer: Bytes): (r: seq<TransportCall>)
    requires forall y :: y in ids ==> y in Ids(open)
    ensures |r| == |ids|
    decreases |ids|
  {
    if ids == [] then []
    else Sends(open, ids[..|ids| - 1], buffer) + [TransportCall.SendMessage(HandleOf(open, ids[|ids| - 1]), buffer)]
  }

  /** The recipients among the first i + 1 clients: those among the first i, then client i unless excepted. */
  lemma RecipientsStep(clients: seq<PeerId>, exceptions: Option<seq<PeerId>>, i: nat)
    requires i < |clients|
    ensures Recipients(clients[..i + 1], exceptions) == Recipients(clients[..i], exceptions)
      + (if exceptions.Some? && clients[i] in exceptions.value then [] else [clients[i]])
  {
    assert clients[..i + 1][..i] == clients[..i];
  }

  /** Recipients drawn from a prefix of the clients are clients, so have an open connection. */
  lemma PrefixRecipientsOpen(clients: seq<PeerId>, exceptions: Option<seq<PeerId>>, open: seq<Connection>, i: nat)
    requires i <= |clients|
    requires forall y :: y in clients ==> y in Ids(open)
    ensures forall y :: y in Recipients(clients[..i], exceptions) ==> y in Ids(open)
  {
    forall y | y in Recipients(clients[..i], exceptions) ensures y in Ids(open) {
      var k :| 0 <= k < i && clients[..i][k] == y;
      assert clients[k] == y;
    }
  }

  /** One more recipient adds one send at the end. */
  lemma SendsStep(open: seq<Connection>, ids: seq<PeerId>, x: PeerId, buffer: Bytes)
    requires forall y :: y in ids ==> y in Ids(open)
    requires x in Ids(open)
    ensures Sends(open, ids + [x], buffer) == Sends(open, ids, buffer) + [TransportCall.SendMessage(HandleOf(open, x), buffer)]
  {
    assert (ids + [x])[..|ids|] == ids;
  }

  /** Broadcasting to the first i + 1 clients: the sends to the first i, then one to client i unless excepted. */
  lemma BroadcastStep(open: seq<Connection>, clients: seq<PeerId>, exceptions: Option<seq<PeerId>>, i: nat, buffer: Bytes)
    requires i < |clients|
    requires forall y :: y in clients ==> y in Ids(open)
    ensures forall y :: y in Recipients(clients[..i + 1], exceptions) ==> y in Ids(open)
    ensures Sends(open, Recipients(clients[..i + 1], exceptions), buffer) ==
      Sends(open, Recipients(clients[..i], exceptions), buffer)
        + (if exceptions.Some? && clients[i] in exceptions.value then []
           else [TransportCall.SendMessage(HandleOf(open, clients[i]), buffer)])
  {
    RecipientsStep(clients, exceptions, i);
    PrefixRecipientsOpen(clients, exceptions, open, i);
    PrefixRecipientsOpen(clients, exceptions, open, i + 1);
    if !(exceptions.Some? && clients[i] in exceptions.value) {
      SendsStep(open, Recipients(clients[..i], exceptions), clients[i], buffer);
    } else {
      assert Recipients(clients[..i + 1], exceptions) == Recipients(clients[..i], exceptions);
    }
  }

  /**
   * `RelayServer.OnServerMessagesReceived`: each message of `batch`, in order,
   * broadcast to every client except its sender.
   */
  function RelaySends(open: seq<Connection>, clients: seq<PeerId>, sender: PeerId, batch: seq<Bytes>): seq<TransportCall>
    requires forall y :: y in clients ==> y in Ids(open)
    decreases |batch|
  {
    if batch == [] then []
    else
      RelaySends(open, clients, sender, batch[..|batch| - 1])
        + Sends(open, Recipients(clients, Some([sender])), batch[|batch| - 1])
  }

  /**
   * A relay sends each message once to every other client and never back to
   * its sender: |batch| times one send per recipient, the sender not among them.
   */
  lemma {:induction false} RelayReachesOthersOnly(open: seq<Connection>, clients: seq<PeerId>, sender: PeerId, batch: seq<Bytes>)
    requires forall y :: y in clients ==> y in Ids(open)
    ensures sender !in Recipients(clients, Some([sender]))
    ensures forall y :: y in clients && y != sender ==> y in Recipients(clients, Some([sender]))
    ensures |RelaySends(open, clients, sender, batch)| == |batch| * |Recipients(clients, Some([sender]))|
    decreases |batch|
  {
    if batch != [] {
      var init := batch[..|batch| - 1];
      var n := |Recipients(clients, Some([sender]))|;
      RelayReachesOthersOnly(open, clients, sender, init);
      assert |RelaySends(open, clients, sender, batch)| == |init| * n + n;
      assert |init| * n + n == (|init| + 1) * n;
    }
  }

  /** What one round of `PollMessages` yields: events raised, sends issued, and the transport queues afterwards. */
  datatype PollOutcome = PollOutcome(events: seq<ServerEvent>, sends: seq<TransportCall>, inbox: Inbox)

  /**
   * One client's turn: one batch taken off its connection's queue, reported
   * only when non-empty, and relayed when the server is a relay.
   */
  function PollOne(open: seq<Connection>, clients: seq<PeerId>, relaying: bool, x: PeerId, inbox: Inbox): PollOutcome
    requires x in Ids(open)
    requires forall y :: y in clients ==> y in Ids(open)
  {
    var h := HandleOf(open, x);
    var batch := Receiver.Batch(QueueOf(inbox, h));
    var inbox' := inbox[h := QueueOf(inbox, h)[|batch|..]];
    if |batch| > 0 then
      PollOutcome([MessagesReceived(x, batch)], if relaying then RelaySends(open, clients, x, batch) else [], inbox')
    else
      PollOutcome([], [], inbox')
  }

  /** `PollMessages` over the clients `polled`, in order, each turn seeing the queues the previous one left. */
  function PollAll(open: seq<Connection>, clients: seq<PeerId>, relaying: bool, polled: seq<PeerId>, inbox: Inbox): PollOutcome
    requires forall y :: y in clients ==> y in Ids(open)
    requires forall y :: y in polled ==> y in Ids(open)
    decreases |polled|
  {
    if polled == [] then PollOutcome([], [], inbox)
    else
      var before := PollAll(open, clients, relaying, polled[..|polled| - 1], inbox);
      var step := PollOne(open, clients, relaying, polled[|polled| - 1], before.inbox);
      PollOutcome(before.events + step.events, before.sends + step.sends, step.inbox)
  }

  /** Every element of a prefix is an element of the whole, so has an open connection. */
  lemma PrefixOpen(ids: seq<PeerId>, open: seq<Connection>, i: nat)
    requires i <= |ids|
    requires forall y :: y in ids ==> y in Ids(open)
    ensures forall y :: y in ids[..i] ==> y in Ids(open)
  {
    forall y | y in ids[..i] ensures y in Ids(open) {
      var k :| 0 <= k < i && ids[..i][k] == y;
      assert ids[k] == y;
    }
  }

  /** Polling the first i + 1 clients: the round over the first i, then client i's turn on the queues it left. */
  lemma PollAllStep(open: seq<Connection>, clients: seq<PeerId>, relaying: bool, polled: seq<PeerId>, i: nat, inbox: Inbox)
    requires i < |polled|
    requires forall y :: y in clients ==> y in Ids(open)
    requires forall y :: y in polled ==> y in Ids(open)
    ensures forall y :: y in polled[..i] ==> y in Ids(open)
    ensures forall y :: y in polled[..i + 1] ==> y in Ids(open)
    ensures polled[i] in Ids(open)
    ensures
      var before := PollAll(open, clients, relaying, polled[..i], inbox);
      var step := PollOne(open, clients, relaying, polled[i], before.inbox);
      PollAll(open, clients, relaying, polled[..i + 1], inbox)
        == PollOutcome(before.events + step.events, before.sends + step.sends, step.inbox)
  {
    PrefixOpen(polled, open, i);
    PrefixOpen(polled, open, i + 1);
    assert polled[..i + 1][..i] == polled[..i];
  }

  /** The loop step of `PollMessages`: a round over the first i clients followed by client i's turn is the round over the first i + 1. */
  lemma PollAdvance(open: seq<Connection>, cs: seq<PeerId>, relaying: bool, i: nat, inbox: Inbox, base: seq<TransportCall>,
                    evs: seq<ServerEvent>, inbox0: Inbox, calls: seq<TransportCall>,
                    polled: seq<ServerEvent>, inbox1: Inbox, calls1: seq<TransportCall>)
    requires i < |cs|
    requires forall y :: y in cs ==> y in Ids(open)
    requires forall y :: y in cs[..i] ==> y in Ids(open)
    requires forall y :: y in cs[..i + 1] ==> y in Ids(open)
    requires var r := PollAll(open, cs, relaying, cs[..i], inbox);
      evs == r.events && inbox0 == r.inbox && calls == base + r.sends
    requires var step := PollOne(open, cs, relaying, cs[i], inbox0);
      polled == step.events && inbox1 == step.inbox && calls1 == calls + step.sends
    ensures var r := PollAll(open, cs, relaying, cs[..i + 1], inbox);
      evs + polled == r.events && inbox1 == r.inbox && calls1 == base + r.sends
  {
    PollAllStep(open, cs, relaying, cs, i, inbox);
    ghost var before := PollAll(open, cs, relaying, cs[..i], inbox);
    ghost var step := PollOne(open, cs, relaying, cs[i], before.inbox);
    AppendAssoc(base, before.sends, step.sends);
  }

  /**
   * A round of polling raises at most one event per polled client, each a
   * non-empty batch of at most 16 buffers from a polled client, and a server
   * that does not relay sends nothing while polling.
   */
  lemma {:induction false} PollReportsBatches(open: seq<Connection>, clients: seq<PeerId>, relaying: bool, polled: seq<PeerId>, inbox: Inbox)
    requires forall y :: y in clients ==> y in Ids(open)
    requires forall y :: y in polled ==> y in Ids(open)
    ensures var r := PollAll(open, clients, relaying, polled, inbox);
      && |r.events| <= |polled|
      && (forall e :: e in r.events ==>
            e.MessagesReceived? && e.id in polled && 0 < |e.messages| <= Receiver.BatchSize)
      && (!relaying ==> r.sends == [])
    decreases |polled|
  {
    if polled != [] {
      var init := polled[..|polled| - 1];
      PollReportsBatches(open, clients, relaying, init, inbox);
      var before := PollAll(open, clients, relaying, init, inbox);
      var step := PollOne(open, clients, relaying, polled[|polled| - 1], before.inbox);
      assert forall e :: e in step.events ==>
        e.MessagesReceived? && e.id == polled[|polled| - 1] && 0 < |e.messages| <= Receiver.BatchSize;
      forall e | e in before.events ensures e.id in polled {
        assert e.id in init;
      }
    }
  }

  /** The events a server raises for the ids it closes itself. */
  function ClosedByServer(ids: seq<PeerId>): (evs: seq<ServerEvent>)
    ensures |evs| == |ids|
    ensures forall i :: 0 <= i < |ids| ==> evs[i] == ClientConnectionClosedByServer(ids[i])
  {
    seq(|ids|, i requires 0 <= i < |ids| => ClientConnectionClosedByServer(ids[i]))
  }

  /** Closing the j-th id of a duplicate-free list: one more event, one more id gone, none of the later ids touched. */
  lemma CloseStep(ids: seq<PeerId>, j: nat)
    requires j < |ids|
    requires NoDuplicates(ids)
    ensures ClosedByServer(ids[..j + 1]) == ClosedByServer(ids[..j]) + [ClientConnectionClosedByServer(ids[j])]
    ensures forall y :: y in ids[..j + 1] <==> y in ids[..j] || y == ids[j]
    ensures forall k :: j < k < |ids| ==> ids[k] != ids[j]
  {
    assert ids[..j + 1] == ids[..j] + [ids[j]];
  }

  /** The clients left by one more `CloseClient` in `CloseClients`: the remaining clients, still in order. */
  lemma ClientsStep(cs: seq<PeerId>, ids: seq<PeerId>, j: nat, clients': seq<PeerId>)
    requires NoDuplicates(cs) && j < |ids|
    requires clients' == RemoveFirst(Recipients(cs, Some(ids[..j])), ids[j])
    ensures clients' == Recipients(cs, Some(ids[..j + 1]))
  {
    assert ids[..j + 1] == ids[..j] + [ids[j]];
    RecipientsRemoveFirst(cs, ids[..j], ids[j]);
  }

  /** An id of `CloseClients` not yet closed is still a client when its turn comes. */
  lemma NextStillClient(cs: seq<PeerId>, ids: seq<PeerId>, j: nat)
    requires NoDuplicates(ids) && j < |ids|
    requires forall y :: y in ids ==> y in cs
    ensures ids[j] in Recipients(cs, Some(ids[..j]))
  {
    assert ids[j] in ids;
    forall i | 0 <= i < j ensures ids[..j][i] != ids[j] {
      assert ids[..j][i] == ids[i];
    }
  }

  /** The socket after one more `CloseConnection` in `CloseClients`: the fold over one more id. */
  lemma PoolStep(open0: seq<Connection>, base: seq<TransportCall>, ids: seq<PeerId>, j: nat,
                 open: seq<Connection>, calls: seq<TransportCall>, open': seq<Connection>, calls': seq<TransportCall>)
    requires j < |ids|
    requires open == CloseEach(open0, ids[..j]).open && calls == base + CloseEach(open0, ids[..j]).calls
    requires ids[j] in Ids(open) ==>
      var k := Find(open, ids[j]).value;
      open' == RemoveAt(open, k) && calls' == calls + [Closer.CloseOpenConnection(open[k])]
    requires ids[j] !in Ids(open) ==> open' == open && calls' == calls
    ensures open' == CloseEach(open0, ids[..j + 1]).open && calls' == base + CloseEach(open0, ids[..j + 1]).calls
  {
    CloseEachStep(open0, ids, j);
    var before := CloseEach(open0, ids[..j]);
    if ids[j] in Ids(open) {
      var k := Find(open, ids[j]).value;
      AppendAssoc(base, before.calls, [Closer.CloseOpenConnection(open[k])]);
    }
  }

  /** The socket's open list and the calls it has issued after a series of closes. */
  datatype PoolAfter = PoolAfter(open: seq<Connection>, calls: seq<TransportCall>)

  /**
   * `ListenSocket.CloseConnection` for each of `ids`, in order: an id still
   * open has its connection linger-closed and taken out of the open list; an
   * id no longer open is skipped.
   */
  function CloseEach(open: seq<Connection>, ids: seq<PeerId>): PoolAfter
    decreases |ids|
  {
    if ids == [] then PoolAfter(open, [])
    else
      var r := CloseEach(open, ids[..|ids| - 1]);
      match Find(r.open, ids[|ids| - 1])
      case None => r
      case Some(k) => PoolAfter(RemoveAt(r.open, k), r.calls + [Closer.CloseOpenConnection(r.open[k])])
  }

  /** Closing one more id: skipped when it is no longer open, else its connection closed and taken out. */
  lemma CloseEachStep(open: seq<Connection>, ids: seq<PeerId>, j: nat)
    requires j < |ids|
    ensures var r := CloseEach(open, ids[..j]);
      && (ids[j] !in Ids(r.open) ==> CloseEach(open, ids[..j + 1]) == r)
      && (ids[j] in Ids(r.open) ==>
            var k := Find(r.open, ids[j]).value;
            CloseEach(open, ids[..j + 1]) == PoolAfter(RemoveAt(r.open, k), r.calls + [Closer.CloseOpenConnection(r.open[k])]))
  {
    assert ids[..j + 1][..j] == ids[..j];
  }

  /** In a list where no id repeats, `Find` gives back the position of any connection by its id. */
  lemma FindUnique(open: seq<Connection>, i: nat)
    requires NoDuplicates(Ids(open))
    requires i < |open|
    ensures Find(open, open[i].identity) == Some(i)
  {
    assert Ids(open)[i] == open[i].identity;
    var f := Find(open, open[i].identity).value;
    assert Ids(open)[f] == open[i].identity;
  }

  /**
   * Closing distinct open ids one after the other: exactly the connections
   * whose id was not closed stay open, and the i-th call is a linger close of
   * the handle that id i had before any close.
   */
  lemma {:induction false} CloseEachCloses(open: seq<Connection>, ids: seq<PeerId>)
    requires NoDuplicates(Ids(open)) && NoDuplicates(ids)
    requires forall y :: y in ids ==> y in Ids(open)
    ensures var r := CloseEach(open, ids);
      && NoDuplicates(Ids(r.open))
      && (forall c :: c in r.open <==> c in open && c.identity !in ids)
      && |r.calls| == |ids|
      && (forall i :: 0 <= i < |ids| ==> r.calls[i] == TransportCall.CloseConnection(HandleOf(open, ids[i]), true))
    decreases |ids|
  {
    if ids != [] {
      var init, x := ids[..|ids| - 1], ids[|ids| - 1];
      assert ids == init + [x];
      DistinctInit(ids);
      CloseEachCloses(open, init);
      var r := CloseEach(open, init);
      var c := open[Find(open, x).value];
      assert c in r.open;
      var k := FoundAgain(open, r.open, x);
      var o' := RemoveAt(r.open, k);
      assert CloseEach(open, ids) == PoolAfter(o', r.calls + [Closer.CloseOpenConnection(c)]);
      IdsRemoveAt(r.open, k);
      RemoveAtNoDuplicates(Ids(r.open), k);
      RemoveAtMembers(r.open, k);
      forall e ensures e in o' <==> e in open && e.identity !in ids {
        if e in o' {
          InIds(o', e);
        }
      }
    }
  }

  /** Dropping the last id of a list with no repeats leaves no repeats, and the last id is not among the rest. */
  lemma DistinctInit(ids: seq<PeerId>)
    requires ids != [] && NoDuplicates(ids)
    ensures NoDuplicates(ids[..|ids| - 1]) && ids[|ids| - 1] !in ids[..|ids| - 1]
  {
    var init, x := ids[..|ids| - 1], ids[|ids| - 1];
    forall i, j | 0 <= i < j < |init| ensures init[i] != init[j] {
      assert init[i] == ids[i] && init[j] == ids[j];
    }
    forall i | 0 <= i < |init| ensures init[i] != x {
      assert init[i] == ids[i];
    }
  }

  /** The connection `Find` picks for an id in `open` is found again, by the same id, in any sublist holding it. */
  lemma FoundAgain(open: seq<Connection>, sub: seq<Connection>, x: PeerId) returns (k: nat)
    requires NoDuplicates(Ids(open))
    requires forall d :: d in sub ==> d in open
    requires x in Ids(open) && open[Find(open, x).value] in sub
    ensures x in Ids(sub) && Find(sub, x) == Some(k) && k < |sub|
    ensures sub[k] == open[Find(open, x).value] && Ids(sub)[k] == x
  {
    var c := open[Find(open, x).value];
    InIds(sub, c);
    k := Find(sub, x).value;
    var d := sub[k];
    assert d in open;
    var j :| 0 <= j < |open| && open[j] == d;
    FindUnique(open, j);
  }

  /**
   * `IsClientInLobby`: whether the lobby's member list holds the id; `None`
   * when there is no member list (`Lobby.Members` is `null` outside a lobby
   * and the lookup throws).
   */
  function IsClientInLobby(members: Option<seq<PeerId>>, id: PeerId): (r: Option<bool>)
    ensures r.None? <==> members.None?
    ensures r == Some(true) <==> members.Some? && id in members.value
  {
    match members
    case None => None
    case Some(ms) => Some(id in ms)
  }

  class Server {
    var isRunning: bool
    /** `clients`: Steam ids of the accepted clients, in acceptance order. */
    var clients: seq<PeerId>
    /** The listen socket the server drives. */
    const socket: ListenSocket
    /** True for a `RelayServer`, whose `MessagesReceived` handler relays every message. */
    const relaying: bool

    ghost predicate Valid()
      reads this, socket
    {
      && socket.Valid()
      && (isRunning <==> socket.IsOpen())
      && ClientsValid(clients, socket.open)
    }

    constructor ()
      ensures Valid()
      ensures !isRunning && clients == [] && !relaying
      ensures fresh(socket) && !socket.IsOpen() && socket.calls == []
    {
      isRunning := false;
      clients := [];
      socket := new ListenSocket();
      relaying := false;
    }

    /** `RelayServer`: a server whose own handler relays what it receives. */
    constructor Relay()
      ensures Valid()
      ensures !isRunning && clients == [] && relaying
      ensures fresh(socket) && !socket.IsOpen() && socket.calls == []
    {
      isRunning := false;
      clients := [];
      socket := new ListenSocket();
      relaying := true;
    }

    /**
     * `Start`: only the owner of the lobby the local user is in, with the
     * server stopped, tries to open the listen socket; the server runs exactly
     * when a valid listener came back.
     */
    method Start(lobby: Lobby, steamOwner: PeerId, transportHandle: Handle) returns (ok: bool, evs: seq<ServerEvent>)
      requires Valid()
      modifies this, socket
      ensures Valid()
      ensures ok <==> lobby.IsValid() && lobby.IsLocalOwner(steamOwner) && !old(isRunning) && transportHandle != InvalidHandle
      ensures ok ==> isRunning && evs == [Started] && socket.handle == transportHandle
      ensures !ok ==> isRunning == old(isRunning) && evs == []
      ensures clients == old(clients)
      ensures !ok ==> socket.handle == old(socket.handle)
      ensures socket.open == old(socket.open) && socket.pending == old(socket.pending)
      ensures socket.subscribed == old(socket.subscribed)
      ensures socket.calls == old(socket.calls)
        + (if lobby.IsValid() && lobby.IsLocalOwner(steamOwner) && !old(isRunning) then [CreateListenSocketP2P] else [])
    {
      ok, evs := false, [];
      if lobby.IsValid() && lobby.IsLocalOwner(steamOwner) && !isRunning {
        ok := socket.Open(transportHandle);
        if ok {
          isRunning := true;
          evs := [Started];
        }
      }
    }

    /**
     * `Stop`: raises Stopped, then closes the socket, whose close events reach
     * the handlers while they are still wired; no client is left.
     */
    method Stop() returns (evs: seq<ServerEvent>)
      requires Valid()
      modifies this, socket
      ensures Valid()
      ensures !isRunning && clients == []
      ensures old(isRunning) ==>
        && evs == [Stopped] + ForwardAll(LocalCloseEvents(old(socket.open) + old(socket.pending)))
        && socket.calls == old(socket.calls) + LingerCloses(old(socket.open) + old(socket.pending))
             + [CloseListenSocket(old(socket.handle))]
        && socket.open == [] && socket.pending == [] && socket.handle == InvalidHandle
        && socket.subscribed == old(socket.subscribed) - set c | c in old(socket.open) + old(socket.pending)
      ensures !old(isRunning) ==> evs == [] && unchanged(this, socket)
    {
      evs := [];
      if isRunning {
        evs := [Stopped];
        isRunning := false;
        var all := socket.open + socket.pending;
        assert forall id :: id in clients ==> id in Ids(all) by {
          assert Ids(all) == Ids(socket.open) + Ids(socket.pending);
        }
        CloseAllEmptiesClients(clients, all);
        var pes := socket.Close();
        clients := ClientsAfter(clients, pes);
        evs := evs + ForwardAll(pes);
      } else {
        NoOpenNoClients(clients);
      }
    }

    /** `OnLobbyLeft`, wired to the lobby's Left and Kicked: a running server stops. */
    method OnLobbyLeft() returns (evs: seq<ServerEvent>)
      requires Valid()
      modifies this, socket
      ensures Valid()
      ensures !isRunning && clients == []
      ensures old(isRunning) ==>
        && evs == [Stopped] + ForwardAll(LocalCloseEvents(old(socket.open) + old(socket.pending)))
        && socket.calls == old(socket.calls) + LingerCloses(old(socket.open) + old(socket.pending))
             + [CloseListenSocket(old(socket.handle))]
        && socket.open == [] && socket.pending == [] && socket.handle == InvalidHandle
        && socket.subscribed == old(socket.subscribed) - set c | c in old(socket.open) + old(socket.pending)
      ensures !old(isRunning) ==> evs == [] && unchanged(this, socket)
    {
      evs := Stop();
    }

    /** `AcceptConnectionReqeust`: only while running; the socket's answer reaches the handlers. */
    method AcceptConnectionRequest(id: PeerId, result: int) returns (evs: seq<ServerEvent>)
      requires Valid()
      modifies this, socket
      ensures Valid()
      ensures isRunning == old(isRunning)
      ensures socket.handle == old(socket.handle) && socket.subscribed == old(socket.subscribed)
      ensures !old(isRunning) || id !in Ids(old(socket.pending)) ==> evs == [] && unchanged(this, socket)
      ensures old(isRunning) && id in Ids(old(socket.pending)) ==>
        var k := Find(old(socket.pending), id).value;
        var c := old(socket.pending)[k];
        && socket.pending == RemoveAt(old(socket.pending), k)
        && id !in Ids(socket.pending)
        && (result == ResultOK ==>
              && socket.open == old(socket.open) + [c]
              && socket.calls == old(socket.calls) + [AcceptConnection(c.handle)]
              && clients == old(clients) + [id]
              && evs == [ClientConnectionAccepted(id)])
        && (result != ResultOK ==>
              && socket.open == old(socket.open)
              && socket.calls == old(socket.calls) + [AcceptConnection(c.handle), Closer.CloseOpenConnection(c)]
              && clients == old(clients)
              && evs == [ClientConnectionClosedByServer(id)])
    {
      evs := [];
      if isRunning {
        var pending, open := socket.pending, socket.open;
        var pes := socket.AcceptRequest(id, result);
        var next := clients;
        if id in Ids(pending) {
          var c := pending[Find(pending, id).value];
          if result == ResultOK {
            assert pes == [ConnectionAccepted(id)] && socket.open == open + [c];
            AcceptKeepsClients(clients, open, c);
            next := clients + [id];
          } else {
            assert pes == [ConnectionClosedByLocalHost(id)] && socket.open == open;
            CloseKeepsClients(clients, open, open, id);
            assert RemoveFirst(clients, id) == clients;
          }
          ClientsAfterShort(clients, pes[0]);
        } else {
          assert pes == [];
          ClientsAfterShort(clients, ConnectionAccepted(id));
        }
        assert ClientsAfter(clients, pes) == next && ClientsValid(next, socket.open);
        clients := ClientsAfter(clients, pes);
        evs := ForwardAll(pes);
      }
    }

    /** `RejectConnectionRequest`: only while running; the request is closed without linger and clients are not affected. */
    method RejectConnectionRequest(id: PeerId) returns (evs: seq<ServerEvent>)
      requires Valid()
      modifies socket
      ensures Valid()
      ensures socket.handle == old(socket.handle) && socket.open == old(socket.open)
      ensures socket.subscribed == old(socket.subscribed)
      ensures !old(isRunning) || id !in Ids(old(socket.pending)) ==> evs == [] && unchanged(socket)
      ensures old(isRunning) && id in Ids(old(socket.pending)) ==>
        var k := Find(old(socket.pending), id).value;
        && socket.pending == RemoveAt(old(socket.pending), k)
        && id !in Ids(socket.pending)
        && socket.calls == old(socket.calls) + [Closer.CloseDeadConnection(old(socket.pending)[k])]
        && evs == [ClientConnectionRejected(id)]
    {
      evs := [];
      if isRunning {
        var pes := socket.RejectRequest(id);
        evs := ForwardAll(pes);
      }
    }

    /** `CloseConnection`: only while running; a client with an open connection is closed with linger and dropped. */
    method CloseConnection(id: PeerId) returns (evs: seq<ServerEvent>)
      requires Valid()
      modifies this, socket
      ensures Valid()
      ensures isRunning == old(isRunning)
      ensures !old(isRunning) ==> evs == [] && unchanged(this, socket)
      ensures old(isRunning) ==>
        && socket.handle == old(socket.handle) && socket.pending == old(socket.pending)
        && socket.subscribed == old(socket.subscribed)
        && (id in Ids(old(socket.open)) ==>
              var k := Find(old(socket.open), id).value;
              && socket.open == RemoveAt(old(socket.open), k)
              && socket.calls == old(socket.calls) + [Closer.CloseOpenConnection(old(socket.open)[k])])
        && (id !in Ids(old(socket.open)) ==> socket.open == old(socket.open) && socket.calls == old(socket.calls))
        && id !in clients && id !in Ids(socket.open)
        && clients == RemoveFirst(old(clients), id)
        && (forall y :: y in clients <==> y in old(clients) && y != id)
        && evs == (if id in Ids(old(socket.open)) then [ClientConnectionClosedByServer(id)] else [])
    {
      evs := [];
      if isRunning {
        evs := CloseClient(id);
      }
    }

    /** `ListenSocket.CloseConnection` on a running server, with its event handled. */
    method CloseClient(id: PeerId) returns (evs: seq<ServerEvent>)
      requires Valid() && isRunning
      modifies this, socket
      ensures Valid() && isRunning
      ensures socket.handle == old(socket.handle) && socket.pending == old(socket.pending)
      ensures socket.subscribed == old(socket.subscribed)
      ensures id in Ids(old(socket.open)) ==>
        var k := Find(old(socket.open), id).value;
        && socket.open == RemoveAt(old(socket.open), k)
        && socket.calls == old(socket.calls) + [Closer.CloseOpenConnection(old(socket.open)[k])]
      ensures id !in Ids(old(socket.open)) ==> socket.open == old(socket.open) && socket.calls == old(socket.calls)
      ensures id !in clients && id !in Ids(socket.open)
      ensures forall y :: y in Ids(socket.open) ==> y in Ids(old(socket.open))
      ensures clients == RemoveFirst(old(clients), id)
      ensures forall y :: y in clients <==> y in old(clients) && y != id
      ensures evs == (if id in Ids(old(socket.open)) then [ClientConnectionClosedByServer(id)] else [])
    {
      var open := socket.open;
      var pes := socket.CloseConnection(id);
      if id in Ids(open) {
        var k := Find(open, id).value;
        assert socket.open == RemoveAt(open, k);
        IdsAfterRemoveAt(open, k);
        CloseKeepsClients(clients, open, socket.open, id);
        clients := RemoveFirst(clients, id);
        evs := [Forward(pes[0])];
      } else {
        assert id !in clients;
        evs := [];
      }
    }

    /**
     * A status change for the listener, through `ListenSocket`'s own handler:
     * a request from a new id joins the pending list and is forwarded as
     * ClientConnectionRequested; a repeated request from a held id only has
     * its new handle closed with linger; clients are not affected.
     */
    method OnListenSocketStatusChanged(ev: StatusEvent) returns (evs: seq<ServerEvent>)
      requires Valid()
      modifies socket
      ensures Valid()
      ensures socket.handle == old(socket.handle) && socket.open == old(socket.open)
      ensures !(old(socket.IsAffectedByCallback(ev)) && ev.newState == Connecting) ==> evs == [] && unchanged(socket)
      ensures (old(socket.IsAffectedByCallback(ev)) && ev.newState == Connecting
               && ev.remote in Ids(old(socket.open)) + Ids(old(socket.pending))) ==>
        && socket.pending == old(socket.pending) && socket.subscribed == old(socket.subscribed)
        && socket.calls == old(socket.calls) + [Closer.CloseOpenHandle(ev.conn)]
        && evs == []
      ensures (old(socket.IsAffectedByCallback(ev)) && ev.newState == Connecting
               && ev.remote !in Ids(old(socket.open)) + Ids(old(socket.pending))) ==>
        && socket.pending == old(socket.pending) + [NewRemote(ev)]
        && socket.subscribed == old(socket.subscribed) + {NewRemote(ev)}
        && socket.calls == old(socket.calls)
        && evs == [ClientConnectionRequested(ev.remote)]
    {
      var pes := socket.OnSteamNetConnectionStatusChanged(ev);
      evs := ForwardAll(pes);
    }

    /**
     * A status change for one of the pool's connections. A close outcome of a
     * connection still wired to the pool drops it from the pool, closes it
     * without linger and unwires it; a running server then forwards the close
     * and drops the client with that id. A stopped server has unwired its
     * handlers, so the socket's unguarded event raise throws (`None`) after
     * those socket changes.
     */
    method OnConnectionStatusChanged(c: Connection, ev: StatusEvent) returns (evs: Option<seq<ServerEvent>>)
      requires Valid()
      requires c.role.Remote?
      modifies this, socket
      ensures Valid()
      ensures isRunning == old(isRunning) && socket.handle == old(socket.handle)
      ensures var o := OnStatusChanged(c, ev).1;
        if o.Some? && c in old(socket.subscribed) then
          && socket.subscribed == old(socket.subscribed) - {c}
          && socket.calls == old(socket.calls) + [Closer.CloseDeadConnection(c)]
          && c !in socket.pending && c !in socket.open
          && (c in old(socket.pending) ==>
                socket.pending == RemoveFirst(old(socket.pending), c) && socket.open == old(socket.open))
          && (c !in old(socket.pending) ==>
                socket.pending == old(socket.pending) && socket.open == RemoveFirst(old(socket.open), c))
          && clients == RemoveFirst(old(clients), c.identity)
          && c.identity !in clients
          && (old(isRunning) ==>
                evs == Some([if o == Some(ClosedByRemoteHost) then ClientConnectionClosedByClient(c.identity)
                             else ClientConnectionClosedByServer(c.identity)]))
          && (!old(isRunning) ==> evs.None?)
        else
          evs == Some([]) && unchanged(this, socket)
    {
      if isRunning {
        var forwarded := OnRunningConnectionStatusChanged(c, ev);
        evs := Some(forwarded);
      } else {
        NoOpenNoClients(clients);
        var pes := socket.OnConnectionStatusChanged(c, ev);
        evs := if pes == [] then Some([]) else None;
      }
    }

    /** The same status change while the server runs, its handlers wired. */
    method OnRunningConnectionStatusChanged(c: Connection, ev: StatusEvent) returns (evs: seq<ServerEvent>)
      requires Valid() && isRunning
      requires c.role.Remote?
      modifies this, socket
      ensures isRunning
      ensures Valid()
      ensures socket.handle == old(socket.handle)
      ensures var o := OnStatusChanged(c, ev).1;
        if o.Some? && c in old(socket.subscribed) then
          && socket.subscribed == old(socket.subscribed) - {c}
          && socket.calls == old(socket.calls) + [Closer.CloseDeadConnection(c)]
          && c !in socket.pending && c !in socket.open
          && (c in old(socket.pending) ==>
                socket.pending == RemoveFirst(old(socket.pending), c) && socket.open == old(socket.open))
          && (c !in old(socket.pending) ==>
                socket.pending == old(socket.pending) && socket.open == RemoveFirst(old(socket.open), c))
          && clients == RemoveFirst(old(clients), c.identity)
          && c.identity !in clients
          && evs == [if o == Some(ClosedByRemoteHost) then ClientConnectionClosedByClient(c.identity)
                     else ClientConnectionClosedByServer(c.identity)]
        else
          evs == [] && unchanged(this, socket)
    {
      var o := OnStatusChanged(c, ev).1;
      if o.Some? && c in socket.subscribed {
        var open := socket.open;
        var pes := socket.OnConnectionStatusChanged(c, ev);
        ClosedConnectionLeavesClients(clients, open, socket.open, c);
        clients := RemoveFirst(clients, c.identity);
        evs := [Forward(pes[0])];
      } else {
        var _ := socket.OnConnectionStatusChanged(c, ev);
        evs := [];
      }
    }

    /** `SendMessage`: only while running, to the client's open connection. */
    method SendMessage(id: PeerId, buffer: Bytes)
      requires Valid()
      modifies socket
      ensures Valid()
      ensures socket.handle == old(socket.handle) && socket.open == old(socket.open)
      ensures socket.pending == old(socket.pending) && socket.subscribed == old(socket.subscribed)
      ensures socket.calls ==
        if isRunning && id in Ids(socket.open)
        then old(socket.calls) + [TransportCall.SendMessage(HandleOf(socket.open, id), buffer)]
        else old(socket.calls)
    {
      if isRunning {
        socket.SendMessage(id, buffer);
      }
    }

    /** `BroadcastMessage`: while running, one send of `buffer` to every client not excepted, in client order. */
    method BroadcastMessage(buffer: Bytes, exceptions: Option<seq<PeerId>>)
      requires Valid()
      modifies socket
      ensures Valid()
      ensures socket.handle == old(socket.handle) && socket.open == old(socket.open)
      ensures socket.pending == old(socket.pending) && socket.subscribed == old(socket.subscribed)
      ensures !isRunning ==> socket.calls == old(socket.calls)
      ensures isRunning ==> socket.calls == old(socket.calls) + Sends(socket.open, Recipients(clients, exceptions), buffer)
    {
      if isRunning {
        var cs, open := clients, socket.open;
        var i := 0;
        while i < |cs|
          invariant 0 <= i <= |cs|
          invariant socket.Valid()
          invariant socket.handle == old(socket.handle) && socket.open == open
          invariant socket.pending == old(socket.pending) && socket.subscribed == old(socket.subscribed)
          invariant forall y :: y in Recipients(cs[..i], exceptions) ==> y in Ids(open)
          invariant socket.calls == old(socket.calls) + Sends(open, Recipients(cs[..i], exceptions), buffer)
        {
          BroadcastStep(open, cs, exceptions, i, buffer);
          ghost var sent := Sends(open, Recipients(cs[..i], exceptions), buffer);
          ghost var before := socket.calls;
          SendUnlessExcepted(cs[i], buffer, exceptions);
          AppendAssoc(old(socket.calls), sent, socket.calls[|before|..]);
          i := i + 1;
        }
        assert cs[..i] == cs;
      }
    }

    /** One turn of `BroadcastMessage`'s loop: client `x` gets `buffer` unless excepted. */
    method SendUnlessExcepted(x: PeerId, buffer: Bytes, exceptions: Option<seq<PeerId>>)
      requires Valid() && isRunning
      requires x in clients
      modifies socket
      ensures Valid()
      ensures socket.handle == old(socket.handle) && socket.open == old(socket.open)
      ensures socket.pending == old(socket.pending) && socket.subscribed == old(socket.subscribed)
      ensures socket.calls == old(socket.calls)
        + (if exceptions.Some? && x in exceptions.value then []
           else [TransportCall.SendMessage(HandleOf(socket.open, x), buffer)])
    {
      if !(exceptions.Some? && x in exceptions.value) {
        socket.SendMessage(x, buffer);
      }
    }

    /** `RelayServer.OnServerMessagesReceived`: every message re-broadcast to all clients except the sender. */
    method RelayMessages(sender: PeerId, batch: seq<Bytes>)
      requires Valid()
      modifies socket
      ensures Valid()
      ensures socket.handle == old(socket.handle) && socket.open == old(socket.open)
      ensures socket.pending == old(socket.pending) && socket.subscribed == old(socket.subscribed)
      ensures !isRunning ==> socket.calls == old(socket.calls)
      ensures isRunning ==> socket.calls == old(socket.calls) + RelaySends(socket.open, clients, sender, batch)
    {
      ghost var open, cs := socket.open, clients;
      var running := isRunning;
      var j := 0;
      while j < |batch|
        invariant 0 <= j <= |batch|
        invariant Valid() && clients == cs && isRunning == running
        invariant socket.handle == old(socket.handle) && socket.open == open
        invariant socket.pending == old(socket.pending) && socket.subscribed == old(socket.subscribed)
        invariant !running ==> socket.calls == old(socket.calls)
        invariant running ==> socket.calls == old(socket.calls) + RelaySends(open, cs, sender, batch[..j])
      {
        assert batch[..j + 1][..j] == batch[..j];
        ghost var sent := RelaySends(open, cs, sender, batch[..j]);
        BroadcastMessage(batch[j], Some([sender]));
        if running {
          AppendAssoc(old(socket.calls), sent, Sends(open, Recipients(cs, Some([sender])), batch[j]));
        }
        j := j + 1;
      }
      assert batch[..j] == batch;
    }

    /**
     * `PollMessages`: while running, one batch per client in client order;
     * each non-empty batch is reported and, on a relay, relayed at once.
     */
    method PollMessages(inbox: Inbox) returns (evs: seq<ServerEvent>, inbox': Inbox)
      requires Valid()
      modifies socket
      ensures Valid()
      ensures socket.handle == old(socket.handle) && socket.open == old(socket.open)
      ensures socket.pending == old(socket.pending) && socket.subscribed == old(socket.subscribed)
      ensures !isRunning ==> evs == [] && inbox' == inbox && socket.calls == old(socket.calls)
      ensures isRunning ==>
        var r := PollAll(socket.open, clients, relaying, clients, inbox);
        evs == r.events && inbox' == r.inbox && socket.calls == old(socket.calls) + r.sends
    {
      evs, inbox' := [], inbox;
      if isRunning {
        var cs := clients;
        ghost var open := socket.open;
        ghost var r := PollOutcome([], [], inbox);
        var i := 0;
        while i < |cs|
          invariant 0 <= i <= |cs|
          invariant Valid() && isRunning && clients == cs
          invariant socket.handle == old(socket.handle) && socket.open == open
          invariant socket.pending == old(socket.pending) && socket.subscribed == old(socket.subscribed)
          invariant forall y :: y in cs[..i] ==> y in Ids(open)
          invariant r == PollAll(open, cs, relaying, cs[..i], inbox)
          invariant evs == r.events && inbox' == r.inbox && socket.calls == old(socket.calls) + r.sends
        {
          PrefixOpen(cs, open, i + 1);
          ghost var calls := socket.calls;
          var polled, rest := PollClient(cs[i], inbox');
          PollAdvance(open, cs, relaying, i, inbox, old(socket.calls), evs, inbox', calls, polled, rest, socket.calls);
          r := PollAll(open, cs, relaying, cs[..i + 1], inbox);
          evs, inbox' := evs + polled, rest;
          i := i + 1;
        }
        assert cs[..i] == cs;
      }
    }

    /** One client's turn in `PollMessages`: a batch taken, reported when non-empty, and relayed on a relay. */
    method PollClient(x: PeerId, inbox: Inbox) returns (evs: seq<ServerEvent>, inbox': Inbox)
      requires Valid() && isRunning
      requires x in clients
      modifies socket
      ensures Valid()
      ensures socket.handle == old(socket.handle) && socket.open == old(socket.open)
      ensures socket.pending == old(socket.pending) && socket.subscribed == old(socket.subscribed)
      ensures var step := PollOne(socket.open, clients, relaying, x, inbox);
        evs == step.events && inbox' == step.inbox && socket.calls == old(socket.calls) + step.sends
    {
      var batch, rest := socket.PollMessages(x, inbox);
      inbox', evs := rest, [];
      if |batch.value| > 0 {
        evs := [MessagesReceived(x, batch.value)];
        if relaying {
          RelayMessages(x, batch.value);
        }
      }
    }

    /**
     * `RemoveNonLobbyClients`: closes, in client order, every client that is
     * not a lobby member. Outside a lobby the member list is `null`, so any
     * client makes the first loop throw (`None`, nothing changed).
     */
    method RemoveNonLobbyClients(members: Option<seq<PeerId>>) returns (evs: Option<seq<ServerEvent>>)
      requires Valid() && isRunning
      modifies this, socket
      ensures Valid() && isRunning
      ensures members.None? && old(clients) != [] ==> evs.None? && unchanged(this, socket)
      ensures members.None? && old(clients) == [] ==> evs == Some([]) && unchanged(this, socket)
      ensures members.Some? ==>
        && evs == Some(ClosedByServer(Recipients(old(clients), members)))
        && clients == Recipients(old(clients), Some(Recipients(old(clients), members)))
        && (forall y :: y in clients <==> y in old(clients) && y in members.value)
      ensures evs.Some? ==>
        var closed := CloseEach(old(socket.open), Recipients(old(clients), members));
        && socket.handle == old(socket.handle) && socket.pending == old(socket.pending)
        && socket.subscribed == old(socket.subscribed)
        && socket.open == closed.open
        && socket.calls == old(socket.calls) + closed.calls
    {
      var cs := clients;
      var toRemove := [];
      var i := 0;
      while i < |cs|
        invariant 0 <= i <= |cs|
        invariant members.None? ==> i == 0
        invariant toRemove == Recipients(cs[..i], members)
      {
        var inLobby := IsClientInLobby(members, cs[i]);
        if inLobby.None? {
          return None;
        }
        assert cs[..i + 1][..i] == cs[..i];
        if !inLobby.value {
          toRemove := toRemove + [cs[i]];
        }
        i := i + 1;
      }
      assert cs[..i] == cs;
      assert toRemove == Recipients(cs, members);
      evs := Some([]);
      assert CloseEach(socket.open, []) == PoolAfter(socket.open, []);
      RecipientsNoExceptions(cs, []);
      if toRemove != [] {
        RecipientsNoDuplicates(cs, members);
        var removed := CloseClients(toRemove);
        evs := Some(removed);
      }
    }

    /** The second loop of `RemoveNonLobbyClients`: `ListenSocket.CloseConnection` for each id, in order. */
    method CloseClients(ids: seq<PeerId>) returns (evs: seq<ServerEvent>)
      requires Valid() && isRunning
      requires NoDuplicates(ids)
      requires forall y :: y in ids ==> y in clients
      modifies this, socket
      ensures Valid() && isRunning
      ensures evs == ClosedByServer(ids)
      ensures clients == Recipients(old(clients), Some(ids))
      ensures forall y :: y in clients <==> y in old(clients) && y !in ids
      ensures socket.handle == old(socket.handle) && socket.pending == old(socket.pending)
      ensures socket.subscribed == old(socket.subscribed)
      ensures var closed := CloseEach(old(socket.open), ids);
        socket.open == closed.open && socket.calls == old(socket.calls) + closed.calls
    {
      ghost var cs := clients;
      RecipientsNoExceptions(cs, []);
      evs := [];
      var j := 0;
      while j < |ids|
        invariant 0 <= j <= |ids|
        invariant Valid() && isRunning
        invariant socket.handle == old(socket.handle) && socket.pending == old(socket.pending)
        invariant socket.subscribed == old(socket.subscribed)
        invariant clients == Recipients(cs, Some(ids[..j]))
        invariant evs == ClosedByServer(ids[..j])
        invariant socket.open == CloseEach(old(socket.open), ids[..j]).open
        invariant socket.calls == old(socket.calls) + CloseEach(old(socket.open), ids[..j]).calls
      {
        CloseStep(ids, j);
        NextStillClient(cs, ids, j);
        ghost var open, calls := socket.open, socket.calls;
        var closed := CloseClient(ids[j]);
        ClientsStep(cs, ids, j, clients);
        PoolStep(old(socket.open), old(socket.calls), ids, j, open, calls, socket.open, socket.calls);
        evs := evs + closed;
        j := j + 1;
      }
      assert ids[..j] == ids;
    }

    /**
     * `Update`: while running, drops the clients that left the lobby, polls
     * every remaining client and raises Updated. An abort in the first step
     * (`None`) changes nothing.
     */
    method Update(lobby: Lobby, inbox: Inbox) returns (evs: Option<seq<ServerEvent>>, inbox': Inbox)
      requires Valid()
      modifies this, socket
      ensures Valid() && isRunning == old(isRunning)
      ensures !old(isRunning) ==> evs == Some([]) && inbox' == inbox && unchanged(this, socket)
      ensures old(isRunning) && lobby.Members().None? && old(clients) != [] ==>
        evs.None? && inbox' == inbox && unchanged(this, socket)
      ensures old(isRunning) && evs.Some? ==>
        && (lobby.Members().Some? ==> clients == Recipients(old(clients), Some(Recipients(old(clients), lobby.Members()))))
        && (lobby.Members().None? ==> clients == old(clients) == [])
        && (lobby.Members().Some? ==> forall y :: y in clients ==> y in lobby.Members().value)
        && (lobby.Members().Some? ==> forall y :: y in old(clients) && y in lobby.Members().value ==> y in clients)
        && var polled := PollAll(socket.open, clients, relaying, clients, inbox);
           && evs.value == (if lobby.Members().Some? then ClosedByServer(Recipients(old(clients), lobby.Members())) else [])
                           + polled.events + [Updated]
           && inbox' == polled.inbox
      ensures old(isRunning) && evs.Some? ==>
        var closed := CloseEach(old(socket.open), Recipients(old(clients), lobby.Members()));
        var polled := PollAll(socket.open, clients, relaying, clients, inbox);
        && socket.handle == old(socket.handle) && socket.pending == old(socket.pending)
        && socket.subscribed == old(socket.subscribed)
        && socket.open == closed.open
        && socket.calls == old(socket.calls) + closed.calls + polled.sends
    {
      if !isRunning {
        return Some([]), inbox;
      }
      var removed := RemoveNonLobbyClients(lobby.Members());
      if removed.None? {
        return None, inbox;
      }
      var polled;
      polled, inbox' := PollMessages(inbox);
      evs := Some(removed.value + polled + [Updated]);
    }
  }
}
