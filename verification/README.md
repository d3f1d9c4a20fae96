# quick_dirty_steam in Dafny: connections, the listen-socket pool, sessions and the lobby

This project models the bookkeeping core of *quick_dirty_steam*, a small
Steamworks wrapper for peer-to-peer games in a Steam lobby, and proves
properties of it. Under its calls into Steam, the library keeps this state:

- **Connections.** Each connection has its own transition table. It turns a
  transport status change into at most one outcome: Accepted, Rejected,
  ClosedByLocalHost or ClosedByRemoteHost. `LocalConnection` is an outbound
  connection; `RemoteConnection` is an inbound one.
- **Close disciplines.** `ConnectionCloser` closes a live connection with
  linger and a dead one without.
- **The listen socket.** `ListenSocket` is the lobby owner's pool of inbound
  connections. It keeps a pending list and an open list, and reports every
  move between them as an event.
- **Sessions.** `Client` holds one outbound session to the lobby owner.
  `Server` holds the owner's view of its accepted clients. `RelayServer`
  relays every message to the other clients.
- **Message draining.** `MessageReceiver` drains at most 16 messages per
  call.
- **The lobby.** `Lobby` keeps the lobby entered and its member list. It has
  the guarded create, enter, leave and kick transitions, and the kick
  protocol over lobby chat. `LobbyCreator` and `LobbyEnterer` allow one
  request in flight. `LobbyMetaData` and `Member` keep key/value metadata
  and report what each update changed.

## How the model is built

- **Steam's answers are inputs.** Every answer the core reads from Steam is
  a parameter: handles, `EResult` codes, the lobby owner, the roster,
  metadata snapshots and the transport's message queues.
- **Steam requests are logged.** Every request the core makes of Steam is
  appended, in order, to a call log (`calls`). Closes carry their linger
  flag.
- **C# events are returned.** A method returns the events it raises as a
  sequence, in the order it raises them.
- **`null` is `Option`.** A `null` return is `None`.
- **Exceptions abort.** A handler that the source makes throw returns
  `None`. What it changed before the throw stays changed; what comes after
  is not done. This covers a `null` dereference, an event raised with no
  subscriber, and `Dictionary.Add` on a repeated key.
- **Static classes are objects.** The static classes (`Lobby`,
  `ListenSocket`, `Client`) become objects with the same fields.
  - `Server` owns its `ListenSocket`.
  - Inside the networking core, the method that raises an event calls the
    handlers it would reach directly. The listen socket's events reach the
    server's handlers, and a connection's status change reaches the pool or
    the client. So `Server.Stop` sees every close event of
    `ListenSocket.Close` before it unwires. Events that leave the lobby
    classes are not chained; see "Left out".

### Quirks kept as written

- **`Client.Connect` always returns false**, even when it sent a request.
- **`LobbyCreator` reports OK with an I/O failure as `Success`**, with a
  Nil lobby id.
- **The kick test is a substring test.** The owner's message kicking member
  12 also kicks member 1 (`KickOverMatchesShorterId`). It is exact only
  between ids whose decimal texts have the same length
  (`KickTargetsExactly`).
- **`BroadcastMessage`'s trailing `else` binds to the inner `if`.** A
  stopped server therefore sends nothing and logs nothing.
- **`Lobby.RemoveMember` of an unknown id throws.** It dereferences `null`,
  so the handler aborts without raising an event.
- **`Server.IsClientInLobby` throws outside a lobby.** `Lobby.Members` is
  `null` there, so `Update` aborts when it has any client.
- **`Lobby.Initialize` does not clear the member list** before adding
  Steam's roster.
- **An invitation skips the in-flight check.** `OnGameLobbyJoinRequested`
  asks the enterer to join outside a lobby even while a creation is
  awaited, so both answers can reach `Initialize`. Inside a lobby it only
  raises `Entered(false)`.
- **A stopped server can throw from the socket.** `RejectRequest`,
  `CloseConnection` and a failed `AcceptRequest` leave the connection wired
  to the pool. After `Server.Stop` unwires the server's handlers, a close of
  such a connection is still dropped, closed and unwired, and then the
  socket raises its event with no subscriber and throws.
- **Key and value limits count UTF-16 code units.** `string.Length` counts a
  character outside the Basic Multilingual Plane twice, so a key of 128
  emoji is refused (`AstralKeyRefused`).
- **The three close paths use different disciplines.**
  - `ListenSocket.Close` linger-closes the pending connections as well as
    the open ones.
  - A failed `AcceptRequest` linger-closes the connection.
  - A close driven by the connection itself closes without linger.

## Model

| member | source | states |
|---|---|---|
| Connections.NewRemote | quick_dirty_steam/networking/connectivity/RemoteConnection.cs:9-10 | an inbound connection takes its id and handle from the creating event and captures that event's listener once |
| Connections.EqualsById | quick_dirty_steam/networking/connectivity/Connection.cs:33-34 | equality holds iff the other connection exists and has the same Steam id; handle and role are ignored; it is reflexive, symmetric and transitive |
| Connections.LocalOutcome | quick_dirty_steam/networking/connectivity/LocalConnection.cs:20-44 | Accepted iff the new state is Connected; Rejected iff a ClosedByPeer/ProblemDetectedLocally comes from Connecting or FindingRoute; otherwise ClosedByPeer gives ClosedByRemoteHost and ProblemDetectedLocally gives ClosedByLocalHost |
| Connections.RemoteOutcome | quick_dirty_steam/networking/connectivity/RemoteConnection.cs:15-31 | never Accepted or Rejected; ClosedByRemoteHost iff ClosedByPeer and ClosedByLocalHost iff ProblemDetectedLocally, whatever the old state |
| Connections.OnStatusChanged | quick_dirty_steam/networking/connectivity/LocalConnection.cs:15-48 | an event that does not match the connection's handle (and listener) yields nothing; identity and handle never change; the base class yields nothing; a disposed outbound connection yields nothing; a terminal outcome of an outbound connection disposes it |
| Connections.DisposedIsSilent | quick_dirty_steam/networking/connectivity/LocalConnection.cs:38 | after disposal, any sequence of status changes raises no outcome and leaves the connection as it is |
| Connections.LocalCloseIsOneShot | quick_dirty_steam/networking/connectivity/LocalConnection.cs:20-39 | over any sequence of status changes an outbound connection raises at most one terminal outcome, and nothing after it |
| Connections.RemoteNeverDecides | quick_dirty_steam/networking/connectivity/RemoteConnection.cs:12-32 | over any sequence of status changes an inbound connection raises only close outcomes |
| Connections.BaseIgnoresEverything | quick_dirty_steam/networking/connectivity/Connection.cs:42-43 | the base class raises nothing over any sequence of status changes |
| ConnectionCloser.CloseOpenConnection | quick_dirty_steam/networking/connectivity/ConnectionCloser.cs:8-14 | closes the connection's handle with linger |
| ConnectionCloser.CloseOpenHandle | quick_dirty_steam/networking/connectivity/ConnectionCloser.cs:16-23 | closes the given handle with linger |
| ConnectionCloser.CloseDeadConnection | quick_dirty_steam/networking/connectivity/ConnectionCloser.cs:25-31 | closes the connection's handle without linger |
| ConnectionCloser.OverloadsAgree | quick_dirty_steam/networking/connectivity/ConnectionCloser.cs:8-31 | both CloseOpenConnection overloads issue the same call; the two disciplines differ exactly in the linger flag |
| MessageReceiver.Payload | quick_dirty_steam/networking/messages/MessageReceiver.cs:26-27 | a buffer has exactly m_cbSize bytes, the message's data in order |
| MessageReceiver.Payloads | quick_dirty_steam/networking/messages/MessageReceiver.cs:20-29 | one buffer per message, position by position |
| MessageReceiver.Receive | quick_dirty_steam/networking/messages/MessageReceiver.cs:10-39 | returns min(queued, 16) buffers, the payloads of the front of the queue in delivery order; the rest stays queued; an empty queue gives an empty list |
| MessageReceiver.Batch | quick_dirty_steam/networking/messages/MessageReceiver.cs:14-16 | one call's batch has min(queued, 16) buffers |
| MessageReceiver.RoundsDrainInOrder | quick_dirty_steam/networking/messages/MessageReceiver.cs:20-29 | polling until empty returns, concatenated, every payload of the queue once, in order |
| MessageReceiver.RoundsBounded | quick_dirty_steam/networking/messages/MessageReceiver.cs:14-16 | every batch of repeated polling holds between 1 and 16 buffers |
| MessageReceiver.RoundsCount | quick_dirty_steam/networking/messages/MessageReceiver.cs:14-16 | draining n messages takes ceil(n / 16) polls |
| ListenSockets.Find | quick_dirty_steam/networking/connectivity/ListenSocket.cs:296-300 | finds a connection iff one has the id; the one found is the first with that id |
| ListenSockets.LocalCloseEvents | quick_dirty_steam/networking/connectivity/ListenSocket.cs:58-69 | one ClosedByLocalHost per connection, in list order |
| ListenSockets.LingerCloses | quick_dirty_steam/networking/connectivity/ListenSocket.cs:58-69 | one linger close per connection handle, in list order |
| ListenSockets.TakePending | quick_dirty_steam/networking/connectivity/ListenSocket.cs:89-116 | taking a pending request out, and opening it when accepted, keeps the pool invariant (each id at most once across pending and open); the id is then pending no more and open exactly when accepted |
| ListenSockets.TakeOpen | quick_dirty_steam/networking/connectivity/ListenSocket.cs:145-158 | taking an open connection out keeps the pool invariant and its id is open no more |
| ListenSockets.Drop | quick_dirty_steam/networking/connectivity/ListenSocket.cs:170-192 | removing a connection from pending if it is there, else from open, and unwiring it keeps the pool invariant, and the connection is in neither list |
| ListenSockets.AddPending | quick_dirty_steam/networking/connectivity/ListenSocket.cs:257-272 | a request from an id the pool does not hold, on the current listener, can join pending without breaking the pool invariant |
| ListenSockets.ListenSocket.constructor | quick_dirty_steam/networking/connectivity/ListenSocket.cs:17-22 | starts closed, with both lists empty |
| ListenSockets.ListenSocket.Open | quick_dirty_steam/networking/connectivity/ListenSocket.cs:32-50 | succeeds iff the socket was closed and the transport returned a valid handle; an open socket is left as it is; the lists never change |
| ListenSockets.ListenSocket.Close | quick_dirty_steam/networking/connectivity/ListenSocket.cs:52-83 | on an open socket: one linger close and one ClosedByLocalHost per open then pending connection, both lists emptied, the listener closed and the handle invalid whatever the transport answers; on a closed socket nothing happens |
| ListenSockets.ListenSocket.AcceptRequest | quick_dirty_steam/networking/connectivity/ListenSocket.cs:89-122 | a pending id leaves pending; on OK it is appended to open and reported accepted; otherwise it is linger-closed and reported closed by the local host; an unknown id or a closed socket changes nothing; the pool invariant is kept |
| ListenSockets.ListenSocket.RejectRequest | quick_dirty_steam/networking/connectivity/ListenSocket.cs:124-143 | a pending id is closed without linger, leaves pending and is reported rejected; otherwise nothing changes |
| ListenSockets.ListenSocket.CloseConnection | quick_dirty_steam/networking/connectivity/ListenSocket.cs:145-164 | an open id is linger-closed, leaves open and is reported closed by the local host; otherwise nothing changes |
| ListenSockets.ListenSocket.OnConnectionClosed | quick_dirty_steam/networking/connectivity/ListenSocket.cs:170-192 | the connection leaves pending if it is there, else open; it is closed without linger, unwired and reported closed by the side that closed it |
| ListenSockets.ListenSocket.OnConnectionStatusChanged | quick_dirty_steam/networking/connectivity/ListenSocket.cs:284-294 | a close outcome of an inbound connection reaches the pool only while the connection is wired to it, with the effect of OnConnectionClosed; anything else changes nothing |
| ListenSockets.ListenSocket.OnSteamNetConnectionStatusChanged | quick_dirty_steam/networking/connectivity/ListenSocket.cs:237-278 | only a Connecting event on this listener is handled; from an id already pending or open only the new handle is linger-closed, silently; from a new id a pending request is added, wired and reported |
| ListenSockets.ListenSocket.SendMessage | quick_dirty_steam/networking/connectivity/ListenSocket.cs:198-214 | one send on the open connection with that id while the socket is open; otherwise nothing; the lists never change |
| ListenSockets.ListenSocket.PollMessages | quick_dirty_steam/networking/connectivity/ListenSocket.cs:216-231 | the batch of the open connection with that id, taken off its queue; None, with every queue untouched, for an unknown id or a closed socket |
| MetaData.Utf16Length | quick_dirty_steam/matchmaking/LobbyMetaData.cs:40 | string.Length: between one and two code units per character, exactly one each inside the Basic Multilingual Plane and two each outside it |
| MetaData.AstralKeyRefused | quick_dirty_steam/matchmaking/LobbyMetaData.cs:40 | a key of 128 emoji is 256 code units long and is refused, though it has fewer than 255 characters |
| MetaData.ToMap | quick_dirty_steam/matchmaking/LobbyMetaData.cs:79-95 | the dictionary's keys are exactly the snapshot's keys |
| MetaData.ToMapHolds | quick_dirty_steam/matchmaking/LobbyMetaData.cs:79-95 | with distinct keys the dictionary maps every snapshot key to its snapshot value |
| MetaData.BuildDictionary | quick_dirty_steam/matchmaking/LobbyMetaData.cs:88-92 | building succeeds iff no key repeats (Add throws otherwise), and then gives the snapshot's dictionary |
| MetaData.Changes | quick_dirty_steam/matchmaking/LobbyMetaData.cs:61-70 | a snapshot pair is reported iff its key is new or its value differs from the stored one |
| MetaData.Diff | quick_dirty_steam/matchmaking/LobbyMetaData.cs:61-70 | the comparison loop reports exactly the changed pairs, in snapshot order |
| MetaData.NothingChanged | quick_dirty_steam/matchmaking/LobbyMetaData.cs:61-70 | a snapshot with no new or altered pair reports nothing |
| MetaData.ReapplyIsSilent | quick_dirty_steam/matchmaking/LobbyMetaData.cs:61-73 | once a snapshot is stored, applying it again reports nothing |
| MetaData.FirstUpdateReportsAll | quick_dirty_steam/matchmaking/LobbyMetaData.cs:61-70 | against an empty store every pair is reported, in order |
| MetaData.LobbyMetaData.constructor | quick_dirty_steam/matchmaking/LobbyMetaData.cs:19-23 | starts with an empty store for its lobby |
| MetaData.LobbyMetaData.GetMetaDataValue | quick_dirty_steam/matchmaking/LobbyMetaData.cs:28-36 | the stored value for a known key, None otherwise |
| MetaData.LobbyMetaData.SetMetaDataPair | quick_dirty_steam/matchmaking/LobbyMetaData.cs:38-49 | forwarded iff 0 < key length < 255 and 0 < value length < 8192, lengths in UTF-16 code units as C#'s string.Length counts them; the store waits for Steam's update |
| MetaData.LobbyMetaData.OnLobbyDataUpdate | quick_dirty_steam/matchmaking/LobbyMetaData.cs:51-77 | only a successful update for this lobby acts: it reports exactly the changed pairs and stores the snapshot; a repeated key aborts; any other update changes nothing |
| Members.FilterSnapshot | quick_dirty_steam/matchmaking/Member.cs:71-80 | one pair per filter key, in filter order, with the member's current value |
| Members.FilterSnapshotKeys | quick_dirty_steam/matchmaking/Member.cs:71-80 | the snapshot's key set is exactly the filter's; it can be stored iff the filter names no key twice |
| Members.Member.constructor | quick_dirty_steam/matchmaking/Member.cs:40-53 | a valid id is kept with its lobby; an invalid one leaves both ids Nil; the store starts empty |
| Members.Member.SetMetaDataPair | quick_dirty_steam/matchmaking/Member.cs:26-38 | forwarded iff a filter exists, holds the key, and the strict length bounds hold, in UTF-16 code units |
| Members.Member.GetMetaDataValue | quick_dirty_steam/matchmaking/Member.cs:58-69 | the stored value iff the member is valid and the key stored, None otherwise |
| Members.Member.GetMetaDataPairs | quick_dirty_steam/matchmaking/Member.cs:71-80 | no filter gives an empty snapshot; a filter gives its snapshot iff it names no key twice (None when Add throws) |
| Members.Member.OnLobbyDataUpdate | quick_dirty_steam/matchmaking/Member.cs:82-105 | only an update naming this valid member acts, with no success check: it reports the changed filter pairs and stores the fresh snapshot; a repeated filter key aborts |
| LobbyCreators.ToInt32 | quick_dirty_steam/matchmaking/LobbyCreator.cs:25 | the uint-to-int cast keeps the value modulo 2^32 within the int range, and small values unchanged |
| LobbyCreators.FromCode | quick_dirty_steam/matchmaking/LobbyCreator.cs:41 | the cast to LobbyCreationResult keeps the code; codes outside the enum stay unnamed |
| LobbyCreators.CodeRoundTrip | quick_dirty_steam/matchmaking/LobbyCreationResult.cs:3-10 | casting a result's code back gives the same result |
| LobbyCreators.CreationOutcomeCases | quick_dirty_steam/matchmaking/LobbyCreator.cs:32-44 | the real lobby id is reported only for OK without I/O failure; otherwise the raw code with Nil; Success iff the code is OK, so OK with an I/O failure is Success with Nil |
| LobbyCreators.LobbyCreator.constructor | quick_dirty_steam/matchmaking/LobbyCreator.cs:13-17 | starts with no request in flight |
| LobbyCreators.LobbyCreator.Create | quick_dirty_steam/matchmaking/LobbyCreator.cs:19-30 | issues a creation request only when none is in flight; afterwards one is awaited |
| LobbyCreators.LobbyCreator.OnLobbyCreated | quick_dirty_steam/matchmaking/LobbyCreator.cs:32-47 | reports CreationOutcome and always stops awaiting |
| LobbyEnterers.EnterOutcomeCases | quick_dirty_steam/matchmaking/LobbyEnterer.cs:30-44 | (true, lobby id) iff the response is Success without I/O failure; otherwise (false, Nil) |
| LobbyEnterers.LobbyEnterer.constructor | quick_dirty_steam/matchmaking/LobbyEnterer.cs:11-17 | starts with no request in flight |
| LobbyEnterers.LobbyEnterer.Enter | quick_dirty_steam/matchmaking/LobbyEnterer.cs:19-28 | issues a join request only when none is in flight; afterwards one is awaited |
| LobbyEnterers.LobbyEnterer.OnLobbyEnter | quick_dirty_steam/matchmaking/LobbyEnterer.cs:30-44 | reports EnterOutcome and always stops awaiting |
| KickMessages.Decimal | quick_dirty_steam/matchmaking/Lobby.cs:219 | an id's text is a non-empty string of decimal digits |
| KickMessages.DecimalRoundTrip | quick_dirty_steam/matchmaking/Lobby.cs:219 | reading an id's decimal text back gives the id |
| KickMessages.DecimalInjective | quick_dirty_steam/matchmaking/Lobby.cs:219 | different ids have different texts |
| KickMessages.ContainsAt | quick_dirty_steam/matchmaking/Lobby.cs:329-331 | an occurrence at some position makes the substring test hold |
| KickMessages.ContainsWitness | quick_dirty_steam/matchmaking/Lobby.cs:329-331 | the substring test holds only through an occurrence at some position |
| KickMessages.KickText | quick_dirty_steam/matchmaking/Lobby.cs:219 | the kick text contains the marker and the target's decimal id |
| KickMessages.KickTargetsExactly | quick_dirty_steam/matchmaking/Lobby.cs:329-332 | between ids with texts of equal length, a kick text is recognised by exactly the member it names |
| KickMessages.KickOverMatchesShorterId | quick_dirty_steam/matchmaking/Lobby.cs:331 | the kick text for member 12 also matches member 1 |
| Lobbies.MemberIds | quick_dirty_steam/matchmaking/Lobby.cs:120 | the members' ids, position by position |
| Lobbies.ValidIds | quick_dirty_steam/matchmaking/Lobby.cs:497-498 | an id is kept iff it is in the roster and valid; never more ids than the roster has |
| Lobbies.ClampLimit | quick_dirty_steam/matchmaking/Lobby.cs:184 | the limit lies in 1..200; a limit in range is kept; below goes to 1, above to 200 |
| Lobbies.EnterThenLeaveRestores | quick_dirty_steam/matchmaking/Lobby.cs:405-455 | a new member who enters and then leaves leaves the id list as it was |
| Lobbies.SentinelsOutsideLobby | quick_dirty_steam/matchmaking/Lobby.cs:61-137 | outside a lobby: ID 0, OwnerID 0, IsLocalOwner false, Members None, MemberLimit -1 |
| Lobbies.Lobby.constructor | quick_dirty_steam/matchmaking/Lobby.cs:145-164 | starts outside any lobby, with no member and no request in flight |
| Lobbies.Lobby.Create | quick_dirty_steam/matchmaking/Lobby.cs:180-189 | forwards a clamped request iff outside a lobby and no create or enter is in flight; otherwise nothing changes |
| Lobbies.Lobby.Enter | quick_dirty_steam/matchmaking/Lobby.cs:200-209 | forwards a join iff outside a lobby and nothing is in flight; otherwise nothing changes |
| Lobbies.Lobby.OnGameLobbyJoinRequested | quick_dirty_steam/matchmaking/Lobby.cs:268-278 | outside a lobby the enterer is asked to join, whatever creation is in flight, and nothing is raised; inside a lobby only Entered(false) is raised and nothing is asked |
| Lobbies.Lobby.KickMember | quick_dirty_steam/matchmaking/Lobby.cs:214-226 | sends the kick text iff in a lobby, owner, and the target is a member; the lobby state never changes |
| Lobbies.Lobby.Invalidate | quick_dirty_steam/matchmaking/Lobby.cs:507-521 | forgets the lobby id, every member, the chat and the metadata |
| Lobbies.Lobby.Leave | quick_dirty_steam/matchmaking/Lobby.cs:231-242 | inside a lobby: leaves it at Steam, clears the lobby and members, then raises Left; outside: nothing |
| Lobbies.Lobby.Kick | quick_dirty_steam/matchmaking/Lobby.cs:244-250 | leaves at Steam, clears the lobby and members, then raises Kicked |
| Lobbies.Lobby.AddMember | quick_dirty_steam/matchmaking/Lobby.cs:442-455 | the id is appended iff valid; earlier members stay in place |
| Lobbies.Lobby.RemoveMember | quick_dirty_steam/matchmaking/Lobby.cs:433-440 | succeeds iff the id is a member, removing its first occurrence; an unknown id aborts, changing nothing |
| Lobbies.Lobby.Initialize | quick_dirty_steam/matchmaking/Lobby.cs:493-505 | enters the lobby, appends every valid roster id in roster order to the existing list, and creates chat and metadata |
| Lobbies.Lobby.OnCreatorCreated | quick_dirty_steam/matchmaking/Lobby.cs:252-258 | Success initialises the lobby from the roster and issues no Steam request; any other result changes nothing; Created is always raised |
| Lobbies.Lobby.OnEntererEntered | quick_dirty_steam/matchmaking/Lobby.cs:260-266 | success initialises the lobby from the roster and issues no Steam request; failure changes nothing; Entered is always raised |
| Lobbies.Lobby.OnLobbyChatMessageReceived | quick_dirty_steam/matchmaking/Lobby.cs:327-336 | an owner message with the marker is never forwarded and kicks iff it contains the local id's text; every other message is forwarded unchanged |
| Lobbies.Lobby.OnLobbyChatUpdate | quick_dirty_steam/matchmaking/Lobby.cs:405-431 | Entered appends the id when it is valid and always raises MemberEntered; Left/Disconnected/Kicked/Banned remove the id and raise OwnerLeft for the owner, MemberLeft otherwise, or abort for an unknown id; other changes do nothing |
| Servers.ForwardAll | quick_dirty_steam/networking/Server.cs:211-233 | each pool event becomes the server event of the handler it reaches, in order |
| Servers.NoOpenNoClients | quick_dirty_steam/networking/Server.cs:56-61 | without an open connection there is no client |
| Servers.AcceptKeepsClients | quick_dirty_steam/networking/Server.cs:214-218 | adding an accepted id keeps each client listed once and backed by an open connection |
| Servers.CloseKeepsClients | quick_dirty_steam/networking/Server.cs:223-233 | removing a closed id removes exactly that id and keeps the client invariant |
| Servers.ClosedConnectionLeavesClients | quick_dirty_steam/networking/Server.cs:223-233 | a connection that left the pool takes its id out of the clients and the rest stay valid |
| Servers.CloseAllEmptiesClients | quick_dirty_steam/networking/Server.cs:107-119 | once the handlers have seen a ClosedByLocalHost for every pooled connection, no client is left |
| Servers.Recipients | quick_dirty_steam/networking/Server.cs:254-262 | a client is a recipient iff it is not in the exceptions (all clients when there are none) |
| Servers.RecipientsNoDuplicates | quick_dirty_steam/networking/Server.cs:254-262 | no client receives a broadcast twice |
| Servers.RelayReachesOthersOnly | quick_dirty_steam/networking/utils/RelayServer.cs:17-21 | the sender never gets its message back, every other client does, and a batch costs one send per message per other client |
| Servers.PollReportsBatches | quick_dirty_steam/networking/Server.cs:264-276 | polling raises at most one event per client, each a non-empty batch of at most 16 from a polled client; a plain server sends nothing while polling |
| Servers.ClosedByServer | quick_dirty_steam/networking/Server.cs:223-227 | one ClosedByServer event per closed id, in order |
| Servers.CloseEachCloses | quick_dirty_steam/networking/Server.cs:160-164 | closing distinct open ids one by one leaves open exactly the connections whose id was not closed, and the i-th call is a linger close of the handle id i had at the start |
| Servers.RecipientsRemoveFirst | quick_dirty_steam/networking/Server.cs:160-164 | removing one more id from the clients with List.Remove is filtering the old clients by one more exception: closes keep the remaining clients in order |
| Servers.IsClientInLobby | quick_dirty_steam/networking/Server.cs:306-312 | true iff the member list holds the id; None (a throw) when there is no member list |
| Servers.Server.constructor | quick_dirty_steam/networking/Server.cs:56-63 | starts stopped, with no client and a closed socket |
| Servers.Server.Relay | quick_dirty_steam/networking/utils/RelayServer.cs:10-11 | a relay starts like a plain server (stopped, no client, closed socket) but relays what it polls |
| Servers.Server.Start | quick_dirty_steam/networking/Server.cs:78-101 | succeeds iff in a lobby, owner, stopped and given a valid listener; it then runs with that listener and raises Started; the listener is requested iff in a lobby, owner and stopped; a refused start keeps the handle; the socket's lists and wiring never change |
| Servers.Server.Stop | quick_dirty_steam/networking/Server.cs:107-119 | while running: Stopped first, then every open and pending connection linger-closed, reported and unwired, the listener closed and the handle invalid, both lists emptied and no client left; otherwise nothing |
| Servers.Server.OnLobbyLeft | quick_dirty_steam/networking/Server.cs:122-129 | a running server stops exactly as Stop does: Stopped, every pooled connection linger-closed, reported and unwired, the listener closed and its handle invalid, both lists and the clients emptied; a stopped one is untouched |
| Servers.Server.AcceptConnectionRequest | quick_dirty_steam/networking/Server.cs:174-180 | only while running and for a pending id: it leaves pending; with OK it is accepted at the transport, appended to open and to the clients; otherwise it is accepted and then linger-closed, and clients and open stay; in every other case nothing changes |
| Servers.Server.RejectConnectionRequest | quick_dirty_steam/networking/Server.cs:185-191 | only while running and for a pending id: it leaves pending, is closed without linger and reported rejected; open and clients are unaffected; otherwise nothing changes |
| Servers.Server.CloseConnection | quick_dirty_steam/networking/Server.cs:199-205 | only while running: an open client is linger-closed, leaves open and is reported; the clients are the old ones with that id removed, in order; pending and the wiring stay; no one else is closed |
| Servers.Server.CloseClient | quick_dirty_steam/networking/Server.cs:160-164 | closing one id on a running server: an open one is linger-closed, leaves open and is reported, and the clients lose that id and keep their order; an unknown one changes nothing |
| Servers.Server.OnListenSocketStatusChanged | quick_dirty_steam/networking/Server.cs:211-212 | only a Connecting event on the listener acts: a new id joins pending, is wired and forwarded; a held id only has its new handle linger-closed; clients and open are unaffected |
| Servers.Server.OnConnectionStatusChanged | quick_dirty_steam/networking/Server.cs:223-233 | a close of a connection still wired to the pool drops it from pending, else open, closes it without linger and unwires it; a running server then drops that client and reports the close by client or by server; a stopped one throws (None) after the socket's changes; anything else changes nothing |
| Servers.Server.OnRunningConnectionStatusChanged | quick_dirty_steam/networking/Server.cs:229-233 | the same on a running server: the socket's drop, dead close and unwiring, then the client dropped and the close reported |
| Servers.Server.SendMessage | quick_dirty_steam/networking/Server.cs:242-248 | one send to the client's open connection while running; otherwise nothing; the socket's handle, lists and wiring never change |
| Servers.Server.BroadcastMessage | quick_dirty_steam/networking/Server.cs:254-262 | while running, one send to each recipient in client order; a stopped server sends nothing |
| Servers.Server.SendUnlessExcepted | quick_dirty_steam/networking/Server.cs:257-259 | one loop turn: the client gets the buffer iff it is not excepted |
| Servers.Server.RelayMessages | quick_dirty_steam/networking/utils/RelayServer.cs:17-21 | each message in batch order is broadcast to every client but the sender; nothing while stopped |
| Servers.Server.PollMessages | quick_dirty_steam/networking/Server.cs:264-276 | while running, one batch per client in client order, reported only when non-empty and relayed by a relay; a stopped server touches nothing |
| Servers.Server.PollClient | quick_dirty_steam/networking/Server.cs:267-273 | one client's turn: its batch taken, reported if non-empty, relayed by a relay |
| Servers.Server.RemoveNonLobbyClients | quick_dirty_steam/networking/Server.cs:152-165 | closes, in client order, exactly the clients not in the member list, chosen before any close: the socket's open list and calls are those of CloseEach over them; afterwards the clients are the old clients that are members, in their old order; no member list and any client aborts |
| Servers.Server.CloseClients | quick_dirty_steam/networking/Server.cs:160-164 | each listed id is closed as ListenSocket.CloseConnection does (CloseEach: linger closes, open list shrunk) and reported in order; the clients are the old ones minus the list, in their old order |
| Servers.Server.Update | quick_dirty_steam/networking/Server.cs:140-150 | while running: the non-members are closed (CloseEach), then the remaining clients are polled, then Updated is raised; the socket's calls are those closes followed by the relay sends; afterwards the clients are the old members, in their old order, and with no member list they stay empty; stopped: nothing |
| Clients.Client.constructor | quick_dirty_steam/networking/Client.cs:35-37 | starts idle: not connected, no connection |
| Clients.Client.Connect | quick_dirty_steam/networking/Client.cs:61-77 | only in a lobby and idle: a request to the lobby owner, kept when the handle is valid; otherwise nothing changes; always returns false |
| Clients.Client.Invalidate | quick_dirty_steam/networking/Client.cs:208-218 | the connection is forgotten and the client is not connected |
| Clients.Client.Disconnect | quick_dirty_steam/networking/Client.cs:86-95 | only while connected: linger close, idle, ClosedByClient raised; otherwise nothing |
| Clients.Client.OnLobbyLeft | quick_dirty_steam/networking/Client.cs:117-124 | leaving or being kicked while connected disconnects |
| Clients.Client.OnConnectionStatusChanged | quick_dirty_steam/networking/Client.cs:130-159 | Accepted connects; Rejected and a close by the server close without linger, a local close with linger, and all three end idle and raise their event; every move follows Idle, Connecting, Connected, back to Idle |
| Clients.Client.SendMessage | quick_dirty_steam/networking/Client.cs:168-174 | one send on the connection iff connected; the session is unchanged |
| Clients.Client.PollMessages | quick_dirty_steam/networking/Client.cs:183-192 | a connected client takes one batch off its connection's queue; otherwise None with every queue untouched |

## Left out

- Steam callback registration, `Callback.Create`/`Dispose`, static constructors, finalizers and event subscription lists: each event is a method call with the event's fields as parameters.
- Two finalizers dereference a callback field that may be `null`, and neither is modelled. `LobbyMetaData`'s constructor (quick_dirty_steam/matchmaking/LobbyMetaData.cs:21) creates its callback without storing it, so the finalizer (:25-26) disposes `null` and nothing keeps the callback alive. A `Member` built from an invalid id never sets its callback (quick_dirty_steam/matchmaking/Member.cs:42-52), and its finalizer (:55-56) disposes `null`. Garbage collection is not modelled.
- Events that leave the lobby classes are not chained; the caller makes the two calls in turn. `LobbyCreator`'s Created answer and `LobbyEnterer`'s Entered answer are separate calls to `Lobby.OnCreatorCreated` and `Lobby.OnEntererEntered`. `Lobby`'s Left and Kicked are separate calls to `Server.OnLobbyLeft` and `Client.OnLobbyLeft`.
- LobbyCreators.LobbyCreator.OnLobbyCreated and LobbyEnterers.LobbyEnterer.OnLobbyEnter clear `IsAwaitingResult` before their event's handlers run. The source raises Created and Entered first and clears the flag only after every handler has returned (LobbyCreator.cs:37-46, LobbyEnterer.cs:36-44). A handler that starts another create or enter is therefore refused in the source but accepted in the model.
- The internals of every Steam API call: their results are parameters, their requests entries in a call log.
- `MessageSender` (copy into unmanaged memory, always reporting success): a send is one logged transport call that changes no pool or session state.
- Destroying received message structures, and the unmanaged copy itself: memory management is not modelled.
- Logging, persona-name lookups and `Console`, `SteamManager`, `UI`: output only.
- `PacketConverter` and `Packet` (reflection-based `BinaryFormatter` serialisation), `User` and `Avatar`, `LobbyFinder` and `MetaDataCrawler`: no bookkeeping of their own.
- `Chat` (UTF-8 encoding and chat I/O): only its `KickMessage` constant is used.
- `Lobby` members that check the lobby is entered (and owned, where asked) and then make one Steam or chat call, or raise one event, with no state of their own: `Open`, `Close`, `SendChatMessage`, `SetServerActive`, `OnLobbyGameCreated`, `IsServerActive`, the metadata getters and setters that delegate to `LobbyMetaData` and `Member`, and the forwarding of metadata events.
- `ListenSocket` is static in the source, so all servers share one; in the model each server owns its own socket.
- `CSteamID.IsValid` also checks account type and universe; the model reduces it to "not Nil".
- Steam ids and handles are unbounded naturals: the 64-bit and 32-bit widths never matter to the bookkeeping.
- .NET `Dictionary` enumeration order is taken to be insertion order, so changes are reported in snapshot order.
- After `Client.Disconnect` the outbound connection's own Steam subscription is not disposed in the source; the client has unwired its handlers, so the model simply forgets the connection.
- `Client.SendConnectionRequest` and `Client.Initialize` are folded into `Clients.Client.Connect`.
- Lobbies.Lobby.Initialize: states the resulting list of member ids, not that the member objects already listed stay the same objects.
- KickMessages.KickTargetsExactly: proved only for ids whose decimal texts have the same length; shorter ids over-match (`KickOverMatchesShorterId`).
