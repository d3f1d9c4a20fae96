/**
 * A single peer connection (`Connection`, `LocalConnection`, `RemoteConnection`):
 * fixed identity and handle, the filter deciding which transport status
 * changes concern it, and the table turning a status change into at most one
 * outcome.
 */
module Connections {
  import opened Wrappers
  import opened Transport

  /**
   * Which class the connection is: the base class, an outbound connection
   * (`LocalConnection`) whose transport subscription is still `subscribed`,
   * or an inbound one (`RemoteConnection`) with the listen socket it arrived on.
   */
  datatype Role = Base | Local(subscribed: bool) | Remote(listener: Handle)

  datatype Connection = Connection(identity: PeerId, handle: Handle, role: Role)

  /** The events a connection raises. */
  datatype Outcome = Accepted | Rejected | ClosedByLocalHost | ClosedByRemoteHost

  /** Every outcome except Accepted ends the connection. */
  predicate IsTerminal(o: Outcome) {
    !o.Accepted?
  }

  /** A fresh outbound connection, subscribed to status changes. */
  function NewLocal(identity: PeerId, handle: Handle): Connection {
    Connection(identity, handle, Local(true))
  }

  /** An inbound connection built from the event that announced it. */
  function NewRemote(ev: StatusEvent): (c: Connection)
    ensures c.identity == ev.remote && c.handle == ev.conn
    ensures c.role == Remote(ev.listener)
  {
    Connection(ev.remote, ev.conn, Remote(ev.listener))
  }

  /** `Connection.Equals`: the other connection exists and has the same Steam id. */
  predicate Equals(c: Connection, other: Option<Connection>) {
    other.Some? && c.identity == other.value.identity
  }

  /** Equality ignores handle and role, and is an equivalence on existing connections. */
  lemma EqualsById(c: Connection, d: Connection, e: Connection)
    ensures Equals(c, Some(d)) <==> c.identity == d.identity
    ensures !Equals(c, None)
    ensures Equals(c, Some(c))
    ensures Equals(c, Some(d)) ==> Equals(d, Some(c))
    ensures Equals(c, Some(d)) && Equals(d, Some(e)) ==> Equals(c, Some(e))
    ensures Equals(c, Some(Connection(c.identity, d.handle, d.role)))
  {
  }

  /** `IsAffectedByCallback` of the three classes. */
  predicate IsAffectedByCallback(c: Connection, ev: StatusEvent) {
    match c.role
    case Base => false
    case Local(_) => c.handle != InvalidHandle && c.handle == ev.conn
    case Remote(listener) =>
      && listener != InvalidHandle && listener == ev.listener
      && c.handle != InvalidHandle && c.handle == ev.conn
  }

  /** The transition table of `LocalConnection.OnSteamNetConnectionStatusChanged`. */
  function LocalOutcome(oldState: ConnectionState, newState: ConnectionState): (r: Option<Outcome>)
    ensures r == Some(Accepted) <==> newState == Connected
    ensures r == Some(Rejected) <==>
              (newState == ClosedByPeer || newState == ProblemDetectedLocally)
              && (oldState == Connecting || oldState == FindingRoute)
    ensures r == Some(ClosedByRemoteHost) <==>
              newState == ClosedByPeer && oldState != Connecting && oldState != FindingRoute
    ensures r == Some(ClosedByLocalHost) <==>
              newState == ProblemDetectedLocally && oldState != Connecting && oldState != FindingRoute
  {
    match newState
    case ClosedByPeer | ProblemDetectedLocally =>
      if oldState == Connecting || oldState == FindingRoute then Some(Rejected)
      else if newState == ClosedByPeer then Some(ClosedByRemoteHost)
      else Some(ClosedByLocalHost)
    case Connected => Some(Accepted)
    case _ => None
  }

  /**
   * The transition table of `RemoteConnection.OnSteamNetConnectionStatusChanged`;
   * the old state there only selects a log line, so it is not an input.
   */
  function RemoteOutcome(newState: ConnectionState): (r: Option<Outcome>)
    ensures r != Some(Accepted) && r != Some(Rejected)
    ensures r == Some(ClosedByRemoteHost) <==> newState == ClosedByPeer
    ensures r == Some(ClosedByLocalHost) <==> newState == ProblemDetectedLocally
  {
    match newState
    case ClosedByPeer => Some(ClosedByRemoteHost)
    case ProblemDetectedLocally => Some(ClosedByLocalHost)
    case _ => None
  }

  /**
   * One status change delivered to a connection: the connection afterwards and
   * the outcome it raises, if any. An outbound connection disposes of its
   * subscription after a terminal outcome and hears nothing more.
   */
  function OnStatusChanged(c: Connection, ev: StatusEvent): (r: (Connection, Option<Outcome>))
    ensures r.0.identity == c.identity && r.0.handle == c.handle
    ensures r.0.role.Local? <==> c.role.Local?
    ensures !c.role.Local? ==> r.0 == c
    ensures !IsAffectedByCallback(c, ev) ==> r == (c, None)
    ensures c.role.Base? ==> r.1.None?
    ensures c.role.Remote? ==> r.1 != Some(Accepted) && r.1 != Some(Rejected)
    ensures c.role.Local? && !c.role.subscribed ==> r == (c, None)
    ensures r.1.Some? && IsTerminal(r.1.value) && c.role.Local? ==> r.0.role == Local(false)
  {
    if !IsAffectedByCallback(c, ev) then (c, None)
    else match c.role
      case Base => (c, None)
      case Local(subscribed) =>
        if !subscribed then (c, None)
        else
          var o := LocalOutcome(ev.oldState, ev.newState);
          if o.Some? && IsTerminal(o.value) then (c.(role := Local(false)), o) else (c, o)
      case Remote(_) => (c, RemoteOutcome(ev.newState))
  }

  /** The outcomes a connection raises over a sequence of status changes, and its final value. */
  function Run(c: Connection, evs: seq<StatusEvent>): (r: (Connection, seq<Outcome>))
    decreases |evs|
  {
    if evs == [] then (c, [])
    else
      var step := OnStatusChanged(c, evs[0]);
      var tail := Run(step.0, evs[1..]);
      (tail.0, (if step.1.Some? then [step.1.value] else []) + tail.1)
  }

  /** An outbound connection whose subscription was disposed raises nothing more. */
  lemma {:induction false} DisposedIsSilent(c: Connection, evs: seq<StatusEvent>)
    requires c.role == Local(false)
    ensures Run(c, evs) == (c, [])
    decreases |evs|
  {
    if evs != [] {
      assert OnStatusChanged(c, evs[0]) == (c, None);
      DisposedIsSilent(c, evs[1..]);
      assert Run(c, evs).1 == [] + Run(c, evs[1..]).1 == [];
    }
  }

  /**
   * Each close of an outbound connection is one-shot: over any sequence of
   * status changes, at most one terminal outcome is raised and nothing follows it.
   */
  lemma {:induction false} LocalCloseIsOneShot(c: Connection, evs: seq<StatusEvent>)
    requires c.role.Local?
    ensures forall i :: 0 <= i < |Run(c, evs).1| - 1 ==> !IsTerminal(Run(c, evs).1[i])
    decreases |evs|
  {
    if evs != [] {
      var step := OnStatusChanged(c, evs[0]);
      var c1, o := step.0, step.1;
      var rest := Run(c1, evs[1..]).1;
      var outs := Run(c, evs).1;
      assert outs == (if o.Some? then [o.value] else []) + rest;
      if o.Some? && IsTerminal(o.value) {
        DisposedIsSilent(c1, evs[1..]);
      } else {
        LocalCloseIsOneShot(c1, evs[1..]);
        assert forall k :: 0 <= k < |rest| - 1 ==> !IsTerminal(rest[k]);
        forall i | 0 <= i < |outs| - 1 ensures !IsTerminal(outs[i]) {
          if o.None? {
            assert outs[i] == rest[i];
          } else if i > 0 {
            assert outs[i] == rest[i - 1];
          }
        }
      }
    }
  }

  /** An inbound connection never raises Accepted or Rejected, whatever it is told. */
  lemma {:induction false} RemoteNeverDecides(c: Connection, evs: seq<StatusEvent>)
    requires c.role.Remote?
    ensures forall o :: o in Run(c, evs).1 ==> o == ClosedByLocalHost || o == ClosedByRemoteHost
    decreases |evs|
  {
    if evs != [] {
      RemoteNeverDecides(c, evs[1..]);
    }
  }

  /** The base class reacts to no status change. */
  lemma {:induction false} BaseIgnoresEverything(c: Connection, evs: seq<StatusEvent>)
    requires c.role.Base?
    ensures Run(c, evs) == (c, [])
    decreases |evs|
  {
    if evs != [] {
      assert OnStatusChanged(c, evs[0]) == (c, None);
      BaseIgnoresEverything(c, evs[1..]);
      assert Run(c, evs).1 == [] + Run(c, evs[1..]).1 == [];
    }
  }
}
