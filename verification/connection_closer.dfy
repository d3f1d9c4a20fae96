/**
 * `ConnectionCloser`: the two close disciplines. A connection that is still
 * open is closed with linger, so data already queued is flushed first; a
 * connection that is already dead is closed without linger. Each function is
 * the one transport call its C# counterpart issues; callers append it to
 * their call log. Whether the transport reports success only selects a log
 * line, so it is not an input and nothing else depends on it.
 */
module ConnectionCloser {
  import opened Transport
  import opened Connections

  /** `CloseOpenConnection(Connection)`. */
  function CloseOpenConnection(c: Connection): (call: TransportCall)
    ensures call.CloseConnection? && call.handle == c.handle && call.linger
  {
    CloseConnection(c.handle, true)
  }

  /** `CloseOpenConnection(HSteamNetConnection)`, for a handle no connection object owns yet. */
  function CloseOpenHandle(h: Handle): (call: TransportCall)
    ensures call.CloseConnection? && call.handle == h && call.linger
  {
    CloseConnection(h, true)
  }

  /** `CloseDeadConnection(Connection)`. */
  function CloseDeadConnection(c: Connection): (call: TransportCall)
    ensures call.CloseConnection? && call.handle == c.handle && !call.linger
  {
    CloseConnection(c.handle, false)
  }

  /**
   * The two overloads of `CloseOpenConnection` issue the same call, and the
   * two disciplines differ in the linger flag alone.
   */
  lemma OverloadsAgree(c: Connection)
    ensures CloseOpenConnection(c) == CloseOpenHandle(c.handle)
    ensures CloseOpenConnection(c) != CloseDeadConnection(c)
    ensures CloseDeadConnection(c) == CloseOpenConnection(c).(linger := false)
  {
  }
}
