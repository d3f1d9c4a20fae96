/**
 * `MessageReceiver.Receive`: drain at most one batch of messages from a
 * connection's transport queue and copy out each message's payload.
 */
module MessageReceiver {
  import opened Transport

  /** The number of receive slots handed to the transport per call. */
  const BatchSize: nat := 16

  function Min(a: nat, b: nat): nat {
    if a < b then a else b
  }

  /** The `m_cbSize` bytes copied out of a message's data. */
  function Payload(m: Message): (b: Bytes)
    ensures |b| == m.size
    ensures forall i :: 0 <= i < m.size ==> b[i] == m.data[i]
  {
    m.data[..m.size]
  }

  /** The payloads of a whole queue, in queue order. */
  function Payloads(q: seq<Message>): (r: seq<Bytes>)
    ensures |r| == |q|
    ensures forall i :: 0 <= i < |q| ==> r[i] == Payload(q[i])
  {
    seq(|q|, i requires 0 <= i < |q| => Payload(q[i]))
  }

  /**
   * One call: the transport fills at most `BatchSize` slots from the front of
   * the queue, and each filled slot's payload is appended to the result in
   * slot order. `rest` is what stays queued in the transport.
   */
  method Receive(queue: seq<Message>) returns (buffers: seq<Bytes>, rest: seq<Message>)
    ensures |buffers| == Min(|queue|, BatchSize)
    ensures buffers == Payloads(queue[..|buffers|])
    ensures rest == queue[|buffers|..]
    ensures queue == [] ==> buffers == []
  {
    // SteamNetworkingSockets.ReceiveMessagesOnConnection with a 16-slot array.
    var count := Min(|queue|, BatchSize);
    var slots := new Message[BatchSize](i requires 0 <= i => if i < count then queue[i] else NetMessage(0, []));
    rest := queue[count..];
    buffers := [];
    var i := 0;
    while i < count
      invariant 0 <= i <= count
      invariant buffers == Payloads(queue[..i])
    {
      var m := slots[i];
      buffers := buffers + [Payload(m)];
      i := i + 1;
    }
  }

  /** The batch one call returns, as a value. */
  function Batch(q: seq<Message>): (b: seq<Bytes>)
    ensures |b| == Min(|q|, BatchSize)
  {
    Payloads(q[..Min(|q|, BatchSize)])
  }

  /** The batches returned by polling a queue until it is empty (nothing arriving meanwhile). */
  function Rounds(q: seq<Message>): seq<seq<Bytes>>
    decreases |q|
  {
    if q == [] then [] else [Batch(q)] + Rounds(q[Min(|q|, BatchSize)..])
  }

  function Flatten(bs: seq<seq<Bytes>>): seq<Bytes> {
    if bs == [] then [] else bs[0] + Flatten(bs[1..])
  }

  /**
   * Repeated polling loses nothing and reorders nothing: the batches,
   * concatenated, are the payloads of the whole queue in order.
   */
  lemma {:induction false} RoundsDrainInOrder(q: seq<Message>)
    ensures Flatten(Rounds(q)) == Payloads(q)
    decreases |q|
  {
    if q != [] {
      var n := Min(|q|, BatchSize);
      var tail := q[n..];
      RoundsDrainInOrder(tail);
      assert Flatten(Rounds(q)) == Batch(q) + Flatten(Rounds(tail)) by {
        assert Rounds(q) == [Batch(q)] + Rounds(tail);
      }
      PayloadsSplit(q, n);
    }
  }

  /** The payloads of a queue are those of its first n messages, then those of the rest. */
  lemma PayloadsSplit(q: seq<Message>, n: nat)
    requires n <= |q|
    ensures Payloads(q) == Payloads(q[..n]) + Payloads(q[n..])
  {
    assert Payloads(q) == Payloads(q[..n]) + Payloads(q[n..]);
  }

  /** Every batch of repeated polling is non-empty and holds at most `BatchSize` buffers. */
  lemma {:induction false} RoundsBounded(q: seq<Message>)
    ensures forall i :: 0 <= i < |Rounds(q)| ==> 0 < |Rounds(q)[i]| <= BatchSize
    decreases |q|
  {
    if q != [] {
      var tail := q[Min(|q|, BatchSize)..];
      RoundsBounded(tail);
      assert Rounds(q) == [Batch(q)] + Rounds(tail);
      forall i | 0 <= i < |Rounds(q)| ensures 0 < |Rounds(q)[i]| <= BatchSize {
        if i > 0 {
          assert Rounds(q)[i] == Rounds(tail)[i - 1];
        }
      }
    }
  }

  /** Draining a queue takes the ceiling of |q| / 16 rounds. */
  lemma {:induction false} RoundsCount(q: seq<Message>)
    ensures |Rounds(q)| == (|q| + BatchSize - 1) / BatchSize
    decreases |q|
  {
    if q != [] {
      var tail := q[Min(|q|, BatchSize)..];
      RoundsCount(tail);
      assert |Rounds(q)| == 1 + |Rounds(tail)|;
    }
  }
}
