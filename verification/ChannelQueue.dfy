/** The channel as one FIFO queue: in every reachable state the buffer and the
    sender queue are a single queue cut at the capacity. */
module ChannelQueue {
  import opened Options
  import opened Channel

  /** What every reachable state satisfies. */
  ghost predicate Structure(c: Chan) {
    && |c.buffer| <= c.capacity
    && (c.receivers != [] ==> c.buffer == [] && c.senders == [] && !c.closed)
    && (c.senders != [] ==> !c.closed && |c.buffer| == c.capacity)
  }

  function Run(capacity: nat, steps: seq<Step>): Chan {
    if steps == [] then Fresh(capacity)
    else Next(Run(capacity, steps[..|steps| - 1]), steps[|steps| - 1]).0
  }

  lemma {:induction false} FaultSendersShape(c: Chan)
    ensures FaultSenders(c).senders == []
    ensures FaultSenders(c).buffer == c.buffer && FaultSenders(c).receivers == c.receivers
    ensures FaultSenders(c).closed == c.closed && FaultSenders(c).capacity == c.capacity
    ensures FaultSenders(c).results == c.results
    ensures FaultSenders(c).committedSends == c.committedSends
    ensures FaultSenders(c).committedReceives == c.committedReceives
    ensures FaultSenders(c).cancelledSends == c.cancelledSends
    ensures FaultSenders(c).cancelledReceives == c.cancelledReceives
    ensures FaultSenders(c).faultedSends == c.faultedSends + |c.senders|
    decreases |c.senders|
  {
    hide Wake;
    if c.senders != [] {
      FaultSendersShape(FaultOne(c));
    }
  }

  lemma {:induction false} DismissReceiversShape(c: Chan)
    ensures DismissReceivers(c).receivers == []
    ensures DismissReceivers(c).buffer == c.buffer && DismissReceivers(c).senders == c.senders
    ensures DismissReceivers(c).closed == c.closed && DismissReceivers(c).capacity == c.capacity
    ensures DismissReceivers(c).sendStatus == c.sendStatus
    ensures DismissReceivers(c).committedSends == c.committedSends
    ensures DismissReceivers(c).committedReceives == c.committedReceives
    ensures DismissReceivers(c).cancelledSends == c.cancelledSends
    ensures DismissReceivers(c).cancelledReceives == c.cancelledReceives
    ensures DismissReceivers(c).faultedSends == c.faultedSends
    decreases |c.receivers|
  {
    hide Wake;
    if c.receivers != [] {
      DismissReceiversShape(DismissOne(c));
    }
  }

  // Closing a reachable channel never finds a waiting receiver beside a buffered
  // value: the loop that serves receivers from the buffer has nothing to do.
  lemma CloseNeverDrains(c: Chan)
    requires Structure(c)
    ensures DrainBuffer(FaultSenders(c.(closed := true))) == FaultSenders(c.(closed := true))
    ensures Next(c, Close).0 == DismissReceivers(FaultSenders(c.(closed := true)))
  {
    FaultSendersShape(c.(closed := true));
  }

  lemma CloseShape(c: Chan)
    requires Structure(c)
    ensures
      var d := Next(c, Close).0;
      && d.closed && d.senders == [] && d.receivers == []
      && d.buffer == c.buffer && d.capacity == c.capacity
  {
    CloseNeverDrains(c);
    FaultSendersShape(c.(closed := true));
    DismissReceiversShape(FaultSenders(c.(closed := true)));
  }

  lemma StructureKept(c: Chan, step: Step)
    requires Structure(c)
    ensures Structure(Next(c, step).0)
    ensures Next(c, step).0.capacity == c.capacity
  {
    hide Wake;
    if step.Close? {
      CloseShape(c);
    }
  }

  lemma {:induction false} EveryRunIsStructured(capacity: nat, steps: seq<Step>)
    ensures Structure(Run(capacity, steps)) && Run(capacity, steps).capacity == capacity
    decreases |steps|
  {
    if steps != [] {
      EveryRunIsStructured(capacity, steps[..|steps| - 1]);
      StructureKept(Run(capacity, steps[..|steps| - 1]), steps[|steps| - 1]);
    }
  }

  /** The specification: one queue of values whose first `capacity` entries are committed. */
  datatype Queue = Queue(capacity: nat, entries: seq<nat>, waiting: seq<nat>, closed: bool)

  function QueueNext(q: Queue, step: Step): (Queue, Reply) {
    match step
    case Send(id) =>
      if q.closed then (q, SendRejected)
      else if q.waiting != [] then (q.(waiting := q.waiting[1..]), SendCommitted)
      else (q.(entries := q.entries + [id]), if |q.entries| < q.capacity then SendCommitted else SendPending)
    case Receive(id) =>
      if q.entries != [] then (q.(entries := q.entries[1..]), Received(Some(Value(q.entries[0]))))
      else if q.closed then (q, Received(Some(EndOfChannel)))
      else (q.(waiting := q.waiting + [id]), Received(None))
    case CancelSender =>
      if |q.entries| <= q.capacity then (q, NothingToCancel)
      else
        (q.(entries := q.entries[..q.capacity] + q.entries[q.capacity + 1..]), SenderCancelled(q.entries[q.capacity]))
    case CancelReceiver =>
      if q.waiting == [] then (q, NothingToCancel)
      else (q.(waiting := q.waiting[1..]), ReceiverCancelled(q.waiting[0]))
    case Close =>
      var kept := if |q.entries| <= q.capacity then |q.entries| else q.capacity;
      (Queue(q.capacity, q.entries[..kept], [], true), ChannelClosed)
  }

  function View(c: Chan): Queue {
    Queue(c.capacity, c.buffer + c.senders, c.receivers, c.closed)
  }

  // The buffer is the first `capacity` entries of the queue and the senders are the rest.
  lemma CutAtCapacity(c: Chan)
    requires Structure(c)
    ensures
      var q := View(c).entries;
      var cut := if |q| <= c.capacity then |q| else c.capacity;
      c.buffer == q[..cut] && c.senders == q[cut..]
  {
  }

  lemma SendRefines(c: Chan, id: nat)
    requires Structure(c)
    ensures QueueNext(View(c), Send(id)) == (View(SendStep(c, id).0), SendStep(c, id).1)
  {
    hide Wake;
    assert c.senders == [] ==> c.buffer + [id] + [] == c.buffer + [] + [id];
    assert c.buffer + (c.senders + [id]) == View(c).entries + [id];
  }

  lemma TakeFromBufferView(c: Chan)
    requires c.buffer != [] && (c.senders != [] ==> !c.closed)
    ensures View(TakeFromBuffer(c)) == View(c).(entries := View(c).entries[1..])
  {
    hide Wake;
    assert View(c).entries[1..] == c.buffer[1..] + c.senders;
    if c.senders != [] {
      assert c.senders == [c.senders[0]] + c.senders[1..];
      assert c.buffer[1..] + [c.senders[0]] + c.senders[1..] == c.buffer[1..] + c.senders;
    }
  }

  lemma ReceiveRefines(c: Chan, id: nat)
    requires Structure(c)
    ensures QueueNext(View(c), Receive(id)) == (View(ReceiveStep(c, id).0), ReceiveStep(c, id).1)
  {
    hide Wake, TakeFromBuffer;
    if c.buffer != [] {
      TakeFromBufferView(c);
    } else {
      assert View(c).entries == c.senders;
      assert c.senders != [] ==> c.buffer + c.senders[1..] == View(c).entries[1..];
    }
  }

  lemma CancelSenderRefines(c: Chan)
    requires Structure(c)
    ensures QueueNext(View(c), CancelSender) == (View(CancelSenderStep(c).0), CancelSenderStep(c).1)
  {
    var q := View(c);
    if c.senders != [] {
      assert q.entries[..q.capacity] == c.buffer;
      assert q.entries[q.capacity + 1..] == c.senders[1..];
    }
  }

  lemma CloseRefines(c: Chan)
    requires Structure(c)
    ensures QueueNext(View(c), Close) == (View(Next(c, Close).0), Next(c, Close).1)
  {
    CloseShape(c);
    hide FaultSenders, DrainBuffer, DismissReceivers;
    assert c.buffer + [] == c.buffer;
    CutAtCapacity(c);
  }

  // Every step of the channel is the same step of the queue, with the same reply.
  lemma ChannelRefinesQueue(c: Chan, step: Step)
    requires Structure(c)
    ensures QueueNext(View(c), step) == (View(Next(c, step).0), Next(c, step).1)
  {
    hide Structure, QueueNext, SendStep, ReceiveStep, CancelSenderStep, View;
    match step
    case Send(id) => SendRefines(c, id);
    case Receive(id) => ReceiveRefines(c, id);
    case CancelSender => CancelSenderRefines(c);
    case CancelReceiver => CancelReceiverRefines(c);
    case Close => CloseRefines(c);
  }

  lemma CancelReceiverRefines(c: Chan)
    ensures QueueNext(View(c), CancelReceiver) == (View(CancelReceiverStep(c).0), CancelReceiverStep(c).1)
  {
  }

  function QueueRun(capacity: nat, steps: seq<Step>): Queue {
    if steps == [] then Queue(capacity, [], [], false)
    else QueueNext(QueueRun(capacity, steps[..|steps| - 1]), steps[|steps| - 1]).0
  }

  // A whole run of the channel is a run of the queue.
  lemma {:induction false} RunRefinesQueue(capacity: nat, steps: seq<Step>)
    ensures View(Run(capacity, steps)) == QueueRun(capacity, steps)
    decreases |steps|
  {
    if steps != [] {
      var before := steps[..|steps| - 1];
      RunRefinesQueue(capacity, before);
      EveryRunIsStructured(capacity, before);
      ChannelRefinesQueue(Run(capacity, before), steps[|steps| - 1]);
    }
  }

  // No registration waits while its operation could proceed.
  lemma NothingWaitsInVain(c: Chan, id: nat)
    requires Structure(c)
    ensures Next(c, Send(id)).1 == SendPending <==> !c.closed && c.receivers == [] && |c.buffer| == c.capacity
    ensures Next(c, Receive(id)).1 == Received(None) <==> !c.closed && c.buffer == [] && c.senders == []
  {
  }

  // Closing again changes nothing.
  lemma CloseIsIdempotent(c: Chan)
    requires Structure(c)
    ensures Next(Next(c, Close).0, Close).0 == Next(c, Close).0
  {
    CloseShape(c);
  }
}
