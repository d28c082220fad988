/** Histories of a channel: what was issued, what was handed over, and who waited.
    Every send is delivered, buffered, pending, cancelled, faulted or rejected. */
module ChannelHistory {
  import opened Options
  import opened Sequences
  import opened Channel
  import opened ChannelQueue

  /** A channel with the history of its run. `delivered[k]` went to the receive
      registration `takers[k]`; the parked sets hold registrations that had to wait. */
  datatype Log = Log(
    chan: Chan,
    issued: seq<nat>,
    asked: seq<nat>,
    delivered: seq<nat>,
    takers: seq<nat>,
    parked: set<Registration>)

  function Start(capacity: nat): Log {
    Log(Fresh(capacity), [], [], [], [], {})
  }

  // The hand-over a step performs, as (receive registration, value).
  function HandOver(c: Chan, step: Step): Option<(nat, nat)> {
    match step
    case Send(id) => if !c.closed && c.receivers != [] then Some((c.receivers[0], id)) else None
    case Receive(id) =>
      if c.buffer != [] then Some((id, c.buffer[0]))
      else if c.senders != [] && !c.closed then Some((id, c.senders[0]))
      else None
    case _ => None
  }

  function Park(step: Step, reply: Reply): set<Registration> {
    match step
    case Send(id) => if reply == SendPending then {Sender(id)} else {}
    case Receive(id) => if reply == Received(None) then {Receiver(id)} else {}
    case _ => {}
  }

  function Advance(l: Log, step: Step): Log {
    var (chan, reply) := Next(l.chan, step);
    var handed := HandOver(l.chan, step);
    Log(chan,
        if step.Send? then l.issued + [step.id] else l.issued,
        if step.Receive? then l.asked + [step.id] else l.asked,
        if handed.Some? then l.delivered + [handed.value.1] else l.delivered,
        if handed.Some? then l.takers + [handed.value.0] else l.takers,
        l.parked + Park(step, reply))
  }

  function Play(capacity: nat, steps: seq<Step>): Log {
    if steps == [] then Start(capacity)
    else Advance(Play(capacity, steps[..|steps| - 1]), steps[|steps| - 1])
  }

  // Each identifier is used at most once per direction.
  ghost predicate FreshStep(l: Log, step: Step) {
    && (step.Send? ==> step.id !in l.issued)
    && (step.Receive? ==> step.id !in l.asked)
  }

  ghost predicate FreshRun(capacity: nat, steps: seq<Step>)
    decreases |steps|
  {
    steps != [] ==>
      && FreshRun(capacity, steps[..|steps| - 1])
      && FreshStep(Play(capacity, steps[..|steps| - 1]), steps[|steps| - 1])
  }

  ghost predicate Is<V(!new)>(m: map<nat, V>, id: nat, v: V) {
    id in m && m[id] == v
  }

  ghost function Alive(m: map<nat, SendStatus>): set<nat> {
    set id | id in m && (m[id] == Committed || m[id] == Pending)
  }

  /** The surviving sends, in issue order, are what was delivered, then what is
      buffered, then what is pending. */
  ghost predicate Ordered(
    issued: seq<nat>, status: map<nat, SendStatus>, delivered: seq<nat>, buffer: seq<nat>, senders: seq<nat>)
  {
    && Distinct(issued)
    && (forall id :: id in status <==> id in issued)
    && Filter(issued, Alive(status)) == delivered + buffer + senders
    && (forall id :: id in delivered ==> Is(status, id, Committed))
    && (forall id :: id in buffer ==> Is(status, id, Committed))
    && (forall id :: id in senders ==> Is(status, id, Pending))
  }

  lemma SurvivorsAreDistinct(
      issued: seq<nat>, status: map<nat, SendStatus>, delivered: seq<nat>, buffer: seq<nat>, senders: seq<nat>)
    requires Ordered(issued, status, delivered, buffer, senders)
    ensures Distinct(delivered + buffer + senders)
  {
    FilterDistinct(issued, Alive(status));
  }

  lemma NewEntry(issued: seq<nat>, status: map<nat, SendStatus>, id: nat, s: SendStatus)
    requires Distinct(issued) && id !in issued
    requires forall x :: x in status <==> x in issued
    ensures Distinct(issued + [id])
    ensures forall x :: x in status[id := s] <==> x in issued + [id]
  {
    assert Distinct([id]);
    DistinctAppend(issued, [id]);
  }

  lemma IssueRejected(
      issued: seq<nat>, status: map<nat, SendStatus>, delivered: seq<nat>, buffer: seq<nat>, senders: seq<nat>, id: nat)
    requires Ordered(issued, status, delivered, buffer, senders) && id !in issued
    ensures Ordered(issued + [id], status[id := Rejected], delivered, buffer, senders)
  {
    hide Distinct, Filter;
    NewEntry(issued, status, id, Rejected);
    assert Alive(status[id := Rejected]) == Alive(status) && id !in Alive(status);
    FilterAppend(issued, id, Alive(status), Alive(status));
    hide Alive;
    assert Filter(issued + [id], Alive(status)) == Filter(issued, Alive(status));
  }

  lemma IssuePending(
      issued: seq<nat>, status: map<nat, SendStatus>, delivered: seq<nat>, buffer: seq<nat>, senders: seq<nat>, id: nat)
    requires Ordered(issued, status, delivered, buffer, senders) && id !in issued
    ensures Ordered(issued + [id], status[id := Pending], delivered, buffer, senders + [id])
  {
    hide Distinct, Filter;
    NewEntry(issued, status, id, Pending);
    assert Alive(status[id := Pending]) == Alive(status) + {id};
    FilterAppend(issued, id, Alive(status), Alive(status) + {id});
    assert delivered + buffer + senders + [id] == delivered + buffer + (senders + [id]);
  }

  // The longest pending send is committed into the buffer.
  lemma PendingToBuffer(
      issued: seq<nat>, status: map<nat, SendStatus>, delivered: seq<nat>, buffer: seq<nat>, senders: seq<nat>)
    requires Ordered(issued, status, delivered, buffer, senders) && senders != []
    ensures Ordered(issued, status[senders[0] := Committed], delivered, buffer + [senders[0]], senders[1..])
  {
    var x := senders[0];
    assert x in senders;
    SurvivorsAreDistinct(issued, status, delivered, buffer, senders);
    assert senders == [x] + senders[1..];
    assert delivered + buffer + senders == (delivered + buffer + [x]) + senders[1..];
    DistinctSplit(delivered + buffer + [x], senders[1..]);
    hide Distinct, Filter;
    assert Alive(status[x := Committed]) == Alive(status);
    assert delivered + (buffer + [x]) + senders[1..] == delivered + buffer + senders;
    assert x in delivered + buffer + [x];
    assert forall y :: y in senders[1..] ==> y in senders && y != x;
  }

  // The oldest buffered value is handed over.
  lemma BufferToReceiver(
      issued: seq<nat>, status: map<nat, SendStatus>, delivered: seq<nat>, buffer: seq<nat>, senders: seq<nat>)
    requires Ordered(issued, status, delivered, buffer, senders) && buffer != []
    ensures Ordered(issued, status, delivered + [buffer[0]], buffer[1..], senders)
  {
    assert buffer == [buffer[0]] + buffer[1..];
    assert delivered + [buffer[0]] + buffer[1..] + senders == delivered + buffer + senders;
    hide Distinct, Filter, Alive;
  }

  // The longest pending send is withdrawn.
  lemma PendingCancelled(
      issued: seq<nat>, status: map<nat, SendStatus>, delivered: seq<nat>, buffer: seq<nat>, senders: seq<nat>)
    requires Ordered(issued, status, delivered, buffer, senders) && senders != []
    ensures Ordered(issued, status[senders[0] := Cancelled], delivered, buffer, senders[1..])
  {
    var x := senders[0];
    assert x in senders;
    SurvivorsAreDistinct(issued, status, delivered, buffer, senders);
    assert delivered + buffer + senders == (delivered + buffer) + [x] + senders[1..];
    DistinctSplit(delivered + buffer + [x], senders[1..]);
    DistinctSplit(delivered + buffer, [x]);
    hide Distinct, Filter;
    assert Alive(status[x := Cancelled]) == Alive(status) - {x};
    assert forall y :: y in senders[1..] ==> y in senders;
    FilterRemove(issued, Alive(status), Alive(status) - {x}, delivered + buffer, [x], senders[1..]);
  }

  // Every pending send fails.
  lemma PendingFaulted(
      issued: seq<nat>, status: map<nat, SendStatus>, failed: map<nat, SendStatus>,
      delivered: seq<nat>, buffer: seq<nat>, senders: seq<nat>)
    requires Ordered(issued, status, delivered, buffer, senders)
    requires failed.Keys == status.Keys
    requires forall id :: id in status ==> failed[id] == if id in senders then Faulted else status[id]
    ensures Ordered(issued, failed, delivered, buffer, [])
  {
    hide Distinct, Filter;
    assert forall id :: id in senders ==> id !in delivered && id !in buffer;
    assert delivered + buffer + senders == (delivered + buffer) + senders + [];
    FilterRemove(issued, Alive(status), Alive(failed), delivered + buffer, senders, []);
    assert (delivered + buffer) + [] == delivered + buffer + [];
  }

  ghost predicate SendOrder(l: Log) {
    Ordered(l.issued, l.chan.sendStatus, l.delivered, l.chan.buffer, l.chan.senders)
  }

  lemma SendKeepsOrder(l: Log, id: nat)
    requires Structure(l.chan) && SendOrder(l) && id !in l.issued
    ensures SendOrder(Advance(l, Send(id)))
  {
    hide Wake, Ordered;
    var c := l.chan;
    if c.closed {
      IssueRejected(l.issued, c.sendStatus, l.delivered, c.buffer, c.senders, id);
    } else {
      IssuePending(l.issued, c.sendStatus, l.delivered, c.buffer, c.senders, id);
      var status := c.sendStatus[id := Pending];
      if c.receivers != [] || |c.buffer| < c.capacity {
        assert c.senders + [id] == [id];
        PendingToBuffer(l.issued + [id], status, l.delivered, c.buffer, [id]);
        assert status[id := Committed] == c.sendStatus[id := Committed];
        assert [id][1..] == [];
        if c.receivers != [] {
          assert c.buffer + [id] == [id];
          BufferToReceiver(l.issued + [id], status[id := Committed], l.delivered, [id], []);
        }
      }
    }
  }

  lemma ReceiveKeepsOrder(l: Log, id: nat)
    requires Structure(l.chan) && SendOrder(l)
    ensures SendOrder(Advance(l, Receive(id)))
  {
    hide Wake, Ordered;
    var c := l.chan;
    if c.buffer != [] {
      BufferToReceiver(l.issued, c.sendStatus, l.delivered, c.buffer, c.senders);
      if c.senders != [] {
        PendingToBuffer(l.issued, c.sendStatus, l.delivered + [c.buffer[0]], c.buffer[1..], c.senders);
      }
    } else if c.senders != [] {
      PendingToBuffer(l.issued, c.sendStatus, l.delivered, c.buffer, c.senders);
      var x := c.senders[0];
      assert c.buffer + [x] == [x];
      assert [x][1..] == [] && c.buffer == [];
      BufferToReceiver(l.issued, c.sendStatus[x := Committed], l.delivered, [x], c.senders[1..]);
    }
  }

  lemma {:induction false} FaultSendersStatus(c: Chan)
    ensures forall id :: id in FaultSenders(c).sendStatus <==> id in c.sendStatus || id in c.senders
    ensures forall id :: id in FaultSenders(c).sendStatus ==>
      FaultSenders(c).sendStatus[id] == if id in c.senders then Faulted else c.sendStatus[id]
    decreases |c.senders|
  {
    hide Wake;
    if c.senders != [] {
      FaultSendersStatus(FaultOne(c));
      assert c.senders == [c.senders[0]] + c.senders[1..];
    }
  }

  lemma CloseKeepsOrder(l: Log)
    requires Structure(l.chan) && SendOrder(l)
    ensures SendOrder(Advance(l, Close))
  {
    var c := l.chan;
    var closing := c.(closed := true);
    CloseNeverDrains(c);
    FaultSendersShape(closing);
    FaultSendersStatus(closing);
    DismissReceiversShape(FaultSenders(closing));
    hide Wake, FaultSenders, DismissReceivers, Filter, Distinct;
    var failed := FaultSenders(closing).sendStatus;
    assert forall id :: id in c.senders ==> id in c.sendStatus;
    assert failed.Keys == c.sendStatus.Keys;
    PendingFaulted(l.issued, c.sendStatus, failed, l.delivered, c.buffer, c.senders);
  }

  lemma OrderKept(l: Log, step: Step)
    requires Structure(l.chan) && SendOrder(l) && FreshStep(l, step)
    ensures SendOrder(Advance(l, step))
  {
    match step
    case Send(id) => SendKeepsOrder(l, id);
    case Receive(id) => ReceiveKeepsOrder(l, id);
    case CancelSender =>
      if l.chan.senders != [] {
        PendingCancelled(l.issued, l.chan.sendStatus, l.delivered, l.chan.buffer, l.chan.senders);
      }
    case CancelReceiver =>
    case Close => CloseKeepsOrder(l);
  }
}
