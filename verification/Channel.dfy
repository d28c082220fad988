/** The bounded channel protocol of the channel schedule oracle: one step of the
    machine, run by a class that updates its fields in place. */
module Channel {
  import opened Options

  datatype Step = Send(id: nat) | Receive(id: nat) | CancelSender | CancelReceiver | Close

  datatype SendStatus = Committed | Pending | Cancelled | Faulted | Rejected

  // What a receive registration ended with; no delivery yet while it waits.
  datatype Delivery = Value(id: nat) | EndOfChannel | Withdrawn

  // Wake-up calls go to a registration of one direction.
  datatype Registration = Sender(id: nat) | Receiver(id: nat)

  datatype Reply =
    | SendCommitted
    | SendPending
    | SendRejected
    | Received(result: Option<Delivery>)
    | SenderCancelled(id: nat)
    | ReceiverCancelled(id: nat)
    | NothingToCancel
    | ChannelClosed

  datatype Chan = Chan(
    capacity: nat,
    buffer: seq<nat>,
    senders: seq<nat>,
    receivers: seq<nat>,
    closed: bool,
    sendStatus: map<nat, SendStatus>,
    results: map<nat, Option<Delivery>>,
    wakes: map<Registration, nat>,
    committedSends: nat,
    committedReceives: nat,
    cancelledSends: nat,
    cancelledReceives: nat,
    faultedSends: nat)

  function Fresh(capacity: nat): Chan {
    Chan(capacity, [], [], [], false, map[], map[], map[], 0, 0, 0, 0, 0)
  }

  function Wake(wakes: map<Registration, nat>, key: Registration): map<Registration, nat> {
    wakes[key := WakeCount(wakes, key) + 1]
  }

  // How often a registration was woken.
  function WakeCount(wakes: map<Registration, nat>, key: Registration): nat {
    if key in wakes then wakes[key] else 0
  }

  /** A send and a receive meet without the value passing through the buffer. */
  function HandToReceiver(c: Chan, id: nat): Chan
    requires c.receivers != []
  {
    var recipient := c.receivers[0];
    c.(receivers := c.receivers[1..],
       results := c.results[recipient := Some(Value(id))],
       wakes := Wake(c.wakes, Receiver(recipient)),
       sendStatus := c.sendStatus[id := Committed],
       committedSends := c.committedSends + 1,
       committedReceives := c.committedReceives + 1)
  }

  /** The longest waiting sender moves into the buffer. */
  function Admit(c: Chan): Chan
    requires c.senders != []
  {
    var sender := c.senders[0];
    c.(senders := c.senders[1..],
       buffer := c.buffer + [sender],
       sendStatus := c.sendStatus[sender := Committed],
       committedSends := c.committedSends + 1,
       wakes := Wake(c.wakes, Sender(sender)))
  }

  /** The longest waiting sender hands its value over directly. */
  function TakeFromSender(c: Chan): Chan
    requires c.senders != []
  {
    var sender := c.senders[0];
    c.(senders := c.senders[1..],
       sendStatus := c.sendStatus[sender := Committed],
       committedSends := c.committedSends + 1,
       committedReceives := c.committedReceives + 1,
       wakes := Wake(c.wakes, Sender(sender)))
  }

  function SendStep(c: Chan, id: nat): (Chan, Reply) {
    if c.closed then
      (c.(sendStatus := c.sendStatus[id := Rejected]), SendRejected)
    else if c.receivers != [] then
      (HandToReceiver(c, id), SendCommitted)
    else if c.capacity > 0 && |c.buffer| < c.capacity then
      (c.(buffer := c.buffer + [id],
          sendStatus := c.sendStatus[id := Committed],
          committedSends := c.committedSends + 1), SendCommitted)
    else
      (c.(senders := c.senders + [id], sendStatus := c.sendStatus[id := Pending]), SendPending)
  }

  function TakeFromBuffer(c: Chan): Chan
    requires c.buffer != []
  {
    var taken := c.(buffer := c.buffer[1..], committedReceives := c.committedReceives + 1);
    if c.senders != [] && !c.closed then Admit(taken) else taken
  }

  function ReceiveStep(c: Chan, id: nat): (Chan, Reply) {
    var (c', result) :=
      if c.buffer != [] then (TakeFromBuffer(c), Some(Value(c.buffer[0])))
      else if c.senders != [] && !c.closed then (TakeFromSender(c), Some(Value(c.senders[0])))
      else if c.closed then (c, Some(EndOfChannel))
      else (c.(receivers := c.receivers + [id]), None);
    (c'.(results := c'.results[id := result]), Received(result))
  }

  function CancelSenderStep(c: Chan): (Chan, Reply) {
    if c.senders == [] then (c, NothingToCancel)
    else
      (c.(senders := c.senders[1..],
          sendStatus := c.sendStatus[c.senders[0] := Cancelled],
          cancelledSends := c.cancelledSends + 1), SenderCancelled(c.senders[0]))
  }

  function CancelReceiverStep(c: Chan): (Chan, Reply) {
    if c.receivers == [] then (c, NothingToCancel)
    else
      (c.(receivers := c.receivers[1..],
          results := c.results[c.receivers[0] := Some(Withdrawn)],
          cancelledReceives := c.cancelledReceives + 1), ReceiverCancelled(c.receivers[0]))
  }

  /** Closing fails every waiting sender, ... */
  function FaultSenders(c: Chan): Chan
    decreases |c.senders|
  {
    if c.senders == [] then c else FaultSenders(FaultOne(c))
  }

  function FaultOne(c: Chan): Chan
    requires c.senders != []
  {
    var id := c.senders[0];
    c.(senders := c.senders[1..],
       sendStatus := c.sendStatus[id := Faulted],
       faultedSends := c.faultedSends + 1,
       wakes := Wake(c.wakes, Sender(id)))
  }

  /** ... serves waiting receivers from the buffer, ... */
  function DrainBuffer(c: Chan): Chan
    decreases |c.receivers|
  {
    if c.receivers == [] || c.buffer == [] then c else DrainBuffer(DrainOne(c))
  }

  function DrainOne(c: Chan): Chan
    requires c.receivers != [] && c.buffer != []
  {
    var id := c.receivers[0];
    c.(receivers := c.receivers[1..],
       results := c.results[id := Some(Value(c.buffer[0]))],
       buffer := c.buffer[1..],
       committedReceives := c.committedReceives + 1,
       wakes := Wake(c.wakes, Receiver(id)))
  }

  /** ... and tells the remaining ones that the channel is closed. */
  function DismissReceivers(c: Chan): Chan
    decreases |c.receivers|
  {
    if c.receivers == [] then c else DismissReceivers(DismissOne(c))
  }

  function DismissOne(c: Chan): Chan
    requires c.receivers != []
  {
    var id := c.receivers[0];
    c.(receivers := c.receivers[1..],
       results := c.results[id := Some(EndOfChannel)],
       wakes := Wake(c.wakes, Receiver(id)))
  }

  lemma FaultStep(c: Chan)
    requires c.senders != []
    ensures FaultSenders(c) == FaultSenders(FaultOne(c))
  {
  }

  lemma FaultDone(c: Chan)
    requires c.senders == []
    ensures FaultSenders(c) == c
  {
  }

  lemma DrainStep(c: Chan)
    requires c.receivers != [] && c.buffer != []
    ensures DrainBuffer(c) == DrainBuffer(DrainOne(c))
  {
  }

  lemma DrainDone(c: Chan)
    requires c.receivers == [] || c.buffer == []
    ensures DrainBuffer(c) == c
  {
  }

  lemma DismissStep(c: Chan)
    requires c.receivers != []
    ensures DismissReceivers(c) == DismissReceivers(DismissOne(c))
  {
  }

  lemma DismissDone(c: Chan)
    requires c.receivers == []
    ensures DismissReceivers(c) == c
  {
  }

  function Next(c: Chan, step: Step): (Chan, Reply) {
    match step
    case Send(id) => SendStep(c, id)
    case Receive(id) => ReceiveStep(c, id)
    case CancelSender => CancelSenderStep(c)
    case CancelReceiver => CancelReceiverStep(c)
    case Close => (DismissReceivers(DrainBuffer(FaultSenders(c.(closed := true)))), ChannelClosed)
  }

  /** The oracle itself: the same protocol on fields updated in place. */
  class Oracle {
    const capacity: nat
    var buffer: seq<nat>
    var senders: seq<nat>
    var receivers: seq<nat>
    var closed: bool
    var sendStatus: map<nat, SendStatus>
    var results: map<nat, Option<Delivery>>
    var wakes: map<Registration, nat>
    var committedSends: nat
    var committedReceives: nat
    var cancelledSends: nat
    var cancelledReceives: nat
    var faultedSends: nat

    ghost function Now(): Chan
      reads this
    {
      Chan(capacity, buffer, senders, receivers, closed, sendStatus, results, wakes,
           committedSends, committedReceives, cancelledSends, cancelledReceives, faultedSends)
    }

    constructor (capacity: nat)
      ensures Now() == Fresh(capacity)
    {
      this.capacity := capacity;
      buffer, senders, receivers, closed := [], [], [], false;
      sendStatus, results, wakes := map[], map[], map[];
      committedSends, committedReceives, cancelledSends, cancelledReceives, faultedSends := 0, 0, 0, 0, 0;
    }

    method Action(step: Step) returns (reply: Reply)
      modifies this
      ensures (Now(), reply) == Next(old(Now()), step)
    {
      match step
      case Send(id) => reply := ActSend(id);
      case Receive(id) => reply := ActReceive(id);
      case CancelSender =>
        if senders != [] {
          var id := senders[0];
          senders := senders[1..];
          sendStatus := sendStatus[id := Cancelled];
          cancelledSends := cancelledSends + 1;
          return SenderCancelled(id);
        }
        reply := NothingToCancel;
      case CancelReceiver =>
        if receivers != [] {
          var id := receivers[0];
          receivers := receivers[1..];
          results := results[id := Some(Withdrawn)];
          cancelledReceives := cancelledReceives + 1;
          return ReceiverCancelled(id);
        }
        reply := NothingToCancel;
      case Close => reply := ActClose();
    }

    method WakeUp(key: Registration)
      modifies `wakes
      ensures WakeCount(wakes, key) == WakeCount(old(wakes), key) + 1
      ensures forall other :: other != key ==> WakeCount(wakes, other) == WakeCount(old(wakes), other)
      ensures wakes == Wake(old(wakes), key)
    {
      wakes := wakes[key := WakeCount(wakes, key) + 1];
    }

    method ActSend(id: nat) returns (reply: Reply)
      modifies `buffer, `senders, `receivers, `sendStatus, `results, `wakes, `committedSends, `committedReceives
      ensures (Now(), reply) == SendStep(old(Now()), id)
    {
      hide Wake;
      if closed {
        sendStatus := sendStatus[id := Rejected];
        return SendRejected;
      }
      if receivers != [] {
        AnswerReceiver(Value(id));
        sendStatus := sendStatus[id := Committed];
        committedSends := committedSends + 1;
        committedReceives := committedReceives + 1;
        return SendCommitted;
      }
      if capacity > 0 && |buffer| < capacity {
        buffer := buffer + [id];
        sendStatus := sendStatus[id := Committed];
        committedSends := committedSends + 1;
        return SendCommitted;
      }
      senders := senders + [id];
      sendStatus := sendStatus[id := Pending];
      reply := SendPending;
    }

    // The longest waiting receiver leaves the queue, answered and woken.
    method AnswerReceiver(delivery: Delivery)
      requires receivers != []
      modifies `receivers, `results, `wakes
      ensures receivers == old(receivers)[1..]
      ensures results == old(results)[old(receivers)[0] := Some(delivery)]
      ensures wakes == Wake(old(wakes), Receiver(old(receivers)[0]))
    {
      var recipient := receivers[0];
      receivers := receivers[1..];
      results := results[recipient := Some(delivery)];
      WakeUp(Receiver(recipient));
    }

    // The longest waiting sender leaves the queue, committed and woken.
    method CommitSender() returns (sender: nat)
      requires senders != []
      modifies `senders, `sendStatus, `wakes, `committedSends
      ensures sender == old(senders)[0] && senders == old(senders)[1..]
      ensures sendStatus == old(sendStatus)[sender := Committed]
      ensures committedSends == old(committedSends) + 1
      ensures wakes == Wake(old(wakes), Sender(sender))
    {
      sender := senders[0];
      senders := senders[1..];
      sendStatus := sendStatus[sender := Committed];
      committedSends := committedSends + 1;
      WakeUp(Sender(sender));
    }

    method ActReceive(id: nat) returns (reply: Reply)
      modifies `buffer, `senders, `receivers, `sendStatus, `results, `wakes, `committedSends, `committedReceives
      ensures (Now(), reply) == ReceiveStep(old(Now()), id)
    {
      hide Wake;
      var result: Option<Delivery>;
      if buffer != [] {
        var value := buffer[0];
        buffer := buffer[1..];
        committedReceives := committedReceives + 1;
        if senders != [] && !closed {
          var sender := CommitSender();
          buffer := buffer + [sender];
        }
        result := Some(Value(value));
      } else if senders != [] && !closed {
        var sender := CommitSender();
        committedReceives := committedReceives + 1;
        result := Some(Value(sender));
      } else if closed {
        result := Some(EndOfChannel);
      } else {
        receivers := receivers + [id];
        result := None;
      }
      results := results[id := result];
      reply := Received(result);
    }

    method ActClose() returns (reply: Reply)
      modifies this
      ensures (Now(), reply) == Next(old(Now()), Close)
    {
      hide FaultSenders, DrainBuffer, DismissReceivers;
      closed := true;
      FaultLoop();
      DrainLoop();
      DismissLoop();
      reply := ChannelClosed;
    }

    method FaultLoop()
      modifies `senders, `sendStatus, `faultedSends, `wakes
      ensures Now() == FaultSenders(old(Now()))
    {
      hide Wake, FaultSenders;
      ghost var start := Now();
      while senders != []
        invariant FaultSenders(Now()) == FaultSenders(start)
        decreases |senders|
      {
        ghost var c := Now();
        var id := senders[0];
        senders := senders[1..];
        sendStatus := sendStatus[id := Faulted];
        faultedSends := faultedSends + 1;
        WakeUp(Sender(id));
        assert Now() == FaultOne(c);
        FaultStep(c);
      }
      FaultDone(Now());
    }

    method DrainLoop()
      modifies `receivers, `results, `buffer, `committedReceives, `wakes
      ensures Now() == DrainBuffer(old(Now()))
    {
      hide Wake, DrainBuffer;
      ghost var start := Now();
      while receivers != [] && buffer != []
        invariant DrainBuffer(Now()) == DrainBuffer(start)
        decreases |receivers|
      {
        ghost var c := Now();
        AnswerReceiver(Value(buffer[0]));
        buffer := buffer[1..];
        committedReceives := committedReceives + 1;
        assert Now() == DrainOne(c);
        DrainStep(c);
      }
      DrainDone(Now());
    }

    method DismissLoop()
      modifies `receivers, `results, `wakes
      ensures Now() == DismissReceivers(old(Now()))
    {
      hide Wake, DismissReceivers;
      ghost var start := Now();
      while receivers != []
        invariant DismissReceivers(Now()) == DismissReceivers(start)
        decreases |receivers|
      {
        ghost var c := Now();
        AnswerReceiver(EndOfChannel);
        assert Now() == DismissOne(c);
        DismissStep(c);
      }
      DismissDone(Now());
    }
  }
}
