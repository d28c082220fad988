/** The main results about runs of the channel. */
module ChannelTotals {
  import opened Options
  import opened Sequences
  import opened Channel
  import opened ChannelQueue
  import opened ChannelHistory
  import opened ChannelAccounts

  ghost function With<V(!new)>(m: map<nat, V>, v: V): set<nat> {
    set id | id in m && m[id] == v
  }

  /** The counters agree with the history. */
  ghost predicate Tallied(l: Log) {
    var c := l.chan;
    && c.committedSends == |l.delivered| + |c.buffer|
    && c.committedReceives == |l.delivered|
    && c.cancelledSends == |Filter(l.issued, With(c.sendStatus, Cancelled))|
    && c.faultedSends == |Filter(l.issued, With(c.sendStatus, Faulted))|
    && c.cancelledReceives == |Filter(l.asked, With(c.results, Some(Withdrawn)))|
  }

  lemma CommitCountsKept(l: Log, step: Step)
    requires Structure(l.chan) && Tallied(l)
    ensures
      var m := Advance(l, step);
      && m.chan.committedSends == |m.delivered| + |m.chan.buffer|
      && m.chan.committedReceives == |m.delivered|
  {
    hide Filter, With, Wake;
    if step.Close? {
      CloseShape(l.chan);
      CloseNeverDrains(l.chan);
      FaultSendersShape(l.chan.(closed := true));
      DismissReceiversShape(FaultSenders(l.chan.(closed := true)));
    }
  }

  // One entry of `q` gets the value `v`.
  lemma CountOneMore<V(!new)>(q: seq<nat>, m: map<nat, V>, id: nat, v: V)
    requires Distinct(q) && id in q && id in m && m[id] != v
    ensures |Filter(q, With(m[id := v], v))| == |Filter(q, With(m, v))| + 1
  {
    assert With(m[id := v], v) == With(m, v) + {id};
    FilterUnion(q, With(m, v), {id});
    FilterOne(q, id);
  }

  // An entry changes between two values other than `v`.
  lemma CountSame<V(!new)>(m: map<nat, V>, id: nat, w: V, v: V)
    requires w != v && (id in m ==> m[id] != v)
    ensures With(m[id := w], v) == With(m, v)
  {
  }

  lemma CountAfterIssue<V(!new)>(q: seq<nat>, m: map<nat, V>, id: nat, w: V, v: V)
    requires w != v && id !in m
    ensures |Filter(q + [id], With(m[id := w], v))| == |Filter(q, With(m, v))|
  {
    CountSame(m, id, w, v);
    FilterAppend(q, id, With(m, v), With(m, v));
  }

  ghost predicate Sound(l: Log) {
    Structure(l.chan) && SendOrder(l) && Accounted(l) && Tallied(l)
  }

  lemma CancelledCountKept(l: Log, step: Step)
    requires Sound(l) && FreshStep(l, step)
    ensures
      var m := Advance(l, step);
      m.chan.cancelledSends == |Filter(m.issued, With(m.chan.sendStatus, Cancelled))|
  {
    var c := l.chan;
    assert forall id :: id in c.sendStatus <==> id in l.issued;
    if c.senders != [] {
      FirstSenderPending(l);
    }
    hide Filter, With, Wake, Accounted, Distinct;
    match step
    case Send(id) =>
      CountAfterIssue(l.issued, c.sendStatus, id, Rejected, Cancelled);
      CountAfterIssue(l.issued, c.sendStatus, id, Committed, Cancelled);
      CountAfterIssue(l.issued, c.sendStatus, id, Pending, Cancelled);
    case Receive(_) =>
      if c.senders != [] {
        CountSame(c.sendStatus, c.senders[0], Committed, Cancelled);
      }
    case CancelSender =>
      if c.senders != [] {
        CountOneMore(l.issued, c.sendStatus, c.senders[0], Cancelled);
      }
    case CancelReceiver =>
    case Close =>
      assert forall id :: id in c.senders ==> Is(c.sendStatus, id, Pending);
      FaultCloses(l);
  }

  lemma FaultCloses(l: Log)
    requires Sound(l)
    ensures
      var d := Next(l.chan, Close).0;
      && With(d.sendStatus, Cancelled) == With(l.chan.sendStatus, Cancelled)
      && With(d.results, Some(Withdrawn)) == With(l.chan.results, Some(Withdrawn))
      && With(d.sendStatus, Faulted) == With(l.chan.sendStatus, Faulted) + (set id | id in l.chan.senders)
      && d.faultedSends == l.chan.faultedSends + |l.chan.senders|
      && d.cancelledSends == l.chan.cancelledSends && d.cancelledReceives == l.chan.cancelledReceives
  {
    hide Next, Structure, Tallied, SendOrder, Accounted;
    var c := l.chan;
    QueuesWait(l);
    CloseEffect(c);
    CloseCounters(c);
  }

  // Whoever is in a queue has no outcome yet.
  lemma QueuesWait(l: Log)
    requires SendOrder(l) && Accounted(l)
    ensures forall id :: id in l.chan.senders ==> Is(l.chan.sendStatus, id, Pending)
    ensures forall id :: id in l.chan.receivers ==> Is(l.chan.results, id, None)
  {
  }

  lemma CloseCounters(c: Chan)
    requires Structure(c)
    ensures
      var d := Next(c, Close).0;
      && d.faultedSends == c.faultedSends + |c.senders|
      && d.cancelledSends == c.cancelledSends && d.cancelledReceives == c.cancelledReceives
  {
    CloseNeverDrains(c);
    FaultSendersShape(c.(closed := true));
    DismissReceiversShape(FaultSenders(c.(closed := true)));
  }

  lemma FaultedCountKept(l: Log, step: Step)
    requires Sound(l) && FreshStep(l, step)
    ensures
      var m := Advance(l, step);
      m.chan.faultedSends == |Filter(m.issued, With(m.chan.sendStatus, Faulted))|
  {
    var c := l.chan;
    assert forall id :: id in c.sendStatus <==> id in l.issued;
    if c.senders != [] {
      FirstSenderPending(l);
    }
    hide Filter, With, Wake, Accounted, Distinct;
    match step
    case Send(id) =>
      CountAfterIssue(l.issued, c.sendStatus, id, Rejected, Faulted);
      CountAfterIssue(l.issued, c.sendStatus, id, Committed, Faulted);
      CountAfterIssue(l.issued, c.sendStatus, id, Pending, Faulted);
    case Receive(_) =>
      if c.senders != [] {
        CountSame(c.sendStatus, c.senders[0], Committed, Faulted);
      }
    case CancelSender =>
      if c.senders != [] {
        CountSame(c.sendStatus, c.senders[0], Cancelled, Faulted);
      }
    case CancelReceiver =>
    case Close =>
      FaultCloses(l);
      PendingCount(l);
      hide Ordered, Next;
      NotYetFaulted(l);
      FilterUnion(l.issued, With(c.sendStatus, Faulted), set id | id in c.senders);
  }

  lemma NotYetFaulted(l: Log)
    requires SendOrder(l)
    ensures With(l.chan.sendStatus, Faulted) !! (set id | id in l.chan.senders)
  {
    assert forall id :: id in l.chan.senders ==> Is(l.chan.sendStatus, id, Pending);
  }

  // Filtering the issued sends down to the pending ones gives the sender queue.
  lemma PendingCount(l: Log)
    requires SendOrder(l)
    ensures Filter(l.issued, set id | id in l.chan.senders) == l.chan.senders
  {
    var c := l.chan;
    var pending := set id | id in c.senders;
    SurvivorsAreDistinct(l.issued, c.sendStatus, l.delivered, c.buffer, c.senders);
    DistinctSplit(l.delivered + c.buffer, c.senders);
    assert pending <= Alive(c.sendStatus) by { hide Distinct, Filter; }
    hide Distinct;
    FilterTwice(l.issued, Alive(c.sendStatus), pending);
    FilterConcat(l.delivered + c.buffer, c.senders, pending);
    FilterNone(l.delivered + c.buffer, pending);
    FilterAll(c.senders, pending);
    assert [] + c.senders == c.senders;
  }

  lemma ReceiveResult(c: Chan, id: nat)
    ensures
      var d := Next(c, Receive(id)).0;
      id in d.results && d.results == c.results[id := d.results[id]] && d.results[id] != Some(Withdrawn)
  {
    hide Wake;
  }

  lemma WithdrawnCountKept(l: Log, step: Step)
    requires Sound(l) && FreshStep(l, step)
    ensures
      var m := Advance(l, step);
      m.chan.cancelledReceives == |Filter(m.asked, With(m.chan.results, Some(Withdrawn)))|
  {
    var c := l.chan;
    assert forall id :: id in c.results <==> id in l.asked;
    assert Distinct(l.asked);
    if c.receivers != [] {
      FirstReceiverWaits(l);
    }
    hide Filter, With, Wake, Accounted, Distinct, SendOrder;
    match step
    case Send(id) =>
      if c.receivers != [] {
        CountSame(c.results, c.receivers[0], Some(Value(id)), Some(Withdrawn));
      }
    case Receive(id) =>
      ReceiveResult(c, id);
      CountAfterIssue(l.asked, c.results, id, Next(c, Receive(id)).0.results[id], Some(Withdrawn));
    case CancelSender =>
    case CancelReceiver =>
      if c.receivers != [] {
        CountOneMore(l.asked, c.results, c.receivers[0], Some(Withdrawn));
      }
    case Close =>
      FaultCloses(l);
  }

  lemma SoundKept(l: Log, step: Step)
    requires Sound(l) && FreshStep(l, step)
    ensures Sound(Advance(l, step))
  {
    StructureKept(l.chan, step);
    OrderKept(l, step);
    AccountedKept(l, step);
    CommitCountsKept(l, step);
    CancelledCountKept(l, step);
    FaultedCountKept(l, step);
    WithdrawnCountKept(l, step);
    hide Structure, SendOrder, Accounted, Next, Filter, With, FreshStep;
  }

  lemma {:induction false} EveryRunIsSound(capacity: nat, steps: seq<Step>)
    requires FreshRun(capacity, steps)
    ensures Sound(Play(capacity, steps))
    ensures Play(capacity, steps).chan == Run(capacity, steps)
    decreases |steps|
  {
    if steps != [] {
      var before, last := steps[..|steps| - 1], steps[|steps| - 1];
      EveryRunIsSound(capacity, before);
      hide Sound;
      SoundKept(Play(capacity, before), last);
    }
  }

  // FIFO: in any run, the sends that survive are, in issue order, exactly what was
  // delivered, then the buffer, then the pending sends; and the last two are one
  // queue cut at the capacity.
  lemma DeliveredInIssueOrder(capacity: nat, steps: seq<Step>)
    requires FreshRun(capacity, steps)
    ensures
      var l := Play(capacity, steps);
      var queue := l.chan.buffer + l.chan.senders;
      && Filter(l.issued, Alive(l.chan.sendStatus)) == l.delivered + queue
      && l.chan.buffer == queue[..if |queue| <= capacity then |queue| else capacity]
  {
    hide SendOrder, Accounted, Tallied, FreshRun, Play, Run;
    EveryRunIsSound(capacity, steps);
    EveryRunIsStructured(capacity, steps);
    SurvivorsInOrder(Play(capacity, steps));
  }

  lemma SurvivorsInOrder(l: Log)
    requires Structure(l.chan) && SendOrder(l)
    ensures
      var queue := l.chan.buffer + l.chan.senders;
      && Filter(l.issued, Alive(l.chan.sendStatus)) == l.delivered + queue
      && l.chan.buffer == queue[..if |queue| <= l.chan.capacity then |queue| else l.chan.capacity]
  {
    hide Filter, Distinct;
    CutAtCapacity(l.chan);
    assert l.delivered + l.chan.buffer + l.chan.senders == l.delivered + (l.chan.buffer + l.chan.senders);
  }

  // Every issued send is committed, pending, cancelled, faulted or rejected, and
  // the counters say how many are which.
  lemma EverySendIsAccountedFor(capacity: nat, steps: seq<Step>)
    requires FreshRun(capacity, steps)
    ensures
      var l := Play(capacity, steps);
      var c := l.chan;
      && |l.issued| == c.committedSends + |c.senders| + c.cancelledSends + c.faultedSends
                       + |Filter(l.issued, With(c.sendStatus, Rejected))|
      && c.committedSends == |l.delivered| + |c.buffer|
      && c.committedReceives == |l.delivered|
  {
    EveryRunIsSound(capacity, steps);
    var l := Play(capacity, steps);
    var status := l.chan.sendStatus;
    hide Accounted, Structure, Distinct;
    var alive, cancelled, faulted, rejected :=
      Alive(status), With(status, Cancelled), With(status, Faulted), With(status, Rejected);
    StatusesCover(status);
    FilterAll(l.issued, status.Keys);
    hide Alive, With, Filter;
    FilterUnion(l.issued, alive, cancelled);
    FilterUnion(l.issued, alive + cancelled, faulted);
    FilterUnion(l.issued, alive + cancelled + faulted, rejected);
  }

  lemma StatusesCover(status: map<nat, SendStatus>)
    ensures Alive(status) !! With(status, Cancelled) !! With(status, Faulted) !! With(status, Rejected)
    ensures
      Alive(status) + With(status, Cancelled) + With(status, Faulted) + With(status, Rejected) == status.Keys
  {
  }

  // A registration is woken at most once, exactly when it had to wait and was then
  // resolved by a counterpart or by closing; withdrawing it never wakes it.
  lemma WokenExactlyOnResolution(capacity: nat, steps: seq<Step>, id: nat)
    requires FreshRun(capacity, steps)
    ensures
      var l := Play(capacity, steps);
      var c := l.chan;
      && (forall key :: key in c.wakes ==> c.wakes[key] == 1)
      && (Sender(id) in c.wakes <==>
            Sender(id) in l.parked && id in c.sendStatus && c.sendStatus[id] in {Committed, Faulted})
      && (Receiver(id) in c.wakes <==>
            Receiver(id) in l.parked && id in c.results && c.results[id].Some? && c.results[id] != Some(Withdrawn))
  {
    EveryRunIsSound(capacity, steps);
    hide SendOrder, Handed, Structure, Tallied, FreshRun, Play;
  }

  // After closing and releasing the buffer, the committed sends are, in issue
  // order, those delivered to one receive registration each and those released.
  lemma DeliveredOrReleasedOnce(capacity: nat, steps: seq<Step>)
    requires FreshRun(capacity, steps)
    ensures
      var l := Advance(Play(capacity, steps), Close);
      var released := l.chan.buffer;
      && Filter(l.issued, With(l.chan.sendStatus, Committed)) == l.delivered + released
      && Distinct(l.delivered + released)
      && Distinct(l.takers) && |l.takers| == |l.delivered|
      && forall k :: 0 <= k < |l.takers| ==> Is(l.chan.results, l.takers[k], Some(Value(l.delivered[k])))
  {
    EveryRunIsSound(capacity, steps);
    var before := Play(capacity, steps);
    SoundKept(before, Close);
    CloseShape(before.chan);
    var l := Advance(before, Close);
    hide Sound, Advance, FreshRun, Play;
    ClosedSurvivors(l);
  }

  lemma ClosedSurvivors(l: Log)
    requires Sound(l) && l.chan.senders == []
    ensures Filter(l.issued, With(l.chan.sendStatus, Committed)) == l.delivered + l.chan.buffer
    ensures Distinct(l.delivered + l.chan.buffer)
    ensures Handed(l.asked, l.chan.results, l.chan.receivers, l.delivered, l.takers)
  {
    var c := l.chan;
    SurvivorsAreDistinct(l.issued, c.sendStatus, l.delivered, c.buffer, []);
    assert l.delivered + c.buffer + [] == l.delivered + c.buffer;
    hide Handed, Tallied, SendersWoken, ReceiversWoken, Distinct;
    FilterTwice(l.issued, Alive(c.sendStatus), With(c.sendStatus, Committed));
    FilterAll(l.delivered + c.buffer, With(c.sendStatus, Committed));
  }
}
