/** Who received what, who was woken, and that the counters add up. */
module ChannelAccounts {
  import opened Options
  import opened Sequences
  import opened Channel
  import opened ChannelQueue
  import opened ChannelHistory

  /** `takers[k]` is the one receive registration that got `delivered[k]`; the
      waiting receivers are exactly the registrations without a result. */
  ghost predicate Handed(
    asked: seq<nat>, results: map<nat, Option<Delivery>>, receivers: seq<nat>, delivered: seq<nat>, takers: seq<nat>)
  {
    && Distinct(asked) && (forall id :: id in results <==> id in asked)
    && Distinct(receivers) && (forall id :: id in receivers <==> Is(results, id, None))
    && Distinct(takers) && |takers| == |delivered|
    && (forall k :: 0 <= k < |takers| ==> Is(results, takers[k], Some(Value(delivered[k]))))
    && (forall id :: id in results && results[id].Some? && results[id].value.Value? ==> id in takers)
  }

  lemma AskAndWait(
      asked: seq<nat>, results: map<nat, Option<Delivery>>, receivers: seq<nat>, delivered: seq<nat>, takers: seq<nat>,
      id: nat)
    requires Handed(asked, results, receivers, delivered, takers) && id !in asked
    ensures Handed(asked + [id], results[id := None], receivers + [id], delivered, takers)
  {
    assert Distinct([id]);
    DistinctAppend(asked, [id]);
    DistinctAppend(receivers, [id]);
    hide Distinct;
  }

  lemma AskAfterClose(
      asked: seq<nat>, results: map<nat, Option<Delivery>>, receivers: seq<nat>, delivered: seq<nat>, takers: seq<nat>,
      id: nat)
    requires Handed(asked, results, receivers, delivered, takers) && id !in asked
    ensures Handed(asked + [id], results[id := Some(EndOfChannel)], receivers, delivered, takers)
  {
    assert Distinct([id]);
    DistinctAppend(asked, [id]);
    hide Distinct;
  }

  lemma TailOfDistinct(q: seq<nat>)
    requires q != [] && Distinct(q)
    ensures Distinct(q[1..]) && forall x :: x in q[1..] <==> x in q && x != q[0]
  {
    assert q == [q[0]] + q[1..];
    DistinctSplit([q[0]], q[1..]);
  }

  // The longest waiting receiver is served.
  lemma ServeReceiver(
      asked: seq<nat>, results: map<nat, Option<Delivery>>, receivers: seq<nat>, delivered: seq<nat>, takers: seq<nat>,
      value: nat)
    requires Handed(asked, results, receivers, delivered, takers) && receivers != []
    ensures Handed(asked, results[receivers[0] := Some(Value(value))], receivers[1..],
                   delivered + [value], takers + [receivers[0]])
  {
    var r := receivers[0];
    assert r in receivers;
    TailOfDistinct(receivers);
    assert Distinct([r]);
    DistinctAppend(takers, [r]);
    hide Distinct;
  }

  lemma WithdrawReceiver(
      asked: seq<nat>, results: map<nat, Option<Delivery>>, receivers: seq<nat>, delivered: seq<nat>, takers: seq<nat>)
    requires Handed(asked, results, receivers, delivered, takers) && receivers != []
    ensures Handed(asked, results[receivers[0] := Some(Withdrawn)], receivers[1..], delivered, takers)
  {
    var r := receivers[0];
    assert r in receivers;
    TailOfDistinct(receivers);
    hide Distinct;
  }

  lemma DismissAll(
      asked: seq<nat>, results: map<nat, Option<Delivery>>, told: map<nat, Option<Delivery>>,
      receivers: seq<nat>, delivered: seq<nat>, takers: seq<nat>)
    requires Handed(asked, results, receivers, delivered, takers)
    requires told.Keys == results.Keys
    requires forall id :: id in results ==> told[id] == if id in receivers then Some(EndOfChannel) else results[id]
    ensures Handed(asked, told, [], delivered, takers)
  {
    hide Distinct;
    DistinctEmpty<nat>();
    forall k | 0 <= k < |takers| ensures Is(told, takers[k], Some(Value(delivered[k]))) {
      assert Is(results, takers[k], Some(Value(delivered[k])));
    }
  }

  /** A send registration was woken exactly when it had to wait and was then
      committed or failed; a cancelled one never is. */
  ghost predicate SendersWoken(
    status: map<nat, SendStatus>, wakes: map<Registration, nat>, parked: set<Registration>)
  {
    && (forall id :: Sender(id) in wakes <==>
          Sender(id) in parked && (Is(status, id, Committed) || Is(status, id, Faulted)))
    && (forall id :: Sender(id) in parked ==> id in status)
    && (forall id :: id in status && status[id] in {Pending, Cancelled, Faulted} ==> Sender(id) in parked)
  }

  /** The same for receive registrations: woken by a value or by the end of the channel. */
  ghost predicate ReceiversWoken(
    results: map<nat, Option<Delivery>>, wakes: map<Registration, nat>, parked: set<Registration>)
  {
    && (forall id :: Receiver(id) in wakes <==>
          Receiver(id) in parked && id in results && results[id].Some? && results[id] != Some(Withdrawn))
    && (forall id :: Receiver(id) in parked ==> id in results)
    && (forall id :: id in results && results[id] in {None, Some(Withdrawn)} ==> Receiver(id) in parked)
  }

  ghost predicate WokenOnce(wakes: map<Registration, nat>) {
    forall key :: key in wakes ==> wakes[key] == 1
  }

  /** Everything the history of a run promises beyond the order of the values. */
  ghost predicate Accounted(l: Log) {
    var c := l.chan;
    && Handed(l.asked, c.results, c.receivers, l.delivered, l.takers)
    && SendersWoken(c.sendStatus, c.wakes, l.parked)
    && ReceiversWoken(c.results, c.wakes, l.parked)
    && WokenOnce(c.wakes)
  }

  lemma HandedAfterSend(l: Log, id: nat)
    requires Structure(l.chan) && Accounted(l)
    ensures
      var m := Advance(l, Send(id));
      Handed(m.asked, m.chan.results, m.chan.receivers, m.delivered, m.takers)
  {
    hide Handed, SendersWoken, ReceiversWoken, WokenOnce, Wake;
    var c := l.chan;
    if !c.closed && c.receivers != [] {
      ServeReceiver(l.asked, c.results, c.receivers, l.delivered, l.takers, id);
    }
  }

  lemma HandedAfterReceive(l: Log, id: nat)
    requires Structure(l.chan) && Accounted(l) && id !in l.asked
    ensures
      var m := Advance(l, Receive(id));
      Handed(m.asked, m.chan.results, m.chan.receivers, m.delivered, m.takers)
  {
    hide Handed, SendersWoken, ReceiversWoken, WokenOnce, Wake;
    var c := l.chan;
    if c.buffer == [] && c.senders == [] && c.closed {
      AskAfterClose(l.asked, c.results, c.receivers, l.delivered, l.takers, id);
    } else {
      AskAndWait(l.asked, c.results, c.receivers, l.delivered, l.takers, id);
      if c.buffer != [] || c.senders != [] {
        var v := if c.buffer != [] then c.buffer[0] else c.senders[0];
        assert c.receivers + [id] == [id];
        ServeReceiver(l.asked + [id], c.results[id := None], [id], l.delivered, l.takers, v);
        assert c.results[id := None][id := Some(Value(v))] == c.results[id := Some(Value(v))];
        assert [id][1..] == c.receivers;
      }
    }
  }

  /** Waking `keys`, none of which was woken before. */
  ghost predicate WokeExactly(before: map<Registration, nat>, after: map<Registration, nat>, keys: set<Registration>) {
    && keys !! before.Keys
    && after.Keys == before.Keys + keys
    && forall key :: key in after ==> after[key] == if key in before then before[key] else 1
  }

  ghost function SenderKeys(q: seq<nat>): set<Registration> {
    set id | id in q :: Sender(id)
  }

  ghost function ReceiverKeys(q: seq<nat>): set<Registration> {
    set id | id in q :: Receiver(id)
  }

  lemma WakeOne(wakes: map<Registration, nat>, key: Registration)
    requires key !in wakes
    ensures WokeExactly(wakes, Wake(wakes, key), {key})
  {
  }

  lemma WokeTrans(
      a: map<Registration, nat>, b: map<Registration, nat>, c: map<Registration, nat>,
      keys: set<Registration>, more: set<Registration>)
    requires WokeExactly(a, b, keys) && WokeExactly(b, c, more)
    ensures WokeExactly(a, c, keys + more)
  {
  }

  lemma {:induction false} FaultSendersWakes(c: Chan)
    requires Distinct(c.senders) && SenderKeys(c.senders) !! c.wakes.Keys
    ensures WokeExactly(c.wakes, FaultSenders(c).wakes, SenderKeys(c.senders))
    decreases |c.senders|
  {
    if c.senders != [] {
      var id := c.senders[0];
      var d := FaultOne(c);
      TailOfDistinct(c.senders);
      assert Sender(id) in SenderKeys(c.senders);
      assert SenderKeys(c.senders) == {Sender(id)} + SenderKeys(c.senders[1..]);
      WakeOne(c.wakes, Sender(id));
      hide Wake, Distinct, SenderKeys;
      assert d.wakes.Keys == c.wakes.Keys + {Sender(id)};
      KeysApart(c.senders, id);
      FaultSendersWakes(d);
      WokeTrans(c.wakes, d.wakes, FaultSenders(d).wakes, {Sender(id)}, SenderKeys(d.senders));
    }
  }

  lemma KeysApart(q: seq<nat>, id: nat)
    requires q != [] && Distinct(q) && id == q[0]
    ensures Sender(id) !in SenderKeys(q[1..]) && Receiver(id) !in ReceiverKeys(q[1..])
    ensures SenderKeys(q[1..]) <= SenderKeys(q) && ReceiverKeys(q[1..]) <= ReceiverKeys(q)
  {
    TailOfDistinct(q);
  }

  lemma {:induction false} DismissReceiversWakes(c: Chan)
    requires Distinct(c.receivers) && ReceiverKeys(c.receivers) !! c.wakes.Keys
    ensures WokeExactly(c.wakes, DismissReceivers(c).wakes, ReceiverKeys(c.receivers))
    decreases |c.receivers|
  {
    if c.receivers != [] {
      var id := c.receivers[0];
      var d := DismissOne(c);
      TailOfDistinct(c.receivers);
      assert Receiver(id) in ReceiverKeys(c.receivers);
      assert ReceiverKeys(c.receivers) == {Receiver(id)} + ReceiverKeys(c.receivers[1..]);
      WakeOne(c.wakes, Receiver(id));
      hide Wake, Distinct, ReceiverKeys;
      assert d.wakes.Keys == c.wakes.Keys + {Receiver(id)};
      KeysApart(c.receivers, id);
      DismissReceiversWakes(d);
      WokeTrans(c.wakes, d.wakes, DismissReceivers(d).wakes, {Receiver(id)}, ReceiverKeys(d.receivers));
    }
  }

  lemma {:induction false} DismissReceiversResults(c: Chan)
    ensures forall id :: id in DismissReceivers(c).results <==> id in c.results || id in c.receivers
    ensures forall id :: id in DismissReceivers(c).results ==>
      DismissReceivers(c).results[id] == if id in c.receivers then Some(EndOfChannel) else c.results[id]
    decreases |c.receivers|
  {
    hide Wake;
    if c.receivers != [] {
      DismissReceiversResults(DismissOne(c));
      assert c.receivers == [c.receivers[0]] + c.receivers[1..];
    }
  }

  /* How the wake-up account of the senders changes. */

  lemma SenderIssued(
      status: map<nat, SendStatus>, wakes: map<Registration, nat>, parked: set<Registration>, id: nat, s: SendStatus)
    requires SendersWoken(status, wakes, parked) && id !in status && s in {Committed, Rejected}
    ensures SendersWoken(status[id := s], wakes, parked)
  {
  }

  lemma SenderParked(
      status: map<nat, SendStatus>, wakes: map<Registration, nat>, parked: set<Registration>, id: nat)
    requires SendersWoken(status, wakes, parked) && id !in status
    ensures SendersWoken(status[id := Pending], wakes, parked + {Sender(id)})
  {
  }

  lemma SenderResolved(
      status: map<nat, SendStatus>, wakes: map<Registration, nat>, parked: set<Registration>, id: nat, s: SendStatus)
    requires SendersWoken(status, wakes, parked) && Is(status, id, Pending) && s in {Committed, Faulted}
    ensures Sender(id) !in wakes
    ensures SendersWoken(status[id := s], Wake(wakes, Sender(id)), parked)
  {
  }

  lemma SenderCancelledQuietly(
      status: map<nat, SendStatus>, wakes: map<Registration, nat>, parked: set<Registration>, id: nat)
    requires SendersWoken(status, wakes, parked) && Is(status, id, Pending)
    ensures SendersWoken(status[id := Cancelled], wakes, parked)
  {
  }

  // The senders' account does not depend on wake-ups and parking of receivers.
  lemma SendersIgnoreReceivers(
      status: map<nat, SendStatus>, wakes: map<Registration, nat>, wakes': map<Registration, nat>,
      parked: set<Registration>, parked': set<Registration>)
    requires SendersWoken(status, wakes, parked)
    requires forall id :: (Sender(id) in wakes <==> Sender(id) in wakes')
    requires forall id :: (Sender(id) in parked <==> Sender(id) in parked')
    ensures SendersWoken(status, wakes', parked')
  {
  }

  lemma ReceiversIgnoreSenders(
      results: map<nat, Option<Delivery>>, wakes: map<Registration, nat>, wakes': map<Registration, nat>,
      parked: set<Registration>, parked': set<Registration>)
    requires ReceiversWoken(results, wakes, parked)
    requires forall id :: (Receiver(id) in wakes <==> Receiver(id) in wakes')
    requires forall id :: (Receiver(id) in parked <==> Receiver(id) in parked')
    ensures ReceiversWoken(results, wakes', parked')
  {
  }

  lemma ReceiverAnswered(
      results: map<nat, Option<Delivery>>, wakes: map<Registration, nat>, parked: set<Registration>, id: nat,
      d: Delivery)
    requires ReceiversWoken(results, wakes, parked) && id !in results && d != Withdrawn
    ensures ReceiversWoken(results[id := Some(d)], wakes, parked)
  {
  }

  lemma ReceiverParked(
      results: map<nat, Option<Delivery>>, wakes: map<Registration, nat>, parked: set<Registration>, id: nat)
    requires ReceiversWoken(results, wakes, parked) && id !in results
    ensures ReceiversWoken(results[id := None], wakes, parked + {Receiver(id)})
  {
  }

  lemma ReceiverResolved(
      results: map<nat, Option<Delivery>>, wakes: map<Registration, nat>, parked: set<Registration>, id: nat,
      d: Delivery)
    requires ReceiversWoken(results, wakes, parked) && Is(results, id, None) && d != Withdrawn
    ensures Receiver(id) !in wakes
    ensures ReceiversWoken(results[id := Some(d)], Wake(wakes, Receiver(id)), parked)
  {
  }

  lemma ReceiverWithdrawnQuietly(
      results: map<nat, Option<Delivery>>, wakes: map<Registration, nat>, parked: set<Registration>, id: nat)
    requires ReceiversWoken(results, wakes, parked) && Is(results, id, None)
    ensures ReceiversWoken(results[id := Some(Withdrawn)], wakes, parked)
  {
  }

  ghost predicate Woken(l: Log) {
    && SendersWoken(l.chan.sendStatus, l.chan.wakes, l.parked)
    && ReceiversWoken(l.chan.results, l.chan.wakes, l.parked)
    && WokenOnce(l.chan.wakes)
  }

  lemma FirstSenderPending(l: Log)
    requires SendOrder(l) && l.chan.senders != []
    ensures Is(l.chan.sendStatus, l.chan.senders[0], Pending)
  {
    assert l.chan.senders[0] in l.chan.senders;
  }

  lemma FirstReceiverWaits(l: Log)
    requires Accounted(l) && l.chan.receivers != []
    ensures Is(l.chan.results, l.chan.receivers[0], None)
  {
    assert l.chan.receivers[0] in l.chan.receivers;
  }

  lemma WokenAfterSend(l: Log, id: nat)
    requires Structure(l.chan) && SendOrder(l) && Accounted(l) && id !in l.issued
    ensures Woken(Advance(l, Send(id)))
  {
    var c := l.chan;
    assert id !in c.sendStatus;
    if c.receivers != [] {
      FirstReceiverWaits(l);
    }
    hide Ordered, Handed, SendersWoken, ReceiversWoken, Structure;
    var parked := l.parked + {Sender(id)};
    if c.closed {
      SenderIssued(c.sendStatus, c.wakes, l.parked, id, Rejected);
      assert l.parked + {} == l.parked;
    } else if c.receivers != [] {
      var r := c.receivers[0];
      var wakes := Wake(c.wakes, Receiver(r));
      SenderIssued(c.sendStatus, c.wakes, l.parked, id, Committed);
      SendersIgnoreReceivers(c.sendStatus[id := Committed], c.wakes, wakes, l.parked, l.parked);
      ReceiverResolved(c.results, c.wakes, l.parked, r, Value(id));
      assert l.parked + {} == l.parked;
    } else if c.capacity > 0 && |c.buffer| < c.capacity {
      SenderIssued(c.sendStatus, c.wakes, l.parked, id, Committed);
      assert l.parked + {} == l.parked;
    } else {
      SenderParked(c.sendStatus, c.wakes, l.parked, id);
      ReceiversIgnoreSenders(c.results, c.wakes, c.wakes, l.parked, parked);
    }
  }

  lemma WokenAfterAsking(l: Log, id: nat)
    requires Woken(l) && id !in l.chan.results
    requires l.chan.buffer == [] && l.chan.senders == [] && !l.chan.closed
    ensures Woken(Advance(l, Receive(id)))
  {
    hide SendersWoken, ReceiversWoken, WokenOnce;
    var c, parked := l.chan, l.parked + {Receiver(id)};
    ReceiverParked(c.results, c.wakes, l.parked, id);
    SendersIgnoreReceivers(c.sendStatus, c.wakes, c.wakes, l.parked, parked);
  }

  // A receive that is answered at once, without waking anybody.
  lemma WokenAfterAnswer(l: Log, id: nat)
    requires Woken(l) && id !in l.chan.results && l.chan.senders == []
    requires l.chan.buffer != [] || l.chan.closed
    ensures Woken(Advance(l, Receive(id)))
  {
    hide SendersWoken, ReceiversWoken, WokenOnce;
    var c := l.chan;
    assert l.parked + {} == l.parked;
    var d := if c.buffer != [] then Value(c.buffer[0]) else EndOfChannel;
    ReceiverAnswered(c.results, c.wakes, l.parked, id, d);
  }

  // A receive that takes from or makes room for the longest waiting sender.
  lemma WokenAfterSenderServed(l: Log, id: nat)
    requires Woken(l) && id !in l.chan.results && l.chan.senders != [] && !l.chan.closed
    requires Is(l.chan.sendStatus, l.chan.senders[0], Pending)
    ensures Woken(Advance(l, Receive(id)))
  {
    hide SendersWoken, ReceiversWoken;
    var c := l.chan;
    assert l.parked + {} == l.parked;
    var x, d := c.senders[0], Value(if c.buffer != [] then c.buffer[0] else c.senders[0]);
    SenderResolved(c.sendStatus, c.wakes, l.parked, x, Committed);
    ReceiverAnswered(c.results, c.wakes, l.parked, id, d);
    ReceiversIgnoreSenders(c.results[id := Some(d)], c.wakes, Wake(c.wakes, Sender(x)), l.parked, l.parked);
  }

  lemma WokenAfterReceive(l: Log, id: nat)
    requires Structure(l.chan) && SendOrder(l) && Accounted(l) && id !in l.asked
    ensures Woken(Advance(l, Receive(id)))
  {
    var c := l.chan;
    assert id !in c.results;
    hide Ordered, Handed, SendersWoken, ReceiversWoken, Advance;
    if c.senders != [] {
      FirstSenderPending(l);
      WokenAfterSenderServed(l, id);
    } else if c.buffer != [] || c.closed {
      WokenAfterAnswer(l, id);
    } else {
      WokenAfterAsking(l, id);
    }
  }

  lemma ClosedWakes(l: Log)
    requires Structure(l.chan) && SendOrder(l) && Accounted(l)
    ensures
      WokeExactly(l.chan.wakes, Next(l.chan, Close).0.wakes,
                  SenderKeys(l.chan.senders) + ReceiverKeys(l.chan.receivers))
  {
    var c := l.chan;
    var closing := c.(closed := true);
    CloseNeverDrains(c);
    FaultSendersShape(closing);
    SurvivorsAreDistinct(l.issued, c.sendStatus, l.delivered, c.buffer, c.senders);
    DistinctSplit(l.delivered + c.buffer, c.senders);
    assert SenderKeys(c.senders) !! c.wakes.Keys by {
      hide Distinct, Handed, Filter;
      assert forall id :: id in c.senders ==> Sender(id) !in c.wakes;
    }
    assert ReceiverKeys(c.receivers) !! c.wakes.Keys && Distinct(c.receivers) by {
      hide Distinct, Ordered;
      assert forall id :: id in c.receivers ==> Receiver(id) !in c.wakes;
    }
    hide Ordered, Handed, SendersWoken, ReceiversWoken, Wake, Distinct;
    FaultSendersWakes(closing);
    var failed := FaultSenders(closing);
    assert ReceiverKeys(failed.receivers) !! failed.wakes.Keys;
    DismissReceiversWakes(failed);
    hide FaultSenders, DismissReceivers;
    WokeTrans(c.wakes, failed.wakes, DismissReceivers(failed).wakes, SenderKeys(c.senders), ReceiverKeys(c.receivers));
  }

  lemma CloseEffect(c: Chan)
    requires Structure(c)
    requires forall id :: id in c.senders ==> id in c.sendStatus
    requires forall id :: id in c.receivers ==> id in c.results
    ensures
      var d := Next(c, Close).0;
      && d.sendStatus.Keys == c.sendStatus.Keys && d.results.Keys == c.results.Keys
      && (forall id :: id in d.sendStatus ==> d.sendStatus[id] == if id in c.senders then Faulted else c.sendStatus[id])
      && (forall id :: id in d.results ==>
            d.results[id] == if id in c.receivers then Some(EndOfChannel) else c.results[id])
  {
    var closing := c.(closed := true);
    CloseNeverDrains(c);
    FaultSendersShape(closing);
    FaultSendersStatus(closing);
    var failed := FaultSenders(closing);
    DismissReceiversShape(failed);
    DismissReceiversResults(failed);
    hide FaultSenders, DismissReceivers, DrainBuffer;
    assert failed.sendStatus.Keys == c.sendStatus.Keys;
    assert DismissReceivers(failed).results.Keys == c.results.Keys;
  }

  lemma AllSendersFaulted(
      status: map<nat, SendStatus>, status': map<nat, SendStatus>, wakes: map<Registration, nat>,
      wakes': map<Registration, nat>, parked: set<Registration>, senders: seq<nat>, receivers: seq<nat>)
    requires SendersWoken(status, wakes, parked)
    requires forall id :: id in senders ==> Is(status, id, Pending)
    requires status'.Keys == status.Keys
    requires forall id :: id in status ==> status'[id] == if id in senders then Faulted else status[id]
    requires WokeExactly(wakes, wakes', SenderKeys(senders) + ReceiverKeys(receivers))
    ensures SendersWoken(status', wakes', parked)
  {
  }

  lemma AllReceiversDismissed(
      results: map<nat, Option<Delivery>>, results': map<nat, Option<Delivery>>, wakes: map<Registration, nat>,
      wakes': map<Registration, nat>, parked: set<Registration>, senders: seq<nat>, receivers: seq<nat>)
    requires ReceiversWoken(results, wakes, parked)
    requires forall id :: id in receivers ==> Is(results, id, None)
    requires results'.Keys == results.Keys
    requires forall id :: id in results ==> results'[id] == if id in receivers then Some(EndOfChannel) else results[id]
    requires WokeExactly(wakes, wakes', SenderKeys(senders) + ReceiverKeys(receivers))
    ensures ReceiversWoken(results', wakes', parked)
  {
  }

  lemma AccountedAfterClose(l: Log)
    requires Structure(l.chan) && SendOrder(l) && Accounted(l)
    ensures Accounted(Advance(l, Close))
  {
    var c := l.chan;
    var d := Next(c, Close).0;
    assert forall id :: id in c.senders ==> Is(c.sendStatus, id, Pending);
    assert forall id :: id in c.receivers ==> Is(c.results, id, None);
    CloseEffect(c);
    CloseShape(c);
    ClosedWakes(l);
    hide Ordered, Handed, SendersWoken, ReceiversWoken, Next, Structure;
    DismissAll(l.asked, c.results, d.results, c.receivers, l.delivered, l.takers);
    AllSendersFaulted(c.sendStatus, d.sendStatus, c.wakes, d.wakes, l.parked, c.senders, c.receivers);
    AllReceiversDismissed(c.results, d.results, c.wakes, d.wakes, l.parked, c.senders, c.receivers);
    assert l.parked + {} == l.parked;
  }

  lemma AccountedKept(l: Log, step: Step)
    requires Structure(l.chan) && SendOrder(l) && Accounted(l) && FreshStep(l, step)
    ensures Accounted(Advance(l, step))
  {
    hide Ordered, Handed, SendersWoken, ReceiversWoken, WokenOnce;
    var c := l.chan;
    match step
    case Send(id) =>
      HandedAfterSend(l, id);
      WokenAfterSend(l, id);
    case Receive(id) =>
      HandedAfterReceive(l, id);
      WokenAfterReceive(l, id);
    case CancelSender =>
      assert l.parked + {} == l.parked;
      if c.senders != [] {
        FirstSenderPending(l);
        SenderCancelledQuietly(c.sendStatus, c.wakes, l.parked, c.senders[0]);
      }
    case CancelReceiver =>
      assert l.parked + {} == l.parked;
      if c.receivers != [] {
        FirstReceiverWaits(l);
        WithdrawReceiver(l.asked, c.results, c.receivers, l.delivered, l.takers);
        ReceiverWithdrawnQuietly(c.results, c.wakes, l.parked, c.receivers[0]);
      }
    case Close => AccountedAfterClose(l);
  }
}
