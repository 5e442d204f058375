/** The hand-off of datagrams from the acceptor thread to the processor thread through a
    bounded queue, as a step system: any thread may take the next step. */
module UdpHandoff {
  import opened JavaText
  import opened Utf8

  /** A datagram's source address, if known, and its bytes. */
  datatype Packet = Packet(source: Option<int>, bytes: seq<Byte>)

  datatype Fate = InHand | Kept | Dropped

  /** A received datagram and what became of it. */
  datatype Entry = Entry(packet: Packet, fate: Fate)

  datatype Acceptor = Unstarted | Testing | Receiving | Holding(packet: Packet) | Exited
  datatype Processor = Unstarted | Testing | Taking | Processing(packet: Packet) | Exited

  datatype Handoff = Handoff(
    capacity: nat,
    started: bool,
    stopped: bool,
    acceptor: Acceptor,
    processor: Processor,
    queue: seq<Packet>,
    received: seq<Entry>,
    processed: seq<Packet>,
    enqueuedAfterStop: nat,
    takenAfterStop: nat)

  function InitialHandoff(capacity: nat): Handoff {
    Handoff(capacity, false, false, Acceptor.Unstarted, Processor.Unstarted, [], [], [], 0, 0)
  }

  datatype Step =
    | Start
    | StartFails
    | Stop
    | AcceptorTest
    | Receive(packet: Packet)
    | ReceiveNothing
    | ReceiveFails
    | Offer
    | ProcessorTest
    | Take
    | Finish

  predicate Enabled(h: Handoff, step: Step) {
    match step
    case Start => !h.started
    case StartFails => !h.started
    case Stop => true
    case AcceptorTest => h.acceptor.Testing?
    case Receive(_) => h.acceptor.Receiving?
    case ReceiveNothing => h.acceptor.Receiving?
    case ReceiveFails => h.acceptor.Receiving?
    case Offer => h.acceptor.Holding?
    case ProcessorTest => h.processor.Testing?
    case Take => h.processor.Taking? && h.queue != []
    case Finish => h.processor.Processing?
  }

  /** The last received datagram meets its fate. */
  function Settle(received: seq<Entry>, fate: Fate): seq<Entry> {
    if received == [] then [] else received[..|received| - 1] + [received[|received| - 1].(fate := fate)]
  }

  function DoOffer(h: Handoff): Handoff
    requires Enabled(h, Offer)
  {
    if |h.queue| < h.capacity then
      h.(acceptor := Acceptor.Testing, queue := h.queue + [h.acceptor.packet], received := Settle(h.received, Kept),
         enqueuedAfterStop := h.enqueuedAfterStop + if h.stopped then 1 else 0)
    else h.(acceptor := Acceptor.Testing, received := Settle(h.received, Dropped))
  }

  function DoTake(h: Handoff): Handoff
    requires Enabled(h, Take)
  {
    h.(processor := Processing(h.queue[0]), queue := h.queue[1..],
       takenAfterStop := h.takenAfterStop + if h.stopped then 1 else 0)
  }

  function Next(h: Handoff, step: Step): Handoff
    requires Enabled(h, step)
  {
    match step
    case Start => h.(started := true, acceptor := Acceptor.Testing, processor := Processor.Testing)
    case StartFails => h.(started := true)
    case Stop => h.(stopped := true)
    case AcceptorTest => h.(acceptor := if h.stopped then Acceptor.Exited else Receiving)
    case Receive(p) => h.(acceptor := Holding(p), received := h.received + [Entry(p, InHand)])
    case ReceiveNothing => h.(acceptor := Acceptor.Testing)
    case ReceiveFails => h.(acceptor := Acceptor.Exited, stopped := true)
    case Offer => DoOffer(h)
    case ProcessorTest => h.(processor := if h.stopped then Processor.Exited else Taking)
    case Take => DoTake(h)
    case Finish => h.(processor := Processor.Testing, processed := h.processed + [h.processor.packet])
  }

  predicate ValidRun(h: Handoff, steps: seq<Step>)
    decreases |steps|
  {
    steps == [] || (Enabled(h, steps[0]) && ValidRun(Next(h, steps[0]), steps[1..]))
  }

  function Run(h: Handoff, steps: seq<Step>): Handoff
    requires ValidRun(h, steps)
    decreases |steps|
  {
    if steps == [] then h else Run(Next(h, steps[0]), steps[1..])
  }

  lemma {:induction false} RunSnoc(h: Handoff, steps: seq<Step>, step: Step)
    requires ValidRun(h, steps) && Enabled(Run(h, steps), step)
    ensures ValidRun(h, steps + [step]) && Run(h, steps + [step]) == Next(Run(h, steps), step)
    decreases |steps|
  {
    if steps == [] {
      assert [] + [step] == [step] && [step][1..] == [];
      assert ValidRun(Next(h, step), [step][1..]);
    } else {
      RunSnoc(Next(h, steps[0]), steps[1..], step);
      assert (steps + [step])[0] == steps[0] && (steps + [step])[1..] == steps[1..] + [step];
    }
  }

  // ---- Conservation

  /** The received datagrams with a given fate, in order. */
  function With(received: seq<Entry>, fate: Fate): seq<Packet> {
    if received == [] then []
    else (if received[0].fate == fate then [received[0].packet] else []) + With(received[1..], fate)
  }

  lemma WithCons(e: Entry, received: seq<Entry>, fate: Fate)
    ensures With([e] + received, fate) == (if e.fate == fate then [e.packet] else []) + With(received, fate)
  {
    assert ([e] + received)[1..] == received;
  }

  lemma {:induction false} WithSnoc(received: seq<Entry>, e: Entry, fate: Fate)
    ensures With(received + [e], fate) == With(received, fate) + (if e.fate == fate then [e.packet] else [])
  {
    if received == [] {
      WithCons(e, [], fate);
      assert received + [e] == [e] + [];
    } else {
      var first, rest := received[0], received[1..];
      WithSnoc(rest, e, fate);
      WithCons(first, rest + [e], fate);
      assert received + [e] == [first] + (rest + [e]);
    }
  }

  function InFlight(h: Handoff): seq<Packet> {
    if h.processor.Processing? then [h.processor.packet] else []
  }

  function InAcceptor(h: Handoff): seq<Packet> {
    if h.acceptor.Holding? then [h.acceptor.packet] else []
  }

  /** The threads do nothing before the start, and only the last received datagram can be in
      the acceptor's hands. */
  predicate ThreadsOk(h: Handoff) {
    && (!h.started ==> h.acceptor.Unstarted? && h.processor.Unstarted?)
    && (h.acceptor.Holding? ==> h.received != [] && h.received[|h.received| - 1] == Entry(h.acceptor.packet, InHand))
  }

  /** Every received datagram that was not dropped has been processed, is being processed, is
      queued, or is still in the acceptor's hands, in order of arrival. */
  predicate Conserved(h: Handoff) {
    && With(h.received, Kept) == h.processed + InFlight(h) + h.queue
    && With(h.received, InHand) == InAcceptor(h)
  }

  lemma {:induction false} Counts(received: seq<Entry>)
    ensures |received| == |With(received, Kept)| + |With(received, Dropped)| + |With(received, InHand)|
  {
    if received != [] { Counts(received[1..]); }
  }

  lemma SettleFates(received: seq<Entry>, p: Packet, fate: Fate, of: Fate)
    requires received != [] && received[|received| - 1] == Entry(p, InHand) && fate != InHand
    requires With(received, InHand) == [p]
    ensures With(Settle(received, fate), of) ==
              if of == InHand then [] else With(received, of) + (if of == fate then [p] else [])
  {
    var init := received[..|received| - 1];
    assert received == init + [Entry(p, InHand)];
    WithSnoc(init, Entry(p, InHand), of);
    WithSnoc(init, Entry(p, InHand), InHand);
    WithSnoc(init, Entry(p, fate), of);
  }

  lemma OfferConserves(h: Handoff)
    requires ThreadsOk(h) && Conserved(h) && Enabled(h, Offer)
    ensures Conserved(DoOffer(h))
  {
    var p, fate := h.acceptor.packet, if |h.queue| < h.capacity then Kept else Dropped;
    SettleFates(h.received, p, fate, Kept);
    SettleFates(h.received, p, fate, InHand);
    Associative(h.processed + InFlight(h), h.queue, [p]);
    assert InFlight(DoOffer(h)) == InFlight(h);
  }

  lemma FinishConserves(h: Handoff)
    requires Conserved(h) && Enabled(h, Finish)
    ensures Conserved(Next(h, Finish))
  {
    assert h.processed + InFlight(h) + h.queue == h.processed + [h.processor.packet] + [] + h.queue;
  }

  lemma TakeConserves(h: Handoff)
    requires ThreadsOk(h) && Conserved(h) && Enabled(h, Take)
    ensures Conserved(DoTake(h))
  {
    assert h.queue == [h.queue[0]] + h.queue[1..];
  }

  lemma StepConserves(h: Handoff, step: Step)
    requires ThreadsOk(h) && Conserved(h) && Enabled(h, step)
    ensures ThreadsOk(Next(h, step)) && Conserved(Next(h, step))
  {
    match step
    case Receive(p) =>
      WithSnoc(h.received, Entry(p, InHand), Kept);
      WithSnoc(h.received, Entry(p, InHand), InHand);
    case Offer => OfferConserves(h);
    case Take => TakeConserves(h);
    case Finish => FinishConserves(h);
    case _ =>
  }

  // ---- Stopping

  /** Once stopped, what a thread may still enqueue or take is what it had begun before. */
  predicate StopOk(h: Handoff) {
    && (!h.stopped ==> h.enqueuedAfterStop == 0 && h.takenAfterStop == 0)
    && h.enqueuedAfterStop + (if h.acceptor.Receiving? || h.acceptor.Holding? then 1 else 0) <= 1
    && h.takenAfterStop + (if h.processor.Taking? then 1 else 0) <= 1
  }

  lemma StepKeepsStopOk(h: Handoff, step: Step)
    requires StopOk(h) && Enabled(h, step)
    ensures StopOk(Next(h, step))
  {
  }

  /** What the counters count: the queue grew, or shrank, in a step after the stop. */
  lemma CountersCount(h: Handoff, step: Step)
    requires Enabled(h, step)
    ensures Next(h, step).enqueuedAfterStop == h.enqueuedAfterStop + (if h.stopped && |Next(h, step).queue| > |h.queue| then 1 else 0)
    ensures Next(h, step).takenAfterStop == h.takenAfterStop + (if h.stopped && |Next(h, step).queue| < |h.queue| then 1 else 0)
  {
  }

  // ---- Every run

  /** A datagram is dropped only when the queue is full at that moment, and then it is. */
  lemma DropsOnlyWhenFull(h: Handoff, step: Step)
    requires ThreadsOk(h) && Conserved(h) && Enabled(h, step) && |h.queue| <= h.capacity
    ensures With(Next(h, step).received, Dropped) ==
              With(h.received, Dropped) + (if step.Offer? && |h.queue| == h.capacity then [h.acceptor.packet] else [])
    ensures |Next(h, step).queue| <= h.capacity == Next(h, step).capacity
  {
    match step
    case Receive(p) => WithSnoc(h.received, Entry(p, InHand), Dropped);
    case Offer => SettleFates(h.received, h.acceptor.packet, if |h.queue| < h.capacity then Kept else Dropped, Dropped);
    case _ =>
  }

  lemma {:induction false} RunKeeps(h: Handoff, steps: seq<Step>)
    requires ValidRun(h, steps) && ThreadsOk(h) && Conserved(h) && StopOk(h) && |h.queue| <= h.capacity
    ensures var end := Run(h, steps);
            ThreadsOk(end) && Conserved(end) && StopOk(end) && |end.queue| <= end.capacity == h.capacity
    decreases |steps|
  {
    if steps != [] {
      StepConserves(h, steps[0]);
      StepKeepsStopOk(h, steps[0]);
      DropsOnlyWhenFull(h, steps[0]);
      RunKeeps(Next(h, steps[0]), steps[1..]);
    }
  }

  // ---- Starting and stopping

  /** The run has a step that stops the server: a stop, or a receive that fails. */
  predicate HasStop(steps: seq<Step>) {
    exists i :: 0 <= i < |steps| && (steps[i].Stop? || steps[i].ReceiveFails?)
  }

  predicate HasStart(steps: seq<Step>) {
    Start in steps
  }

  lemma {:induction false} StopsAlong(h: Handoff, steps: seq<Step>)
    requires ValidRun(h, steps)
    ensures Run(h, steps).stopped <==> h.stopped || HasStop(steps)
    decreases |steps|
  {
    if steps != [] {
      var next, rest := Next(h, steps[0]), steps[1..];
      StopsAlong(next, rest);
      assert next.stopped <==> h.stopped || steps[0].Stop? || steps[0].ReceiveFails?;
      if i :| 0 <= i < |rest| && (rest[i].Stop? || rest[i].ReceiveFails?) {
        assert steps[i + 1] == rest[i];
      }
      if i :| 0 <= i < |steps| && (steps[i].Stop? || steps[i].ReceiveFails?) {
        assert i > 0 ==> rest[i - 1] == steps[i];
      }
    }
  }

  /** The run has a step that calls start, whether or not the channel can be bound. */
  predicate HasStartCall(steps: seq<Step>) {
    exists i :: 0 <= i < |steps| && (steps[i].Start? || steps[i].StartFails?)
  }

  /** A start counts even if it fails, and no second one comes after it. */
  lemma {:induction false} StartsAlong(h: Handoff, steps: seq<Step>)
    requires ValidRun(h, steps)
    ensures Run(h, steps).started <==> h.started || HasStartCall(steps)
    ensures h.started ==> !HasStartCall(steps)
    decreases |steps|
  {
    if steps != [] {
      var next, rest := Next(h, steps[0]), steps[1..];
      StartsAlong(next, rest);
      assert next.started <==> h.started || steps[0].Start? || steps[0].StartFails?;
      if i :| 0 <= i < |rest| && (rest[i].Start? || rest[i].StartFails?) {
        assert steps[i + 1] == rest[i];
      }
      if i :| 0 <= i < |steps| && (steps[i].Start? || steps[i].StartFails?) {
        assert i > 0 ==> rest[i - 1] == steps[i];
      }
    }
  }

  /** A thread has not begun before the start, and has left its loop only if the server is
      stopped. */
  predicate LoopsOk(h: Handoff) {
    && (h.acceptor.Exited? || h.processor.Exited? ==> h.stopped)
    && (h.acceptor.Unstarted? <==> h.processor.Unstarted?)
    && (!h.acceptor.Unstarted? ==> h.started)
  }

  lemma StepKeepsLoops(h: Handoff, step: Step)
    requires LoopsOk(h) && Enabled(h, step)
    ensures LoopsOk(Next(h, step))
    ensures Next(h, step).acceptor.Unstarted? <==> h.acceptor.Unstarted? && !step.Start?
  {
  }

  lemma {:induction false} LoopsAlong(h: Handoff, steps: seq<Step>)
    requires ValidRun(h, steps) && LoopsOk(h)
    ensures LoopsOk(Run(h, steps))
    ensures Run(h, steps).acceptor.Unstarted? <==> h.acceptor.Unstarted? && !HasStart(steps)
    decreases |steps|
  {
    if steps != [] {
      StepKeepsLoops(h, steps[0]);
      LoopsAlong(Next(h, steps[0]), steps[1..]);
      assert steps == [steps[0]] + steps[1..];
    }
  }

  /** In every run the server is started exactly when start was called, bound or not, and stopped
      exactly when a stop or a failing receive has happened; its threads have begun exactly when a start has succeeded, and neither has left its loop unless
      the server is stopped. */
  lemma LoopsExactly(capacity: nat, steps: seq<Step>)
    requires ValidRun(InitialHandoff(capacity), steps)
    ensures var h := Run(InitialHandoff(capacity), steps);
            && (h.started <==> exists i :: 0 <= i < |steps| && (steps[i].Start? || steps[i].StartFails?))
            && (h.stopped <==> exists i :: 0 <= i < |steps| && (steps[i].Stop? || steps[i].ReceiveFails?))
            && (h.acceptor.Unstarted? <==> Start !in steps) && (h.processor.Unstarted? <==> Start !in steps)
            && (h.acceptor.Exited? ==> h.stopped) && (h.processor.Exited? ==> h.stopped)
  {
    StartsAlong(InitialHandoff(capacity), steps);
    StopsAlong(InitialHandoff(capacity), steps);
    LoopsAlong(InitialHandoff(capacity), steps);
  }

  function Packets(received: seq<Entry>): seq<Packet> {
    if received == [] then [] else [received[0].packet] + Packets(received[1..])
  }

  /** The datagrams that arrive in a run. */
  function Arrivals(steps: seq<Step>): seq<Packet> {
    if steps == [] then []
    else (if steps[0].Receive? then [steps[0].packet] else []) + Arrivals(steps[1..])
  }

  lemma {:induction false} PacketsSnoc(received: seq<Entry>, e: Entry)
    ensures Packets(received + [e]) == Packets(received) + [e.packet]
  {
    if received == [] {
      assert received + [e] == [e] && [e][1..] == [];
      assert Packets([e][1..]) == [];
    } else {
      PacketsSnoc(received[1..], e);
      assert (received + [e])[1..] == received[1..] + [e];
    }
  }

  lemma SettleKeepsPackets(received: seq<Entry>, fate: Fate)
    ensures Packets(Settle(received, fate)) == Packets(received)
  {
    if received != [] {
      var init, last := received[..|received| - 1], received[|received| - 1];
      assert received == init + [last];
      PacketsSnoc(init, last);
      PacketsSnoc(init, last.(fate := fate));
    }
  }

  lemma StepReceives(h: Handoff, step: Step)
    requires Enabled(h, step)
    ensures Packets(Next(h, step).received) == Packets(h.received) + (if step.Receive? then [step.packet] else [])
  {
    match step
    case Receive(p) => PacketsSnoc(h.received, Entry(p, InHand));
    case Offer => SettleKeepsPackets(h.received, if |h.queue| < h.capacity then Kept else Dropped);
    case _ =>
  }

  /** What a run has received is what arrived in it, in order. */
  lemma {:induction false} ReceivedArrived(h: Handoff, steps: seq<Step>)
    requires ValidRun(h, steps)
    ensures Packets(Run(h, steps).received) == Packets(h.received) + Arrivals(steps)
    decreases |steps|
  {
    if steps != [] {
      StepReceives(h, steps[0]);
      ReceivedArrived(Next(h, steps[0]), steps[1..]);
    }
  }

  /** Over every interleaving: processed, in flight and queued datagrams are, in order, the
      received ones that were not dropped; nothing is lost or counted twice; the queue never
      exceeds its capacity. */
  lemma NothingIsLost(capacity: nat, steps: seq<Step>)
    requires ValidRun(InitialHandoff(capacity), steps)
    ensures var h := Run(InitialHandoff(capacity), steps);
            && h.processed + InFlight(h) + h.queue == With(h.received, Kept)
            && |h.received| == |h.processed| + |InFlight(h)| + |h.queue| + |With(h.received, Dropped)| + |InAcceptor(h)|
            && |h.queue| <= capacity
  {
    RunKeeps(InitialHandoff(capacity), steps);
    Counts(Run(InitialHandoff(capacity), steps).received);
  }

  /** After the stop, in every run, at most one more datagram is enqueued and at most one more
      is taken. */
  lemma StopsSoon(capacity: nat, steps: seq<Step>)
    requires ValidRun(InitialHandoff(capacity), steps)
    ensures var h := Run(InitialHandoff(capacity), steps); h.enqueuedAfterStop <= 1 && h.takenAfterStop <= 1
  {
    RunKeeps(InitialHandoff(capacity), steps);
  }
}
