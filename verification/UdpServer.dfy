/** The UDP server with its one reused receive buffer. Every step of the two threads is a
    method, proved to take the step of UdpHandoff on the bytes the datagrams carry: so what the
    processor is handed is what was received for it, however often the buffer has been
    overwritten since. */
module UdpServer {
  import opened JavaText
  import opened UdpHandoff
  import opened Utf8

  const MAX_DATAGRAM_SIZE: nat := 65527

  /** A received datagram with a copy of its bytes. */
  class Datagram {
    const sourceAddress: Option<int>
    const data: array<Byte>

    constructor (sourceAddress: Option<int>, sourceBuffer: array<Byte>, offset: nat, length: nat)
      requires offset + length <= sourceBuffer.Length
      ensures this.sourceAddress == sourceAddress
      ensures fresh(data) && data[..] == sourceBuffer[offset..offset + length]
    {
      this.sourceAddress := sourceAddress;
      data := new Byte[length];
      new;
      for i := 0 to length
        invariant data[..i] == sourceBuffer[offset..offset + i]
      {
        data[i] := sourceBuffer[offset + i];
      }
      assert data[..] == data[..length];
    }

    function Value(): Packet
      reads data
    {
      Packet(sourceAddress, data[..])
    }
  }

  ghost function Values(datagrams: seq<Datagram>): seq<Packet>
    reads set d | d in datagrams :: d.data
  {
    if datagrams == [] then [] else [datagrams[0].Value()] + Values(datagrams[1..])
  }

  lemma {:induction false} ValuesSnoc(datagrams: seq<Datagram>, d: Datagram)
    ensures Values(datagrams + [d]) == Values(datagrams) + [d.Value()]
  {
    if datagrams == [] {
      assert datagrams + [d] == [d] && [d][1..] == [];
      assert Values([d][1..]) == [];
    } else {
      ValuesSnoc(datagrams[1..], d);
      assert (datagrams + [d])[0] == datagrams[0] && (datagrams + [d])[1..] == datagrams[1..] + [d];
    }
  }

  lemma {:induction false} ValuesCount(datagrams: seq<Datagram>)
    ensures |Values(datagrams)| == |datagrams|
  {
    if datagrams != [] { ValuesCount(datagrams[1..]); }
  }

  /** Where a thread is in its loop, with its local variable `datagram`. */
  datatype Thread = UNSTARTED | TESTING | WAITING | HAS(datagram: Datagram) | EXITED

  /** What has happened so far. */
  datatype Past = Past(received: seq<Entry>, processed: seq<Packet>, enqueuedAfterStop: nat, takenAfterStop: nat)

  class UDPServer {
    const queueCapacity: nat
    var queue: seq<Datagram>
    var started: bool
    var stopped: bool
    /** The channel has been opened; before that it is null. */
    var bound: bool
    const bufferArray: array<Byte>
    var position: nat
    var limit: nat
    var acceptor: Thread
    var processor: Thread
    ghost var past: Past
    /** The arrays of the datagrams in use. */
    ghost var copies: set<array<Byte>>

    ghost predicate Valid()
      reads this
    {
      && bufferArray.Length == MAX_DATAGRAM_SIZE && position <= limit <= MAX_DATAGRAM_SIZE
      && bufferArray !in copies
      && (bound || acceptor.UNSTARTED?)
      && (forall d :: d in queue ==> d.data in copies)
      && (acceptor.HAS? ==> acceptor.datagram.data in copies)
      && (processor.HAS? ==> processor.datagram.data in copies)
    }

    ghost function AcceptorView(): Acceptor
      reads `acceptor, if acceptor.HAS? then {acceptor.datagram.data} else {}
    {
      match acceptor
      case UNSTARTED => Acceptor.Unstarted
      case TESTING => Acceptor.Testing
      case WAITING => Receiving
      case HAS(d) => Holding(d.Value())
      case EXITED => Acceptor.Exited
    }

    ghost function ProcessorView(): Processor
      reads `processor, if processor.HAS? then {processor.datagram.data} else {}
    {
      match processor
      case UNSTARTED => Processor.Unstarted
      case TESTING => Processor.Testing
      case WAITING => Taking
      case HAS(d) => Processing(d.Value())
      case EXITED => Processor.Exited
    }

    ghost function QueueView(): seq<Packet>
      reads `queue, set d | d in queue :: d.data
    {
      Values(queue)
    }

    /** The state of UdpHandoff that this server is in. */
    ghost function View(): Handoff
      requires Valid()
      reads this, copies
    {
      Handoff(queueCapacity, started, stopped, AcceptorView(), ProcessorView(), QueueView(),
              past.received, past.processed, past.enqueuedAfterStop, past.takenAfterStop)
    }

    constructor (queueCapacity: nat)
      requires queueCapacity >= 1
      ensures Valid() && View() == InitialHandoff(queueCapacity)
      ensures fresh(bufferArray) && copies == {}
    {
      this.queueCapacity := queueCapacity;
      queue, started, stopped, bound := [], false, false, false;
      bufferArray := new Byte[MAX_DATAGRAM_SIZE];
      position, limit := 0, MAX_DATAGRAM_SIZE;
      acceptor, processor := UNSTARTED, UNSTARTED;
      past, copies := Past([], [], 0, 0), {};
    }

    /** A second start is refused by an exception, and so is one whose channel cannot be bound;
        the latter leaves the server started, without threads. */
    method StartServer(binds: bool) returns (thrown: bool)
      requires Valid()
      modifies `started, `bound, `acceptor, `processor
      ensures Valid()
      ensures thrown <==> old(started) || !binds
      ensures started
      ensures bound == (old(bound) || !thrown)
      ensures View() == if old(started) then old(View()) else Next(old(View()), if binds then Start else StartFails)
    {
      if started {
        return true;
      }
      started := true;
      if !binds {
        return true;
      }
      bound := true;
      acceptor, processor := TESTING, TESTING;
      thrown := false;
    }

    /** Stopping closes the channel, which is null and raises an exception when it was never
        opened; by then the server counts as stopped. */
    method StopServer() returns (thrown: bool)
      requires Valid()
      modifies `stopped
      ensures Valid() && View() == Next(old(View()), Stop)
      ensures thrown <==> !old(stopped) && !bound
    {
      if stopped {
        return false;
      }
      stopped := true;
      thrown := !bound;
    }

    // ---- The acceptor's loop

    method TestInAcceptor()
      requires Valid() && acceptor.TESTING?
      modifies `acceptor
      ensures Valid() && View() == Next(old(View()), AcceptorTest)
    {
      acceptor := if stopped then EXITED else WAITING;
    }

    /** The bytes of a datagram that the buffer has room for. */
    static function Received(payload: seq<Byte>): seq<Byte> {
      if |payload| <= MAX_DATAGRAM_SIZE then payload else payload[..MAX_DATAGRAM_SIZE]
    }

    /** channel.receive writes into the cleared buffer and moves its position. */
    method FillBuffer(payload: seq<Byte>)
      requires bufferArray.Length == MAX_DATAGRAM_SIZE
      modifies `position, `limit, bufferArray
      ensures limit == MAX_DATAGRAM_SIZE && position == |Received(payload)|
      ensures bufferArray[..position] == Received(payload)
    {
      position, limit := 0, MAX_DATAGRAM_SIZE;
      var bytes := Received(payload);
      while position < |bytes|
        invariant position <= |bytes| && limit == MAX_DATAGRAM_SIZE
        invariant bufferArray[..position] == bytes[..position]
      {
        bufferArray[position] := bytes[position];
        position := position + 1;
      }
    }

    /** Receiving and copying out, as the loop body does it. */
    method ReceiveInto(sourceAddress: Option<int>, payload: seq<Byte>) returns (datagram: Datagram)
      requires bufferArray.Length == MAX_DATAGRAM_SIZE
      modifies `position, `limit, bufferArray
      ensures position <= limit <= MAX_DATAGRAM_SIZE
      ensures fresh(datagram) && fresh(datagram.data)
      ensures datagram.Value() == Packet(sourceAddress, Received(payload))
    {
      FillBuffer(payload);
      limit, position := position, 0;
      datagram := new Datagram(sourceAddress, bufferArray, position, limit);
    }

    /** A datagram arrives: it overwrites the buffer and is copied out of it. */
    method ReceiveDatagram(sourceAddress: Option<int>, payload: seq<Byte>)
      requires Valid() && acceptor.WAITING?
      modifies `position, `limit, `acceptor, `copies, `past, bufferArray
      ensures Valid() && fresh(copies - old(copies))
      ensures View() == Next(old(View()), Receive(Packet(sourceAddress, Received(payload))))
    {
      ghost var before := View();
      var datagram := ReceiveInto(sourceAddress, payload);
      assert QueueView() == before.queue && ProcessorView() == before.processor;
      acceptor := HAS(datagram);
      copies := copies + {datagram.data};
      past := past.(received := past.received + [Entry(datagram.Value(), InHand)]);
      assert QueueView() == before.queue && ProcessorView() == before.processor;
    }

    method ReceiveNull()
      requires Valid() && acceptor.WAITING?
      modifies `acceptor, `position, `limit
      ensures Valid() && View() == Next(old(View()), ReceiveNothing)
    {
      position, limit := 0, MAX_DATAGRAM_SIZE;
      acceptor := TESTING;
    }

    /** An IOException ends the loop and stops the server if it is not stopped yet. */
    method ReceiveThrows()
      requires Valid() && acceptor.WAITING?
      modifies `acceptor, `stopped
      ensures Valid() && View() == Next(old(View()), ReceiveFails)
    {
      if !stopped {
        var thrown := StopServer();
        assert !thrown;
      }
      acceptor := EXITED;
    }

    /** queue.offer: a full queue refuses. */
    method OfferToQueue(datagram: Datagram) returns (enqueued: bool)
      modifies `queue
      ensures enqueued <==> |old(QueueView())| < queueCapacity
      ensures queue == if enqueued then old(queue) + [datagram] else old(queue)
      ensures QueueView() == if enqueued then old(QueueView()) + [datagram.Value()] else old(QueueView())
    {
      ValuesCount(queue);
      ValuesSnoc(queue, datagram);
      enqueued := |queue| < queueCapacity;
      if enqueued {
        queue := queue + [datagram];
      }
    }

    method OfferDatagram() returns (enqueued: bool)
      requires Valid() && acceptor.HAS?
      modifies `queue, `past, `acceptor
      ensures Valid()
      ensures enqueued <==> |old(View()).queue| < queueCapacity
      ensures View() == Next(old(View()), Offer)
    {
      enqueued := OfferToQueue(acceptor.datagram);
      past := past.(received := Settle(past.received, if enqueued then Kept else Dropped),
                    enqueuedAfterStop := past.enqueuedAfterStop + if enqueued && stopped then 1 else 0);
      acceptor := TESTING;
    }

    // ---- The processor's loop

    method TestInProcessor()
      requires Valid() && processor.TESTING?
      modifies `processor
      ensures Valid() && View() == Next(old(View()), ProcessorTest)
    {
      processor := if stopped then EXITED else WAITING;
    }

    method TakeDatagram()
      requires Valid() && processor.WAITING? && queue != []
      modifies `queue, `processor, `past
      ensures Valid() && View() == Next(old(View()), Take)
    {
      processor := HAS(queue[0]);
      queue := queue[1..];
      past := past.(takenAfterStop := past.takenAfterStop + if stopped then 1 else 0);
    }

    /** The processor has returned or thrown; `handed` is what it was given. */
    method FinishDatagram() returns (handed: seq<Byte>)
      requires Valid() && processor.HAS?
      modifies `processor, `past
      ensures Valid() && View() == Next(old(View()), Finish)
      ensures handed == old(View()).processor.packet.bytes
    {
      handed := processor.datagram.data[..];
      past := past.(processed := past.processed + [processor.datagram.Value()]);
      processor := TESTING;
    }

    // ---- Any thread does the next step

    /** Does what is asked for if it can be done now. */
    method Perform(action: Action) returns (handed: seq<seq<Byte>>)
      requires Valid()
      modifies this, bufferArray
      ensures Valid() && fresh(copies - old(copies))
      ensures View() == if Enabled(old(View()), StepOf(action)) then Next(old(View()), StepOf(action)) else old(View())
      ensures Contents(past.processed) == Contents(old(past.processed)) + handed
      ensures stopped <==> old(stopped) || action.Stopping? || (action.ReceiveThrowing? && old(acceptor).WAITING?)
    {
      handed := [];
      if InAcceptorThread(action) {
        PerformInAcceptor(action);
      } else if action.Finishing? {
        handed := FinishIfAny();
      } else {
        PerformElsewhere(action);
      }
    }

    method PerformElsewhere(action: Action)
      requires Valid() && !InAcceptorThread(action) && !action.Finishing?
      modifies `started, `stopped, `bound, `queue, `acceptor, `processor, `past
      ensures Valid() && past.processed == old(past.processed)
      ensures View() == if Enabled(old(View()), StepOf(action)) then Next(old(View()), StepOf(action)) else old(View())
    {
      match action
      case Starting(binds) => if !started { var thrown := StartServer(binds); }
      case Stopping => var thrown := StopServer();
      case ProcessorTesting => if processor.TESTING? { TestInProcessor(); }
      case TakingNext => TakeIfAny();
    }

    method PerformInAcceptor(action: Action)
      requires Valid() && InAcceptorThread(action)
      modifies this, bufferArray
      ensures Valid() && fresh(copies - old(copies)) && past.processed == old(past.processed)
      ensures View() == if Enabled(old(View()), StepOf(action)) then Next(old(View()), StepOf(action)) else old(View())
    {
      match action
      case AcceptorTesting => if acceptor.TESTING? { TestInAcceptor(); }
      case Arriving(sourceAddress, payload) => if acceptor.WAITING? { ReceiveDatagram(sourceAddress, payload); }
      case NothingArriving => if acceptor.WAITING? { ReceiveNull(); }
      case ReceiveThrowing => if acceptor.WAITING? { ReceiveThrows(); }
      case Offering => if acceptor.HAS? { var enqueued := OfferDatagram(); }
    }

    method TakeIfAny()
      requires Valid()
      modifies `queue, `processor, `past
      ensures Valid()
      ensures View() == if Enabled(old(View()), Take) then Next(old(View()), Take) else old(View())
    {
      ValuesCount(queue);
      if processor.WAITING? && queue != [] {
        TakeDatagram();
      }
    }

    method FinishIfAny() returns (handed: seq<seq<Byte>>)
      requires Valid()
      modifies `processor, `past
      ensures Valid()
      ensures View() == if Enabled(old(View()), Finish) then Next(old(View()), Finish) else old(View())
      ensures Contents(past.processed) == Contents(old(past.processed)) + handed
    {
      handed := [];
      if processor.HAS? {
        ContentsSnoc(past.processed, processor.datagram.Value());
        var bytes := FinishDatagram();
        handed := [bytes];
      }
    }
  }

  /** What a thread does next, or what happens to it. */
  datatype Action =
    | Starting(binds: bool)
    | Stopping
    | AcceptorTesting
    | Arriving(sourceAddress: Option<int>, payload: seq<Byte>)
    | NothingArriving
    | ReceiveThrowing
    | Offering
    | ProcessorTesting
    | TakingNext
    | Finishing

  predicate InAcceptorThread(action: Action) {
    || action.AcceptorTesting? || action.Arriving? || action.NothingArriving? || action.ReceiveThrowing?
    || action.Offering?
  }

  function StepOf(action: Action): Step {
    match action
    case Starting(binds) => if binds then Start else StartFails
    case Stopping => Stop
    case AcceptorTesting => AcceptorTest
    case Arriving(sourceAddress, payload) => Receive(Packet(sourceAddress, UDPServer.Received(payload)))
    case NothingArriving => ReceiveNothing
    case ReceiveThrowing => ReceiveFails
    case Offering => Offer
    case ProcessorTesting => ProcessorTest
    case TakingNext => Take
    case Finishing => Finish
  }

  /** The steps among the actions that could be done when their turn came. */
  function Done(h: Handoff, actions: seq<Action>): (steps: seq<Step>)
    ensures ValidRun(h, steps)
    decreases |actions|
  {
    if actions == [] then []
    else if Enabled(h, StepOf(actions[0])) then
      var rest := Done(Next(h, StepOf(actions[0])), actions[1..]);
      assert ([StepOf(actions[0])] + rest)[1..] == rest;
      [StepOf(actions[0])] + rest
    else Done(h, actions[1..])
  }

  function Contents(packets: seq<Packet>): seq<seq<Byte>> {
    if packets == [] then [] else [packets[0].bytes] + Contents(packets[1..])
  }

  lemma {:induction false} ContentsSnoc(packets: seq<Packet>, p: Packet)
    ensures Contents(packets + [p]) == Contents(packets) + [p.bytes]
  {
    if packets == [] {
      assert packets + [p] == [p] && [p][1..] == [];
      assert Contents([p][1..]) == [];
    } else {
      ContentsSnoc(packets[1..], p);
      assert (packets + [p])[1..] == packets[1..] + [p];
    }
  }

  /** Every run of the server: whatever the threads do and whatever arrives, in any order, the
      processor is handed, in order, exactly the bytes of datagrams that arrived and were not
      dropped. */
  method Serve(queueCapacity: nat, actions: seq<Action>) returns (server: UDPServer, handed: seq<seq<Byte>>)
    requires queueCapacity >= 1
    ensures server.Valid() && server.View() == Run(InitialHandoff(queueCapacity), Done(InitialHandoff(queueCapacity), actions))
    ensures handed == Contents(server.past.processed)
    ensures server.past.processed <= With(server.past.received, Kept)
    ensures Packets(server.past.received) == Arrivals(Done(InitialHandoff(queueCapacity), actions))
  {
    ghost var first, taken := InitialHandoff(queueCapacity), [];
    server := new UDPServer(queueCapacity);
    handed := [];
    for i := 0 to |actions|
      invariant fresh(server) && fresh(server.bufferArray) && fresh(server.copies) && server.Valid()
      invariant ValidRun(first, taken) && server.View() == Run(first, taken)
      invariant Done(first, actions) == taken + Done(server.View(), actions[i..])
      invariant handed == Contents(server.past.processed)
    {
      ghost var before, step := server.View(), StepOf(actions[i]);
      assert actions[i..][1..] == actions[i + 1..];
      var bytes := server.Perform(actions[i]);
      handed := handed + bytes;
      if Enabled(before, step) {
        RunSnoc(first, taken, step);
        Associative(taken, [step], Done(server.View(), actions[i + 1..]));
        taken := taken + [step];
      }
    }
    assert Done(first, actions) == taken;
    NothingIsLost(queueCapacity, taken);
    ReceivedArrived(first, taken);
    PrefixOfSum(server.View().processed, InFlight(server.View()), server.View().queue);
  }

  // ---- A server that is not stopped makes progress

  /** Where a run leads that skips what cannot be done. */
  function After(h: Handoff, actions: seq<Action>): Handoff
    decreases |actions|
  {
    if actions == [] then h
    else After(if Enabled(h, StepOf(actions[0])) then Next(h, StepOf(actions[0])) else h, actions[1..])
  }

  lemma {:induction false} AfterIsRun(h: Handoff, actions: seq<Action>)
    ensures After(h, actions) == Run(h, Done(h, actions))
    decreases |actions|
  {
    if actions != [] {
      if Enabled(h, StepOf(actions[0])) {
        var next := Next(h, StepOf(actions[0]));
        AfterIsRun(next, actions[1..]);
        assert ([StepOf(actions[0])] + Done(next, actions[1..]))[1..] == Done(next, actions[1..]);
      } else {
        AfterIsRun(h, actions[1..]);
      }
    }
  }

  lemma AfterCons(h: Handoff, action: Action, rest: seq<Action>)
    requires Enabled(h, StepOf(action))
    ensures After(h, [action] + rest) == After(Next(h, StepOf(action)), rest)
  {
    assert ([action] + rest)[1..] == rest;
  }

  /** One turn of both loops for each datagram that arrives. */
  function Turns(arriving: seq<Packet>): seq<Action> {
    if arriving == [] then []
    else
      [AcceptorTesting] + ([Arriving(arriving[0].source, arriving[0].bytes)] + ([Offering]
      + ([ProcessorTesting] + ([TakingNext] + ([Finishing] + Turns(arriving[1..]))))))
  }

  /** Both threads are about to test whether the server is stopped, and nothing is queued. */
  predicate Ready(h: Handoff) {
    h.started && !h.stopped && h.capacity >= 1 && h.acceptor.Testing? && h.processor.Testing? && h.queue == []
  }

  lemma AcceptorTurn(h: Handoff, p: Packet, rest: seq<Action>) returns (next: Handoff)
    requires Ready(h)
    ensures After(h, [AcceptorTesting] + ([Arriving(p.source, p.bytes)] + ([Offering] + rest))) == After(next, rest)
    ensures next.started && !next.stopped && next.capacity == h.capacity && next.acceptor.Testing? && next.processor.Testing?
    ensures next.queue == [Packet(p.source, UDPServer.Received(p.bytes))] && next.processed == h.processed
  {
    AfterCons(h, AcceptorTesting, [Arriving(p.source, p.bytes)] + ([Offering] + rest));
    next := Next(h, AcceptorTest);
    AfterCons(next, Arriving(p.source, p.bytes), [Offering] + rest);
    next := Next(next, Receive(Packet(p.source, UDPServer.Received(p.bytes))));
    AfterCons(next, Offering, rest);
    next := Next(next, Offer);
  }

  lemma ProcessorTurn(h: Handoff, p: Packet, rest: seq<Action>) returns (next: Handoff)
    requires h.started && !h.stopped && h.capacity >= 1 && h.acceptor.Testing? && h.processor.Testing? && h.queue == [p]
    ensures After(h, [ProcessorTesting] + ([TakingNext] + ([Finishing] + rest))) == After(next, rest)
    ensures Ready(next) && next.processed == h.processed + [p]
  {
    AfterCons(h, ProcessorTesting, [TakingNext] + ([Finishing] + rest));
    next := Next(h, ProcessorTest);
    AfterCons(next, TakingNext, [Finishing] + rest);
    next := Next(next, Take);
    AfterCons(next, Finishing, rest);
    next := Next(next, Finish);
  }

  /** What the buffer has room for of each datagram. */
  function Fitting(arriving: seq<Packet>): seq<Packet> {
    if arriving == [] then []
    else [Packet(arriving[0].source, UDPServer.Received(arriving[0].bytes))] + Fitting(arriving[1..])
  }

  lemma {:induction false} TurnsProcessAll(h: Handoff, arriving: seq<Packet>)
    requires Ready(h)
    ensures After(h, Turns(arriving)).processed == h.processed + Fitting(arriving)
    decreases |arriving|
  {
    if arriving != [] {
      var rest := Turns(arriving[1..]);
      var p := Packet(arriving[0].source, UDPServer.Received(arriving[0].bytes));
      var offered := AcceptorTurn(h, arriving[0], [ProcessorTesting] + ([TakingNext] + ([Finishing] + rest)));
      var finished := ProcessorTurn(offered, p, rest);
      TurnsProcessAll(finished, arriving[1..]);
      Associative(h.processed, [p], Fitting(arriving[1..]));
    }
  }

  lemma {:induction false} ContentsOfFitting(arriving: seq<Packet>)
    ensures |Contents(Fitting(arriving))| == |arriving|
    ensures forall i :: 0 <= i < |arriving| ==> Contents(Fitting(arriving))[i] == UDPServer.Received(arriving[i].bytes)
  {
    if arriving != [] {
      ContentsOfFitting(arriving[1..]);
      assert Fitting(arriving)[1..] == Fitting(arriving[1..]);
    }
  }

  /** Progress: a started server that goes through its loops hands over every datagram, in order,
      with all the bytes that the buffer has room for. */
  method HandOver(queueCapacity: nat, arriving: seq<Packet>) returns (handed: seq<seq<Byte>>)
    requires queueCapacity >= 1
    ensures |handed| == |arriving|
    ensures forall i :: 0 <= i < |arriving| ==>
              handed[i] == if |arriving[i].bytes| <= 65527 then arriving[i].bytes else arriving[i].bytes[..65527]
  {
    var server: UDPServer;
    server, handed := Serve(queueCapacity, [Starting(true)] + Turns(arriving));
    ghost var first := InitialHandoff(queueCapacity);
    AfterIsRun(first, [Starting(true)] + Turns(arriving));
    AfterCons(first, Starting(true), Turns(arriving));
    TurnsProcessAll(Next(first, Start), arriving);
    ContentsOfFitting(arriving);
    assert [] + Fitting(arriving) == Fitting(arriving);
  }

  lemma PrefixOfSum(a: seq<Packet>, b: seq<Packet>, c: seq<Packet>)
    ensures a <= a + b + c
  {
  }
}
