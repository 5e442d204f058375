/** What a session receives over a whole run from the start of the service, told from the events
    alone: who asked for what, when that ended, and which logs arrived in between. */
module SessionTraces {
  import opened JavaText
  import opened LogModel
  import opened SessionProtocol

  /** The service before event n. */
  function StateAt(capacity: nat, events: seq<Event>, n: nat): Service
    requires n <= |events|
  {
    Run(InitialService(capacity), events[..n])
  }

  lemma {:induction false} RunSnoc(st: Service, events: seq<Event>, ev: Event)
    ensures Run(st, events + [ev]) == Apply(Run(st, events), ev)
    decreases events
  {
    if events == [] {
      assert [] + [ev] == [ev] && [ev][1..] == [];
      assert Run(Apply(st, ev), [ev][1..]) == Apply(st, ev);
    } else {
      RunSnoc(Apply(st, events[0]), events[1..], ev);
      assert (events + [ev])[0] == events[0] && (events + [ev])[1..] == events[1..] + [ev];
    }
  }

  lemma StateAfter(capacity: nat, events: seq<Event>, n: nat)
    requires n < |events|
    ensures StateAt(capacity, events, n + 1) == Apply(StateAt(capacity, events, n), events[n])
    ensures Tracked(StateAt(capacity, events, n))
  {
    assert events[..n + 1] == events[..n] + [events[n]];
    RunSnoc(InitialService(capacity), events[..n], events[n]);
    RunKeepsTracked(InitialService(capacity), events[..n]);
  }

  // ---- The stored history

  function LoggedBy(ev: Event): seq<LogData> {
    if ev.Received? && ev.log.host.Some? && ev.log.program.Some? then [ev.log] else []
  }

  /** The received logs that have a host and a program. */
  function Logged(events: seq<Event>): seq<LogData> {
    if events == [] then [] else LoggedBy(events[0]) + Logged(events[1..])
  }

  lemma StepLogs(st: Service, ev: Event)
    ensures Apply(st, ev).history == st.history + LoggedBy(ev) && Apply(st, ev).capacity == st.capacity
  {
    if ev.Asked? { RequestChangesSubscriptionIffAccepted(st, ev); }
  }

  /** The store's history is what was received. */
  lemma {:induction false} HistoryIsLogged(st: Service, events: seq<Event>)
    ensures Run(st, events).history == st.history + Logged(events) && Run(st, events).capacity == st.capacity
    decreases events
  {
    if events != [] {
      StepLogs(st, events[0]);
      HistoryIsLogged(Apply(st, events[0]), events[1..]);
      Associative(st.history, LoggedBy(events[0]), Logged(events[1..]));
    }
  }

  // ---- Subscriptions

  /** Event j is an accepted request of the session, and nothing before event n has ended its
      subscription. */
  ghost predicate SubscribedBy(capacity: nat, events: seq<Event>, s: Session, j: nat, n: nat)
    requires n <= |events|
  {
    && j < n && events[j].Asked? && events[j].s == s && Accepted(StateAt(capacity, events, j), events[j])
    && forall m :: j < m < n ==> !Ends(events[m], s, events[j].request.hosts.value, events[j].request.programs.value)
  }

  /** ... and it asks for these hosts and programs. */
  ghost predicate SubscribedFor(capacity: nat, events: seq<Event>, s: Session, j: nat, n: nat, hosts: seq<Text>, programs: seq<Text>)
    requires n <= |events|
  {
    && SubscribedBy(capacity, events, s, j, n)
    && events[j].request.hosts == Some(hosts) && events[j].request.programs == Some(programs)
  }

  /** A subscription in force has just been accepted, or was in force before and has not been
      ended. */
  lemma SubscriptionOrigin(st: Service, ev: Event, s: Session, hosts: seq<Text>, programs: seq<Text>)
    requires Tracked(st) && SubscribedTo(Apply(st, ev), s, hosts, programs)
    ensures || (ev.Asked? && ev.s == s && Accepted(st, ev) && ev.request.hosts == Some(hosts) && ev.request.programs == Some(programs))
            || (SubscribedTo(st, s, hosts, programs) && !Ends(ev, s, hosts, programs))
  {
    match ev
    case Opened(_) =>
    case Removed(_) =>
    case Asked(_, _, _, _, _) => RequestChangesSubscriptionIffAccepted(st, ev);
    case Received(l, failing) => LogDelivers(st, l, failing, s);
  }

  lemma SubscriptionWasAccepted(capacity: nat, events: seq<Event>, n: nat, s: Session, hosts: seq<Text>, programs: seq<Text>)
    returns (j: nat)
    requires n <= |events| && SubscribedTo(StateAt(capacity, events, n), s, hosts, programs)
    ensures SubscribedFor(capacity, events, s, j, n, hosts, programs)
    decreases n
  {
    if n > 0 {
      var st, ev := StateAt(capacity, events, n - 1), events[n - 1];
      StateAfter(capacity, events, n - 1);
      SubscriptionOrigin(st, ev, s, hosts, programs);
      if SubscribedTo(st, s, hosts, programs) && !Ends(ev, s, hosts, programs) {
        j := SubscriptionWasAccepted(capacity, events, n - 1, s, hosts, programs);
      } else {
        j := n - 1;
      }
    }
  }

  lemma {:induction false} AcceptedIsSubscribed(capacity: nat, events: seq<Event>, n: nat, s: Session, j: nat)
    requires n <= |events| && SubscribedBy(capacity, events, s, j, n)
    ensures SubscribedTo(StateAt(capacity, events, n), s, events[j].request.hosts.value, events[j].request.programs.value)
    decreases n
  {
    var st, ev := StateAt(capacity, events, n - 1), events[n - 1];
    StateAfter(capacity, events, n - 1);
    if j == n - 1 {
      RequestChangesSubscriptionIffAccepted(st, ev);
    } else {
      AcceptedIsSubscribed(capacity, events, n - 1, s, j);
      SubscribedStep(st, ev, s, events[j].request.hosts.value, events[j].request.programs.value);
    }
  }

  /** A session is subscribed to something exactly when one of its requests for that was accepted
      and nothing has ended the subscription since. */
  lemma SubscribedExactly(capacity: nat, events: seq<Event>, n: nat, s: Session, hosts: seq<Text>, programs: seq<Text>)
    requires n <= |events|
    ensures (SubscribedTo(StateAt(capacity, events, n), s, hosts, programs)
             <==> exists j: nat :: SubscribedFor(capacity, events, s, j, n, hosts, programs))
  {
    if SubscribedTo(StateAt(capacity, events, n), s, hosts, programs) {
      var j := SubscriptionWasAccepted(capacity, events, n, s, hosts, programs);
    }
    if j: nat :| SubscribedFor(capacity, events, s, j, n, hosts, programs) {
      AcceptedIsSubscribed(capacity, events, n, s, j);
    }
  }

  // ---- Registrations

  /** How a session stands, told from the events alone. */
  datatype Status = Unknown | Registered | Subscribed(hosts: seq<Text>, programs: seq<Text>)

  /** The event is a request of the session that a registered session is answered: it reads as one,
      its state is INITIAL or the session is not subscribed yet, it names hosts and programs, and
      the snapshot can be sorted and sent. */
  predicate Subscribes(ev: Event, s: Session, status: Status) {
    && ev.Asked? && ev.s == s && ev.request.Request? && ev.answered && Sortable(ev.found)
    && (ev.request.state == Some(INITIAL) || (ev.request.state == Some(ONLINE_BROADCASTING) && status.Registered?))
    && ev.request.hosts.Some? && ev.request.hosts.value != []
    && ev.request.programs.Some? && ev.request.programs.value != []
  }

  /** The event takes the session's registration away: it is removed, or a log that it is
      subscribed to cannot be sent to it. */
  predicate Loses(ev: Event, s: Session, status: Status) {
    || ev == Removed(s)
    || (ev.Received? && s in ev.failing && status.Subscribed? && Matches(ev.log, status.hosts, status.programs))
  }

  function StatusAt(events: seq<Event>, n: nat, s: Session): Status
    requires n <= |events|
  {
    if n == 0 then Unknown
    else
      var ev, status := events[n - 1], StatusAt(events, n - 1, s);
      if ev == Opened(s) then Registered
      else if status.Unknown? || Loses(ev, s, status) then Unknown
      else if Subscribes(ev, s, status) then Subscribed(ev.request.hosts.value, ev.request.programs.value)
      else status
  }

  /** The subscription that goes with a status. */
  predicate StandsAs(st: Service, s: Session, status: Status) {
    match status
    case Unknown => s !in st.subscriptions
    case Registered => s in st.subscriptions && st.subscriptions[s] == Subscription([], [], INITIAL)
    case Subscribed(hosts, programs) => s in st.subscriptions && st.subscriptions[s] == Subscription(hosts, programs, ONLINE_BROADCASTING)
  }

  lemma SubscribesIffAccepted(st: Service, ev: Event, s: Session, status: Status)
    requires StandsAs(st, s, status) && !status.Unknown?
    ensures Subscribes(ev, s, status) <==> ev.Asked? && ev.s == s && Accepted(st, ev)
  {
    if ev.Asked? && ev.request.Request? && ev.request.state.Some? {
      var state := ev.request.state.value;
      assert state.INITIAL? || state.ONLINE_BROADCASTING?;
      assert ev.request.state == Some(state);
    }
  }

  lemma StatusStep(st: Service, ev: Event, s: Session, status: Status, next: Status)
    requires Tracked(st) && StandsAs(st, s, status)
    requires (next
              == if ev == Opened(s) then Registered
                 else if status.Unknown? || Loses(ev, s, status) then Unknown
                 else if Subscribes(ev, s, status) then Subscribed(ev.request.hosts.value, ev.request.programs.value)
                 else status)
    ensures StandsAs(Apply(st, ev), s, next)
  {
    match ev
    case Opened(_) =>
    case Removed(_) =>
    case Asked(_, _, _, _, _) =>
      RequestChangesSubscriptionIffAccepted(st, ev);
      if !status.Unknown? { SubscribesIffAccepted(st, ev, s, status); }
    case Received(l, failing) => LogDelivers(st, l, failing, s);
  }

  /** In every run the service holds for each session what the events say. */
  lemma {:induction false} StatusExactly(capacity: nat, events: seq<Event>, n: nat, s: Session)
    requires n <= |events|
    ensures StandsAs(StateAt(capacity, events, n), s, StatusAt(events, n, s))
    decreases n
  {
    if n > 0 {
      StateAfter(capacity, events, n - 1);
      StatusExactly(capacity, events, n - 1, s);
      StatusStep(StateAt(capacity, events, n - 1), events[n - 1], s, StatusAt(events, n - 1, s), StatusAt(events, n, s));
    }
  }

  /** The session was opened by event j and has not lost its registration before event n. */
  predicate OpenedBy(events: seq<Event>, s: Session, j: nat, n: nat)
    requires n <= |events|
  {
    j < n && events[j] == Opened(s) && forall m :: j < m < n ==> !Loses(events[m], s, StatusAt(events, m, s))
  }

  lemma {:induction false} KnownSinceOpened(events: seq<Event>, s: Session, n: nat) returns (j: nat)
    requires n <= |events| && !StatusAt(events, n, s).Unknown?
    ensures OpenedBy(events, s, j, n)
    decreases n
  {
    if events[n - 1] == Opened(s) {
      j := n - 1;
    } else {
      j := KnownSinceOpened(events, s, n - 1);
    }
  }

  lemma {:induction false} OpenedIsKnown(events: seq<Event>, s: Session, j: nat, n: nat)
    requires n <= |events| && OpenedBy(events, s, j, n)
    ensures !StatusAt(events, n, s).Unknown?
    decreases n
  {
    if j < n - 1 {
      OpenedIsKnown(events, s, j, n - 1);
      assert !Loses(events[n - 1], s, StatusAt(events, n - 1, s));
    }
  }

  /** In every run, a session is registered exactly when it was opened and has since then neither
      been removed nor missed a log it is subscribed to. */
  lemma RegisteredExactly(capacity: nat, events: seq<Event>, n: nat, s: Session)
    requires n <= |events|
    ensures s in StateAt(capacity, events, n).subscriptions <==> exists j: nat :: OpenedBy(events, s, j, n)
  {
    StatusExactly(capacity, events, n, s);
    if !StatusAt(events, n, s).Unknown? {
      var j := KnownSinceOpened(events, s, n);
    }
    if j: nat :| OpenedBy(events, s, j, n) {
      OpenedIsKnown(events, s, j, n);
    }
  }

  /** A session so opened that asks, with state INITIAL, for some hosts and programs is accepted
      and subscribed once its snapshot can be sent. */
  lemma OpenedIsAccepted(capacity: nat, events: seq<Event>, n: nat, s: Session, j: nat, hosts: seq<Text>, programs: seq<Text>)
    requires n < |events| && OpenedBy(events, s, j, n)
    requires events[n].Asked? && events[n].s == s && events[n].answered && Sortable(events[n].found)
    requires events[n].request == Request(Some(INITIAL), Some(hosts), Some(programs)) && hosts != [] && programs != []
    ensures Accepted(StateAt(capacity, events, n), events[n])
    ensures SubscribedTo(StateAt(capacity, events, n + 1), s, hosts, programs)
  {
    RegisteredExactly(capacity, events, n, s);
    StateAfter(capacity, events, n);
    RequestChangesSubscriptionIffAccepted(StateAt(capacity, events, n), events[n]);
  }

  // ---- Marks

  /** What the coverage of a session is counted from: the mark is set by its last accepted request,
      at what it had received until then. */
  lemma {:induction false} MarkIsLastAccepted(capacity: nat, events: seq<Event>, n: nat, s: Session, j: nat)
    requires n <= |events| && j < n && events[j].Asked? && events[j].s == s && Accepted(StateAt(capacity, events, j), events[j])
    requires forall m :: j < m < n && events[m].Asked? && events[m].s == s ==> !Accepted(StateAt(capacity, events, m), events[m])
    ensures var st := StateAt(capacity, events, n);
            s in st.marks && st.marks[s] == |DeliveredTo(StateAt(capacity, events, j), s)|
    decreases n
  {
    var st, ev := StateAt(capacity, events, n - 1), events[n - 1];
    StateAfter(capacity, events, n - 1);
    if j < n - 1 {
      MarkIsLastAccepted(capacity, events, n - 1, s, j);
      UnacceptedKeepsMark(st, ev, s);
    } else {
      ReadsIffWellPosed(st, s, ev.request);
    }
  }

  lemma UnacceptedKeepsMark(st: Service, ev: Event, s: Session)
    requires ev.Asked? && ev.s == s ==> !Accepted(st, ev)
    requires s in st.marks
    ensures s in Apply(st, ev).marks && Apply(st, ev).marks[s] == st.marks[s]
  {
    if ev.Asked? { ReadsIffWellPosed(st, ev.s, ev.request); }
  }

  // ---- Live logs

  /** Some accepted request of the session asks for the log and has not been ended. */
  ghost predicate Wanted(capacity: nat, events: seq<Event>, s: Session, n: nat, l: LogData)
    requires n <= |events|
  {
    exists j: nat :: SubscribedBy(capacity, events, s, j, n) && Matches(l, events[j].request.hosts.value, events[j].request.programs.value)
  }

  lemma CandidateIsWanted(capacity: nat, events: seq<Event>, n: nat, s: Session, l: LogData)
    requires n <= |events|
    ensures IsCandidate(StateAt(capacity, events, n), s, l) <==> Wanted(capacity, events, s, n, l)
  {
    var st := StateAt(capacity, events, n);
    if IsCandidate(st, s, l) {
      var sub := st.subscriptions[s];
      var j := SubscriptionWasAccepted(capacity, events, n, s, sub.hosts, sub.programs);
    }
    if Wanted(capacity, events, s, n, l) {
      var j: nat :| SubscribedBy(capacity, events, s, j, n) && Matches(l, events[j].request.hosts.value, events[j].request.programs.value);
      AcceptedIsSubscribed(capacity, events, n, s, j);
    }
  }

  /** In every run, a received log is delivered to a session exactly when an earlier accepted
      request of the session asks for it, nothing has ended that subscription in between, and the
      send works. */
  lemma LogDeliveredExactly(capacity: nat, events: seq<Event>, i: nat, s: Session)
    requires i < |events| && events[i].Received?
    ensures (DeliveredTo(StateAt(capacity, events, i + 1), s)
             == DeliveredTo(StateAt(capacity, events, i), s)
                + (if Wanted(capacity, events, s, i, events[i].log) && s !in events[i].failing then [Response(true, [events[i].log], None)] else []))
  {
    StateAfter(capacity, events, i);
    LogDelivers(StateAt(capacity, events, i), events[i].log, events[i].failing, s);
    CandidateIsWanted(capacity, events, i, s, events[i].log);
  }

  // ---- The whole trace

  /** What event i gives to the session, error replies aside. */
  ghost function Given(capacity: nat, events: seq<Event>, i: nat, s: Session): seq<Response>
    requires i < |events|
  {
    match events[i]
    case Asked(s', _, found, _, _) =>
      if s' == s && SnapshotSent(StateAt(capacity, events, i), events[i]) then [Response(true, found, None)] else []
    case Received(l, failing) =>
      if Wanted(capacity, events, s, i, l) && s !in failing then [Response(true, [l], None)] else []
    case _ => []
  }

  ghost function GivenBefore(capacity: nat, events: seq<Event>, n: nat, s: Session): seq<Response>
    requires n <= |events|
  {
    if n == 0 then [] else GivenBefore(capacity, events, n - 1, s) + Given(capacity, events, n - 1, s)
  }

  lemma EventGives(capacity: nat, events: seq<Event>, i: nat, s: Session)
    requires i < |events|
    ensures (Successes(DeliveredTo(StateAt(capacity, events, i + 1), s))
             == Successes(DeliveredTo(StateAt(capacity, events, i), s)) + Given(capacity, events, i, s))
  {
    var st, ev := StateAt(capacity, events, i), events[i];
    StateAfter(capacity, events, i);
    match ev
    case Opened(_) =>
    case Removed(_) =>
    case Asked(s', _, _, _, _) =>
      if s' == s { RequestDelivers(st, ev); } else { RequestChangesSubscriptionIffAccepted(st, ev); }
    case Received(l, failing) =>
      LogDeliveredExactly(capacity, events, i, s);
      SuccessesSnoc(DeliveredTo(st, s), Response(true, [l], None));
  }

  /** In every run, what a session has received, error replies aside, is what the events gave it,
      one after the other: the snapshots of its answered requests and the logs it wanted. */
  lemma {:induction false} WholeTrace(capacity: nat, events: seq<Event>, n: nat, s: Session)
    requires n <= |events|
    ensures Successes(DeliveredTo(StateAt(capacity, events, n), s)) == GivenBefore(capacity, events, n, s)
    decreases n
  {
    if n > 0 {
      WholeTrace(capacity, events, n - 1, s);
      EventGives(capacity, events, n - 1, s);
    }
  }
}
