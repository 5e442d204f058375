/** The live log protocol with atomic handlers, as a state machine over plain histories:
    what each step does to the stored history, the subscriptions and what clients receive. */
module SessionProtocol {
  import opened JavaText
  import opened LogModel

  /** A web socket session, by identity. */
  datatype Session = Session(id: nat)

  datatype State = INITIAL | ONLINE_BROADCASTING

  datatype Subscription = Subscription(hosts: seq<Text>, programs: seq<Text>, state: State) {
    predicate IsBroadcastCandidateFor(l: LogData) {
      state.ONLINE_BROADCASTING? && Matches(l, hosts, programs)
    }
  }

  const INITIAL_SUBSCRIPTION := Subscription([], [], INITIAL)

  datatype ErrorMessage = IncorrectRequestParameters | ServerSideError

  datatype Response = Response(success: bool, logs: seq<LogData>, error: Option<ErrorMessage>)

  const INCORRECT_PARAMETERS := Response(false, [], Some(IncorrectRequestParameters))
  const SERVER_ERROR := Response(false, [], Some(ServerSideError))

  /** A text message: unreadable as a request, or a request whose fields may be missing; a
      state name that names no state reads as a missing one. */
  datatype Request = Unreadable | Request(state: Option<State>, hosts: Option<seq<Text>>, programs: Option<seq<Text>>)

  /** The service as its clients can see it. `delivered` is what each session has received
      and `marks` how much of that came before its last accepted request. */
  datatype Service = Service(
    capacity: nat,
    history: seq<LogData>,
    subscriptions: map<Session, Subscription>,
    delivered: map<Session, seq<Response>>,
    marks: map<Session, nat>)

  function InitialService(capacity: nat): Service { Service(capacity, [], map[], map[], map[]) }

  function DeliveredTo(st: Service, s: Session): seq<Response> {
    if s in st.delivered then st.delivered[s] else []
  }

  function Deliver(st: Service, s: Session, r: Response): Service {
    st.(delivered := st.delivered[s := DeliveredTo(st, s) + [r]])
  }

  /** What happens, with the choices made outside the service: the order in which a query
      finds its logs, and which sends fail. */
  datatype Event =
    | Opened(s: Session)
    | Removed(s: Session)
    | Asked(s: Session, request: Request, found: seq<LogData>, answered: bool, errorSent: bool)
    | Received(log: LogData, failing: set<Session>)

  // ---- Requests

  datatype Decision = Fails | Ignores | Refuses | Reads(hosts: seq<Text>, programs: seq<Text>)

  /** How far a request gets before anything is read or sent. */
  function Decide(st: Service, s: Session, request: Request): Decision {
    if request.Unreadable? || request.state.None? then Fails
    else if !request.state.value.INITIAL? && s !in st.subscriptions then Fails
    else if !request.state.value.INITIAL? && !st.subscriptions[s].state.INITIAL? then Ignores
    else if request.hosts.None? then Fails
    else if request.hosts.value == [] then Refuses
    else if request.programs.None? then Fails
    else if request.programs.value == [] then Refuses
    else Reads(request.hosts.value, request.programs.value)
  }

  function ReplyError(st: Service, s: Session, sent: bool): Service {
    if sent then Deliver(st, s, SERVER_ERROR) else st
  }

  function Subscribe(st: Service, s: Session, hosts: seq<Text>, programs: seq<Text>): Service {
    st.(subscriptions := st.subscriptions[s := Subscription(hosts, programs, ONLINE_BROADCASTING)])
  }

  /** handleLogBroadcastingRequest: the snapshot is sent first and the subscription replaced
      afterwards; whatever throws on the way ends in an error reply. */
  function Ask(st: Service, s: Session, request: Request, found: seq<LogData>, answered: bool, errorSent: bool): Service {
    match Decide(st, s, request)
    case Fails => ReplyError(st, s, errorSent)
    case Ignores => st
    case Refuses => if answered then Deliver(st, s, INCORRECT_PARAMETERS) else ReplyError(st, s, errorSent)
    case Reads(hosts, programs) => Answer(st, s, hosts, programs, found, answered, errorSent)
  }

  function Answer(st: Service, s: Session, hosts: seq<Text>, programs: seq<Text>, found: seq<LogData>,
                  answered: bool, errorSent: bool): Service {
    if !Sortable(found) || !answered then ReplyError(st, s, errorSent)
    else
      var shown := Deliver(st, s, Response(true, found, None));
      if s in st.subscriptions
      then Subscribe(shown, s, hosts, programs).(marks := st.marks[s := |DeliveredTo(st, s)|])
      else ReplyError(shown, s, errorSent)
  }

  // ---- Logs

  function Store(st: Service, l: LogData): Service {
    if l.host.None? || l.program.None? then st else st.(history := st.history + [l])
  }

  predicate IsCandidate(st: Service, s: Session, l: LogData) {
    s in st.subscriptions && st.subscriptions[s].IsBroadcastCandidateFor(l)
  }

  /** The broadcast after it has visited some of the sessions: a candidate gets the log or is
      removed. */
  function BroadcastTo(st: Service, l: LogData, failing: set<Session>, visited: set<Session>): Service {
    st.(
      subscriptions := map s | s in st.subscriptions && !(s in visited && IsCandidate(st, s, l) && s in failing) :: st.subscriptions[s],
      delivered := map s | s in st.delivered ::
        if s in visited && IsCandidate(st, s, l) && s !in failing then st.delivered[s] + [Response(true, [l], None)] else st.delivered[s])
  }

  /** broadcastLogDataToSubscribers: every session is visited. */
  function Broadcast(st: Service, l: LogData, failing: set<Session>): Service {
    BroadcastTo(st, l, failing, st.subscriptions.Keys)
  }

  lemma BroadcastToNone(st: Service, l: LogData, failing: set<Session>)
    ensures BroadcastTo(st, l, failing, {}) == st
  {
    var next := BroadcastTo(st, l, failing, {});
    assert next.subscriptions == st.subscriptions;
    assert next.delivered == st.delivered;
  }

  /** One session is visited. */
  function PushTo(st: Service, s: Session, l: LogData, fails: bool): Service {
    if !IsCandidate(st, s, l) then st
    else if fails then st.(subscriptions := st.subscriptions - {s})
    else Deliver(st, s, Response(true, [l], None))
  }

  lemma BroadcastToNext(st: Service, l: LogData, failing: set<Session>, visited: set<Session>, s: Session)
    requires s in st.subscriptions && s !in visited && s in st.delivered
    ensures var now := BroadcastTo(st, l, failing, visited);
            && s in now.subscriptions && s in now.delivered
            && BroadcastTo(st, l, failing, visited + {s}) == PushTo(now, s, l, s in failing)
  {
    BroadcastToOneMore(st, l, failing, visited, s);
  }

  /** Visiting one more session changes that session only. */
  lemma BroadcastToOneMore(st: Service, l: LogData, failing: set<Session>, visited: set<Session>, s: Session)
    requires s in st.subscriptions && s !in visited && s in st.delivered
    ensures var now, next := BroadcastTo(st, l, failing, visited), BroadcastTo(st, l, failing, visited + {s});
            && s in now.subscriptions && now.subscriptions[s] == st.subscriptions[s]
            && s in now.delivered
            && next.subscriptions == (if IsCandidate(st, s, l) && s in failing then now.subscriptions - {s} else now.subscriptions)
            && next.delivered == (if IsCandidate(st, s, l) && s !in failing
                                  then now.delivered[s := now.delivered[s] + [Response(true, [l], None)]] else now.delivered)
  {
  }

  /** handleReceivedLogData. */
  function Receive(st: Service, l: LogData, failing: set<Session>): Service {
    if l.host.None? || l.program.None? then st else Broadcast(Store(st, l), l, failing)
  }

  function Open(st: Service, s: Session): Service {
    st.(subscriptions := st.subscriptions[s := INITIAL_SUBSCRIPTION], delivered := st.delivered[s := DeliveredTo(st, s)])
  }

  function Remove(st: Service, s: Session): Service {
    st.(subscriptions := st.subscriptions - {s})
  }

  function Apply(st: Service, ev: Event): Service {
    match ev
    case Opened(s) => Open(st, s)
    case Removed(s) => Remove(st, s)
    case Asked(s, request, found, answered, errorSent) => Ask(st, s, request, found, answered, errorSent)
    case Received(l, failing) => Receive(st, l, failing)
  }

  /** found is a possible answer to the query: the held logs of the requested hosts and
      programs, each as often as it is held, sorted by date when dates allow sorting. */
  predicate IsAnswer(found: seq<LogData>, history: seq<LogData>, capacity: nat, hosts: seq<Text>, programs: seq<Text>) {
    && multiset(found) == multiset(Held(history, capacity, hosts, programs))
    && (Sortable(found) ==> DateSorted(found))
  }

  predicate Possible(st: Service, ev: Event) {
    ev.Asked? ==>
      match Decide(st, ev.s, ev.request)
      case Reads(hosts, programs) => IsAnswer(ev.found, st.history, st.capacity, hosts, programs)
      case _ => true
  }

  function Run(st: Service, events: seq<Event>): Service
    decreases events
  {
    if events == [] then st else Run(Apply(st, events[0]), events[1..])
  }

  predicate ValidRun(st: Service, events: seq<Event>)
    decreases events
  {
    events == [] || (Possible(st, events[0]) && ValidRun(Apply(st, events[0]), events[1..]))
  }

  // ---- What one request does

  /** The request is well formed, asks for something and passes the state check. */
  predicate WellPosed(st: Service, s: Session, request: Request) {
    && request.Request? && request.state.Some?
    && request.hosts.Some? && request.hosts.value != []
    && request.programs.Some? && request.programs.value != []
    && (request.state.value.INITIAL? || (s in st.subscriptions && st.subscriptions[s].state.INITIAL?))
  }

  predicate SnapshotSent(st: Service, ev: Event)
    requires ev.Asked?
  {
    WellPosed(st, ev.s, ev.request) && Sortable(ev.found) && ev.answered
  }

  predicate Accepted(st: Service, ev: Event)
    requires ev.Asked?
  {
    SnapshotSent(st, ev) && ev.s in st.subscriptions
  }

  /** A request reads logs exactly when it is well posed. */
  lemma ReadsIffWellPosed(st: Service, s: Session, request: Request)
    ensures Decide(st, s, request).Reads? <==> WellPosed(st, s, request)
    ensures WellPosed(st, s, request) ==> Decide(st, s, request) == Reads(request.hosts.value, request.programs.value)
  {
  }

  /** A request replaces the session's subscription exactly when it is accepted; it touches no
      other session, and no log. */
  lemma RequestChangesSubscriptionIffAccepted(st: Service, ev: Event)
    requires ev.Asked?
    ensures Apply(st, ev).subscriptions ==
              if Accepted(st, ev)
              then st.subscriptions[ev.s := Subscription(ev.request.hosts.value, ev.request.programs.value, ONLINE_BROADCASTING)]
              else st.subscriptions
    ensures Apply(st, ev).history == st.history
    ensures forall other :: other != ev.s ==> DeliveredTo(Apply(st, ev), other) == DeliveredTo(st, other)
  {
    ReadsIffWellPosed(st, ev.s, ev.request);
  }

  function Successes(responses: seq<Response>): seq<Response> {
    if responses == [] then []
    else (if responses[0].success then [responses[0]] else []) + Successes(responses[1..])
  }

  lemma {:induction false} SuccessesSnoc(a: seq<Response>, r: Response)
    ensures Successes(a + [r]) == if r.success then Successes(a) + [r] else Successes(a)
  {
    if a == [] {
      assert a + [r] == [r] && [r][1..] == [];
      assert Successes([r][1..]) == [];
    } else {
      SuccessesSnoc(a[1..], r);
      assert (a + [r])[0] == a[0] && (a + [r])[1..] == a[1..] + [r];
    }
  }

  lemma ReplyErrorKeepsSuccesses(st: Service, s: Session, sent: bool)
    ensures Successes(DeliveredTo(ReplyError(st, s, sent), s)) == Successes(DeliveredTo(st, s))
  {
    SuccessesSnoc(DeliveredTo(st, s), SERVER_ERROR);
  }

  /** Besides error replies, a request delivers its answer when the snapshot can be sent, and
      otherwise nothing. */
  lemma RequestDelivers(st: Service, ev: Event)
    requires ev.Asked?
    ensures Successes(DeliveredTo(Apply(st, ev), ev.s))
         == Successes(DeliveredTo(st, ev.s)) + (if SnapshotSent(st, ev) then [Response(true, ev.found, None)] else [])
  {
    var s := ev.s;
    ReadsIffWellPosed(st, s, ev.request);
    ReplyErrorKeepsSuccesses(st, s, ev.errorSent);
    SuccessesSnoc(DeliveredTo(st, s), INCORRECT_PARAMETERS);
    var shown := Deliver(st, s, Response(true, ev.found, None));
    SuccessesSnoc(DeliveredTo(st, s), Response(true, ev.found, None));
    ReplyErrorKeepsSuccesses(shown, s, ev.errorSent);
  }

  /** The request is broken: its handling ends in an exception before anything is read or sent. */
  predicate Broken(st: Service, s: Session, request: Request) {
    || request.Unreadable? || request.state.None?
    || (request.state != Some(INITIAL) && s !in st.subscriptions)
    || (!IgnoredOnline(st, s, request)
        && (request.hosts.None? || (request.hosts.value != [] && request.programs.None?)))
  }

  /** The request is ignored: it is not an initial one, and the session is subscribed. */
  predicate IgnoredOnline(st: Service, s: Session, request: Request) {
    && request.Request? && request.state == Some(ONLINE_BROADCASTING)
    && s in st.subscriptions && st.subscriptions[s].state == ONLINE_BROADCASTING
  }

  /** The request asks for nothing. */
  predicate Empty(request: Request) {
    request.Request? && (request.hosts == Some([]) || (request.hosts.Some? && request.programs == Some([])))
  }

  /** Every reply to a request: none to an ignored one; for an empty one the message that its
      parameters are incorrect; the snapshot for a well-posed one; and the message of a server
      error wherever something fails, the lookup of a missing session after its snapshot
      included. */
  lemma RepliesExactly(st: Service, ev: Event)
    requires ev.Asked?
    ensures var serverError := if ev.errorSent then [Response(false, [], Some(ServerSideError))] else [];
            DeliveredTo(Apply(st, ev), ev.s) == DeliveredTo(st, ev.s)
              + (if Broken(st, ev.s, ev.request) then serverError
                 else if IgnoredOnline(st, ev.s, ev.request) then []
                 else if Empty(ev.request) then
                   if ev.answered then [Response(false, [], Some(IncorrectRequestParameters))] else serverError
                 else if !Sortable(ev.found) || !ev.answered then serverError
                 else [Response(true, ev.found, None)] + (if ev.s in st.subscriptions then [] else serverError))
    ensures WellPosed(st, ev.s, ev.request)
            <==> !Broken(st, ev.s, ev.request) && !IgnoredOnline(st, ev.s, ev.request) && !Empty(ev.request)
  {
  }

  /** A snapshot does not always mean a subscription: when the session has meanwhile been
      removed, its client gets the snapshot and then an error. */
  lemma SnapshotWithoutSubscription(st: Service, s: Session, hosts: seq<Text>, programs: seq<Text>, found: seq<LogData>)
    requires s !in st.subscriptions && hosts != [] && programs != [] && Sortable(found)
    ensures var ev := Asked(s, Request(Some(INITIAL), Some(hosts), Some(programs)), found, true, true);
            && DeliveredTo(Apply(st, ev), s) == DeliveredTo(st, s) + [Response(true, found, None), SERVER_ERROR]
            && s !in Apply(st, ev).subscriptions
  {
  }

  // ---- What one log does

  /** A log reaches exactly the candidates whose send works; a candidate whose send fails is
      removed, and every other session stays as it is. */
  lemma LogDelivers(st: Service, l: LogData, failing: set<Session>, s: Session)
    requires st.subscriptions.Keys <= st.delivered.Keys
    ensures DeliveredTo(Receive(st, l, failing), s)
         == DeliveredTo(st, s) + (if IsCandidate(st, s, l) && s !in failing then [Response(true, [l], None)] else [])
    ensures s in Receive(st, l, failing).subscriptions <==> s in st.subscriptions && !(IsCandidate(st, s, l) && s in failing)
    ensures s in Receive(st, l, failing).subscriptions ==> Receive(st, l, failing).subscriptions[s] == st.subscriptions[s]
  {
  }

  predicate Tracked(st: Service) { st.subscriptions.Keys <= st.delivered.Keys }

  lemma ApplyKeepsTracked(st: Service, ev: Event)
    requires Tracked(st)
    ensures Tracked(Apply(st, ev))
  {
  }

  lemma {:induction false} RunKeepsTracked(st: Service, events: seq<Event>)
    requires Tracked(st)
    ensures Tracked(Run(st, events))
    decreases events
  {
    if events != [] {
      ApplyKeepsTracked(st, events[0]);
      RunKeepsTracked(Apply(st, events[0]), events[1..]);
    }
  }

  // ---- Traces

  /** The event ends the time during which s is subscribed to hosts and programs: the session
      is opened anew or removed, a request for a new snapshot gets one, or a live send fails. */
  predicate Ends(ev: Event, s: Session, hosts: seq<Text>, programs: seq<Text>) {
    match ev
    case Opened(s') => s' == s
    case Removed(s') => s' == s
    case Asked(s', request, found, answered, _) =>
      s' == s && answered && Sortable(found) && request.Request? && request.state == Some(INITIAL)
      && request.hosts.Some? && request.hosts.value != [] && request.programs.Some? && request.programs.value != []
    case Received(l, failing) => Matches(l, hosts, programs) && s in failing
  }

  /** The matching logs among the events, one response each, in order of arrival. */
  function LiveResponses(events: seq<Event>, hosts: seq<Text>, programs: seq<Text>): seq<Response> {
    if events == [] then []
    else
      (if events[0].Received? && Matches(events[0].log, hosts, programs) then [Response(true, [events[0].log], None)] else [])
      + LiveResponses(events[1..], hosts, programs)
  }

  predicate SubscribedTo(st: Service, s: Session, hosts: seq<Text>, programs: seq<Text>) {
    s in st.subscriptions && st.subscriptions[s] == Subscription(hosts, programs, ONLINE_BROADCASTING)
  }

  lemma SubscribedStep(st: Service, ev: Event, s: Session, hosts: seq<Text>, programs: seq<Text>)
    requires Tracked(st) && SubscribedTo(st, s, hosts, programs) && !Ends(ev, s, hosts, programs)
    ensures SubscribedTo(Apply(st, ev), s, hosts, programs)
    ensures Successes(DeliveredTo(Apply(st, ev), s))
         == Successes(DeliveredTo(st, s))
            + (if ev.Received? && Matches(ev.log, hosts, programs) then [Response(true, [ev.log], None)] else [])
  {
    match ev
    case Opened(s') =>
    case Removed(s') =>
    case Asked(s', _, _, _, _) =>
      RequestChangesSubscriptionIffAccepted(st, ev);
      if s' == s { RequestDelivers(st, ev); }
    case Received(l, failing) =>
      LogDelivers(st, l, failing, s);
      SuccessesSnoc(DeliveredTo(st, s), Response(true, [l], None));
  }

  lemma SubscribedHead(st: Service, events: seq<Event>, s: Session, hosts: seq<Text>, programs: seq<Text>)
    returns (next: Service, first: seq<Response>)
    requires Tracked(st) && SubscribedTo(st, s, hosts, programs)
    requires events != [] && !Ends(events[0], s, hosts, programs)
    ensures Run(st, events) == Run(next, events[1..])
    ensures Tracked(next) && SubscribedTo(next, s, hosts, programs)
    ensures Successes(DeliveredTo(next, s)) == Successes(DeliveredTo(st, s)) + first
    ensures LiveResponses(events, hosts, programs) == first + LiveResponses(events[1..], hosts, programs)
  {
    var ev := events[0];
    next := Apply(st, ev);
    first := if ev.Received? && Matches(ev.log, hosts, programs) then [Response(true, [ev.log], None)] else [];
    SubscribedStep(st, ev, s, hosts, programs);
    ApplyKeepsTracked(st, ev);
  }

  lemma {:induction false} SubscribedTrace(st: Service, events: seq<Event>, s: Session, hosts: seq<Text>, programs: seq<Text>)
    requires Tracked(st) && SubscribedTo(st, s, hosts, programs)
    requires forall i :: 0 <= i < |events| ==> !Ends(events[i], s, hosts, programs)
    ensures SubscribedTo(Run(st, events), s, hosts, programs)
    ensures Successes(DeliveredTo(Run(st, events), s))
         == Successes(DeliveredTo(st, s)) + LiveResponses(events, hosts, programs)
    decreases events
  {
    if events != [] {
      var next, first := SubscribedHead(st, events, s, hosts, programs);
      SubscribedTrace(next, events[1..], s, hosts, programs);
      Associative(Successes(DeliveredTo(st, s)), first, LiveResponses(events[1..], hosts, programs));
    }
  }

  /** Exact trace of one subscription: after an accepted request, and until an event ends it,
      the session receives, error replies aside, the answer to the query at that moment and
      then exactly the later matching logs, in order of arrival. */
  lemma EpisodeTrace(st: Service, ask: Event, events: seq<Event>)
    requires Tracked(st) && ask.Asked? && Accepted(st, ask) && Possible(st, ask)
    requires var r := ask.request;
             forall i :: 0 <= i < |events| ==> !Ends(events[i], ask.s, r.hosts.value, r.programs.value)
    ensures var hosts, programs := ask.request.hosts.value, ask.request.programs.value;
            && DateSorted(ask.found)
            && multiset(ask.found) == multiset(Held(st.history, st.capacity, hosts, programs))
            && Successes(DeliveredTo(Run(Apply(st, ask), events), ask.s))
            == Successes(DeliveredTo(st, ask.s)) + [Response(true, ask.found, None)] + LiveResponses(events, hosts, programs)
            && SubscribedTo(Run(Apply(st, ask), events), ask.s, hosts, programs)
  {
    var hosts, programs := ask.request.hosts.value, ask.request.programs.value;
    RequestChangesSubscriptionIffAccepted(st, ask);
    RequestDelivers(st, ask);
    ApplyKeepsTracked(st, ask);
    SubscribedTrace(Apply(st, ask), events, ask.s, hosts, programs);
  }

  /** The logs carried by responses, in order. */
  function Carried(responses: seq<Response>): seq<LogData> {
    if responses == [] then [] else responses[0].logs + Carried(responses[1..])
  }

  lemma {:induction false} CarriedSum(a: seq<Response>, b: seq<Response>)
    ensures Carried(a + b) == Carried(a) + Carried(b)
  {
    if a == [] {
      assert a + b == b;
    } else {
      CarriedSum(a[1..], b);
      assert (a + b)[1..] == a[1..] + b;
      Associative(a[0].logs, Carried(a[1..]), Carried(b));
    }
  }

  /** The matching logs among the events, in order of arrival. */
  function MatchingLogs(events: seq<Event>, hosts: seq<Text>, programs: seq<Text>): seq<LogData> {
    if events == [] then []
    else (if events[0].Received? && Matches(events[0].log, hosts, programs) then [events[0].log] else [])
         + MatchingLogs(events[1..], hosts, programs)
  }

  lemma {:induction false} LiveResponsesCarry(events: seq<Event>, hosts: seq<Text>, programs: seq<Text>)
    ensures Carried(LiveResponses(events, hosts, programs)) == MatchingLogs(events, hosts, programs)
  {
    if events != [] {
      LiveResponsesCarry(events[1..], hosts, programs);
      var rest := LiveResponses(events[1..], hosts, programs);
      if events[0].Received? && Matches(events[0].log, hosts, programs) {
        assert LiveResponses(events, hosts, programs)[1..] == rest;
      } else {
        assert LiveResponses(events, hosts, programs) == rest;
      }
    }
  }

  lemma EpisodeCarries(before: seq<Response>, found: seq<LogData>, events: seq<Event>, hosts: seq<Text>, programs: seq<Text>)
    ensures (Carried(before + [Response(true, found, None)] + LiveResponses(events, hosts, programs))
             == Carried(before) + (found + MatchingLogs(events, hosts, programs)))
  {
    var snapshot, live := [Response(true, found, None)], LiveResponses(events, hosts, programs);
    CarriedSum(before + snapshot, live);
    CarriedSum(before, snapshot);
    assert Carried(snapshot) == found + Carried([]) by { assert snapshot[1..] == []; }
    LiveResponsesCarry(events, hosts, programs);
    Associative(Carried(before), found, MatchingLogs(events, hosts, programs));
  }

  /** The logs an accepted request brings, each exactly once: those of the snapshot and then the
      matching ones that arrive until the subscription ends. */
  lemma EpisodeLogs(st: Service, ask: Event, events: seq<Event>)
    requires Tracked(st) && ask.Asked? && Accepted(st, ask) && Possible(st, ask)
    requires var r := ask.request;
             forall i :: 0 <= i < |events| ==> !Ends(events[i], ask.s, r.hosts.value, r.programs.value)
    ensures (Carried(Successes(DeliveredTo(Run(Apply(st, ask), events), ask.s)))
             == Carried(Successes(DeliveredTo(st, ask.s)))
                + (ask.found + MatchingLogs(events, ask.request.hosts.value, ask.request.programs.value)))
  {
    var hosts, programs := ask.request.hosts.value, ask.request.programs.value;
    EpisodeTrace(st, ask, events);
    EpisodeCarries(Successes(DeliveredTo(st, ask.s)), ask.found, events, hosts, programs);
  }

  predicate NotOnline(st: Service, s: Session) {
    s in st.subscriptions ==> st.subscriptions[s].state.INITIAL?
  }

  /** The event is a request of s that could deliver a snapshot. */
  predicate CouldAnswer(ev: Event, s: Session) {
    && ev.Asked? && ev.s == s && ev.answered && Sortable(ev.found)
    && ev.request.Request? && ev.request.state.Some?
    && ev.request.hosts.Some? && ev.request.hosts.value != [] && ev.request.programs.Some? && ev.request.programs.value != []
  }

  /** Outside of subscriptions a session receives no logs at all. */
  lemma {:induction false} QuietTrace(st: Service, events: seq<Event>, s: Session)
    requires Tracked(st) && NotOnline(st, s)
    requires forall i :: 0 <= i < |events| ==> !CouldAnswer(events[i], s)
    ensures NotOnline(Run(st, events), s)
    ensures Successes(DeliveredTo(Run(st, events), s)) == Successes(DeliveredTo(st, s))
    decreases events
  {
    if events != [] {
      var ev := events[0];
      match ev {
        case Opened(_) =>
        case Removed(_) =>
        case Asked(_, _, _, _, _) => RequestChangesSubscriptionIffAccepted(st, ev); RequestDelivers(st, ev);
        case Received(l, failing) => LogDelivers(st, l, failing, s);
      }
      ApplyKeepsTracked(st, ev);
      QuietTrace(Apply(st, ev), events[1..], s);
    }
  }

  // ---- Coverage

  /** The logs carried by successful responses. */
  function Shown(responses: seq<Response>): multiset<LogData> {
    if responses == [] then multiset{}
    else (if responses[0].success then multiset(responses[0].logs) else multiset{}) + Shown(responses[1..])
  }

  lemma {:induction false} ShownSnoc(responses: seq<Response>, r: Response)
    ensures Shown(responses + [r]) == Shown(responses) + (if r.success then multiset(r.logs) else multiset{})
  {
    if responses == [] {
      assert responses + [r] == [r] && [r][1..] == [];
      assert Shown([r][1..]) == multiset{};
    } else {
      ShownSnoc(responses[1..], r);
      assert (responses + [r])[1..] == responses[1..] + [r];
    }
  }

  /** What the session was shown since its last accepted request includes every log its
      subscription would find now. */
  predicate Covered(st: Service, s: Session) {
    s in st.subscriptions && st.subscriptions[s].state.ONLINE_BROADCASTING? ==>
      && s in st.marks && st.marks[s] <= |DeliveredTo(st, s)|
      && multiset(Held(st.history, st.capacity, st.subscriptions[s].hosts, st.subscriptions[s].programs))
         <= Shown(DeliveredTo(st, s)[st.marks[s]..])
  }

  lemma ShownSince(responses: seq<Response>, mark: nat, r: Response)
    requires mark <= |responses|
    ensures Shown((responses + [r])[mark..]) == Shown(responses[mark..]) + (if r.success then multiset(r.logs) else multiset{})
  {
    assert (responses + [r])[mark..] == responses[mark..] + [r];
    ShownSnoc(responses[mark..], r);
  }

  lemma CoveredAfterError(st: Service, s: Session, r: Response)
    requires Covered(st, s) && !r.success
    ensures Covered(Deliver(st, s, r), s)
  {
    if s in st.subscriptions && st.subscriptions[s].state.ONLINE_BROADCASTING? {
      ShownSince(DeliveredTo(st, s), st.marks[s], r);
    }
  }

  lemma CoveredAfterAnswer(st: Service, s: Session, hosts: seq<Text>, programs: seq<Text>, found: seq<LogData>,
                           answered: bool, errorSent: bool)
    requires Covered(st, s) && IsAnswer(found, st.history, st.capacity, hosts, programs)
    ensures Covered(Answer(st, s, hosts, programs, found, answered, errorSent), s)
  {
    CoveredAfterError(st, s, SERVER_ERROR);
    if Sortable(found) && answered && s in st.subscriptions {
      var sent := DeliveredTo(st, s);
      ShownSince(sent, |sent|, Response(true, found, None));
      assert sent[|sent|..] == [];
    }
  }

  lemma CoveredAfterRequest(st: Service, ev: Event, s: Session)
    requires Covered(st, s) && ev.Asked? && Possible(st, ev)
    ensures Covered(Apply(st, ev), s)
  {
    if ev.s != s {
      RequestChangesSubscriptionIffAccepted(st, ev);
    } else {
      CoveredAfterError(st, s, SERVER_ERROR);
      CoveredAfterError(st, s, INCORRECT_PARAMETERS);
      match Decide(st, s, ev.request)
      case Reads(hosts, programs) => CoveredAfterAnswer(st, s, hosts, programs, ev.found, ev.answered, ev.errorSent);
      case _ =>
    }
  }

  lemma CoveredAfterLog(st: Service, l: LogData, failing: set<Session>, s: Session)
    requires Tracked(st) && Covered(st, s)
    ensures Covered(Receive(st, l, failing), s)
  {
    LogDelivers(st, l, failing, s);
    if s in st.subscriptions && st.subscriptions[s].state.ONLINE_BROADCASTING? {
      var sub := st.subscriptions[s];
      HeldSnoc(st.history, l, st.capacity, sub.hosts, sub.programs);
      ShownSince(DeliveredTo(st, s), st.marks[s], Response(true, [l], None));
    }
  }

  lemma {:induction false} CoveredAlongRun(st: Service, events: seq<Event>, s: Session)
    requires Tracked(st) && Covered(st, s) && ValidRun(st, events)
    ensures Covered(Run(st, events), s)
    decreases events
  {
    if events != [] {
      var ev := events[0];
      match ev {
        case Opened(_) =>
        case Removed(_) =>
        case Asked(_, _, _, _, _) => CoveredAfterRequest(st, ev, s);
        case Received(l, failing) => CoveredAfterLog(st, l, failing, s);
      }
      ApplyKeepsTracked(st, ev);
      CoveredAlongRun(Apply(st, ev), events[1..], s);
    }
  }

  /** In every reachable state, every subscribed session has been shown, since its last
      accepted request, all that its query would return now. */
  lemma CoverageInvariant(capacity: nat, events: seq<Event>, s: Session)
    requires ValidRun(InitialService(capacity), events)
    ensures Covered(Run(InitialService(capacity), events), s)
    ensures Tracked(Run(InitialService(capacity), events))
  {
    RunKeepsTracked(InitialService(capacity), events);
    CoveredAlongRun(InitialService(capacity), events, s);
  }
}
