/** Handlers that no other thread interrupts: every run of the protocol with atomic handlers is a
    run of the interleaved steps that keeps the same history, registrations and subscriptions
    and gives the sessions the same snapshots and live logs. */
module UninterruptedHandlers {
  import opened JavaText
  import opened LogModel
  import opened SessionProtocol
  import opened InterleavedBroadcast
  import opened BroadcastFates

  // ---- Positions and logs

  /** The logs at the given positions, from position i on. */
  function Selected(history: seq<LogData>, positions: set<nat>, i: nat): seq<LogData>
    decreases |history| - i
  {
    if i >= |history| then []
    else (if i in positions then [history[i]] else []) + Selected(history, positions, i + 1)
  }

  /** The positions are those of the logs that a query finds. */
  ghost predicate AreHeld(history: seq<LogData>, positions: set<nat>, capacity: nat, hosts: seq<Text>, programs: seq<Text>) {
    forall k: nat :: k in positions <==> k < |history| && Keeps(history[k], history[k + 1..], capacity, hosts, programs)
  }

  lemma {:induction false} SelectedFrom(history: seq<LogData>, positions: set<nat>, capacity: nat, hosts: seq<Text>, programs: seq<Text>, i: nat)
    requires i <= |history| && AreHeld(history, positions, capacity, hosts, programs)
    ensures Selected(history, positions, i) == Held(history[i..], capacity, hosts, programs)
    decreases |history| - i
  {
    if i < |history| {
      SelectedFrom(history, positions, capacity, hosts, programs, i + 1);
      assert history[i..][1..] == history[i + 1..];
      assert i in positions <==> Keeps(history[i], history[i + 1..], capacity, hosts, programs);
    }
  }

  lemma SelectedIsHeld(history: seq<LogData>, positions: set<nat>, capacity: nat, hosts: seq<Text>, programs: seq<Text>)
    requires AreHeld(history, positions, capacity, hosts, programs)
    ensures Selected(history, positions, 0) == Held(history, capacity, hosts, programs)
  {
    SelectedFrom(history, positions, capacity, hosts, programs, 0);
    assert history[0..] == history;
  }

  /** What a ring read finds are the newest logs of the pair, as in the ring buffer. */
  lemma RingIsNewest(w: World, p: Pair)
    ensures (OfPair(Selected(w.history, InRing(w, p), 0), p.host, p.program)
             == Newest(OfPair(w.history, p.host, p.program), w.capacity))
  {
    forall k: nat
      ensures k in InRing(w, p) <==> k < |w.history| && Keeps(w.history[k], w.history[k + 1..], w.capacity, [p.host], [p.program])
    {
    }
    SelectedIsHeld(w.history, InRing(w, p), w.capacity, [p.host], [p.program]);
    HeldOfPair(w.history, w.capacity, [p.host], [p.program], p.host, p.program);
  }

  // ---- A pass without interruption

  /** Only passes, registrations, checks and sends differ. */
  ghost predicate SameRequests(w: World, w': World) {
    && w'.capacity == w.capacity && w'.history == w.history && w'.handlers == w.handlers && w'.answers == w.answers
    && w'.activations == w.activations && w'.subscriptions == w.subscriptions
  }

  ghost predicate CandidateOf(w: World, k: nat, s: Session) {
    k < |w.history| && IsCandidateNow(w, k, s)
  }

  lemma DoCheck(w: World, k: nat, s: Session) returns (w': World)
    requires Reachable(w) && Sized(w) && k < |w.passes| && w.passes[k].Visiting? && s in w.passes[k].todo
    ensures Reachable(w') && Sized(w') && SameRequests(w, w') && w'.registered == w.registered && w'.pushedAt == w.pushedAt
    ensures var starters, todo := w.passes[k].starters, w.passes[k].todo - {s};
            w'.passes == w.passes[k := if CandidateOf(w, k, s) then Sending(starters, todo, s) else Visiting(starters, todo)]
  {
    w' := Proceed(w, CheckSession(k, s));
  }

  lemma DoSend(w: World, k: nat, works: bool) returns (w': World)
    requires Reachable(w) && Sized(w) && k < |w.passes| && w.passes[k].Sending?
    ensures Reachable(w') && Sized(w') && SameRequests(w, w')
    ensures w'.registered == if works then w.registered else w.registered - {w.passes[k].to}
    ensures w'.pushedAt.Keys == if works then w.pushedAt.Keys + {(k, w.passes[k].to)} else w.pushedAt.Keys
    ensures w'.passes == w.passes[k := Visiting(w.passes[k].starters, w.passes[k].todo)]
  {
    w' := Proceed(w, Send(k, works));
  }

  lemma VisitSession(w: World, k: nat, s: Session, fails: bool) returns (w': World)
    requires Reachable(w) && Sized(w) && k < |w.passes| && w.passes[k].Visiting? && s in w.passes[k].todo
    ensures Reachable(w') && Sized(w') && SameRequests(w, w')
    ensures w'.passes == w.passes[k := Visiting(w.passes[k].starters, w.passes[k].todo - {s})]
    ensures w'.registered == if CandidateOf(w, k, s) && fails then w.registered - {s} else w.registered
    ensures w'.pushedAt.Keys == if CandidateOf(w, k, s) && !fails then w.pushedAt.Keys + {(k, s)} else w.pushedAt.Keys
  {
    w' := DoCheck(w, k, s);
    if CandidateOf(w, k, s) {
      w' := DoSend(w', k, !fails);
    }
  }

  /** The pass has visited these sessions: every candidate was sent the log or removed. */
  ghost predicate Visited(w: World, w': World, k: nat, visited: set<Session>, failing: set<Session>) {
    && SameRequests(w, w')
    && (forall s :: s in w'.registered <==> s in w.registered && !(s in visited && CandidateOf(w, k, s) && s in failing))
    && (forall j: nat, s :: (j, s) in w'.pushedAt.Keys <==>
          (j, s) in w.pushedAt.Keys || (j == k && s in visited && CandidateOf(w, k, s) && s !in failing))
  }

  lemma VisitedOneMore(w: World, next: World, w': World, k: nat, s: Session, visited: set<Session>, failing: set<Session>)
    requires s in visited && SameRequests(w, next) && Visited(next, w', k, visited - {s}, failing)
    requires next.registered == if CandidateOf(w, k, s) && s in failing then w.registered - {s} else w.registered
    requires next.pushedAt.Keys == if CandidateOf(w, k, s) && s !in failing then w.pushedAt.Keys + {(k, s)} else w.pushedAt.Keys
    ensures Visited(w, w', k, visited, failing)
  {
    forall t ensures CandidateOf(next, k, t) == CandidateOf(w, k, t) {
    }
  }

  lemma {:induction false} VisitAll(w: World, k: nat, failing: set<Session>) returns (w': World)
    requires Reachable(w) && Sized(w) && k < |w.passes| && w.passes[k].Visiting?
    ensures Reachable(w') && Sized(w') && Visited(w, w', k, w.passes[k].todo, failing)
    ensures w'.passes == w.passes[k := Visiting(w.passes[k].starters, {})]
    decreases |w.passes[k].todo|
  {
    var todo := w.passes[k].todo;
    if todo == {} {
      w' := w;
      assert w.passes == w.passes[k := Visiting(w.passes[k].starters, {})];
    } else {
      var s :| s in todo;
      var next := VisitSession(w, k, s, s in failing);
      assert |todo - {s}| < |todo|;
      w' := VisitAll(next, k, failing);
      VisitedOneMore(w, next, w', k, s, todo, failing);
    }
  }

  // ---- A request without interruption

  /** Only the session's handler differs. */
  ghost predicate SameButHandler(w: World, w': World, s: Session) {
    && w'.capacity == w.capacity && w'.history == w.history && w'.passes == w.passes && w'.registered == w.registered
    && w'.subscriptions == w.subscriptions && w'.activations == w.activations && w'.answers == w.answers
    && w'.pushedAt == w.pushedAt
    && s in w.handlers && w'.handlers.Keys == w.handlers.Keys
    && forall t :: t in w.handlers && t != s ==> w'.handlers[t] == w.handlers[t]
  }

  lemma ReadOne(w: World, s: Session, p: Pair) returns (w': World)
    requires Reachable(w) && Sized(w) && s in w.handlers && w.handlers[s].Collecting?
    requires w.handlers[s].reading.Asks(p) && p !in w.handlers[s].reading.readAt
    ensures Reachable(w') && Sized(w') && SameButHandler(w, w', s)
    ensures var r := w.handlers[s].reading;
            w'.handlers[s] == Collecting(r.(readAt := r.readAt[p := w.now], snapshot := r.snapshot + InRing(w, p)))
  {
    w' := Proceed(w, ReadRing(s, p));
  }

  /** The reading has read some more rings. */
  ghost predicate ReadMore(w: World, r: Reading, r': Reading, rings: set<Pair>) {
    && r'.hosts == r.hosts && r'.programs == r.programs && r'.readAt.Keys == r.readAt.Keys + rings
    && forall k: nat :: k in r'.snapshot <==> k in r.snapshot || FoundIn(w, k, rings)
  }

  ghost predicate FoundIn(w: World, k: nat, rings: set<Pair>) {
    exists p :: p in rings && k in InRing(w, p)
  }

  lemma ReadOneMore(w: World, w': World, r: Reading, next: Reading, last: Reading, p: Pair, rings: set<Pair>)
    requires p in rings && SameHistory(w, w') && next.hosts == r.hosts && next.programs == r.programs
    requires next.readAt.Keys == r.readAt.Keys + {p} && next.snapshot == r.snapshot + InRing(w, p)
    requires ReadMore(w', next, last, rings - {p})
    ensures ReadMore(w, r, last, rings)
  {
    forall k: nat ensures k in last.snapshot <==> k in r.snapshot || FoundIn(w, k, rings) {
      forall q ensures InRing(w', q) == InRing(w, q) { SameRing(w, w', q); }
    }
  }

  ghost predicate SameHistory(w: World, w': World) {
    w'.history == w.history && w'.capacity == w.capacity
  }

  lemma SameRing(w: World, w': World, p: Pair)
    requires SameHistory(w, w')
    ensures InRing(w', p) == InRing(w, p)
  {
  }

  lemma OneRingLess(r: Reading, next: Reading, p: Pair, rings: set<Pair>)
    requires p in rings && forall q :: q in rings ==> r.Asks(q) && q !in r.readAt
    requires next.hosts == r.hosts && next.programs == r.programs && next.readAt.Keys == r.readAt.Keys + {p}
    ensures |rings - {p}| < |rings|
    ensures forall q :: q in rings - {p} ==> next.Asks(q) && q !in next.readAt
  {
  }

  lemma ReadNone(w: World, r: Reading)
    ensures ReadMore(w, r, r, {})
  {
    forall k: nat ensures !FoundIn(w, k, {}) {
    }
  }

  lemma ReadRings(w: World, s: Session, rings: set<Pair>) returns (w': World)
    requires Reachable(w) && Sized(w) && s in w.handlers && w.handlers[s].Collecting?
    requires forall p :: p in rings ==> w.handlers[s].reading.Asks(p) && p !in w.handlers[s].reading.readAt
    ensures Reachable(w') && Sized(w') && SameButHandler(w, w', s) && w'.handlers[s].Collecting?
    ensures ReadMore(w, w.handlers[s].reading, w'.handlers[s].reading, rings)
    decreases |rings|
  {
    if rings == {} {
      w' := w;
      ReadNone(w, w.handlers[s].reading);
    } else {
      var p :| p in rings;
      var next := ReadOne(w, s, p);
      OneRingLess(w.handlers[s].reading, next.handlers[s].reading, p, rings);
      w' := ReadRings(next, s, rings - {p});
      ReadOneMore(w, next, w.handlers[s].reading, next.handlers[s].reading, w'.handlers[s].reading, p, rings);
    }
  }

  /** What a whole request leaves behind: its snapshot, and then its subscription, if the session
      is registered. */
  ghost predicate Answers(w: World, w': World, s: Session, hosts: seq<Text>, programs: seq<Text>) {
    && w'.capacity == w.capacity && w'.history == w.history && w'.passes == w.passes && w'.registered == w.registered
    && w'.pushedAt == w.pushedAt && w'.handlers.Keys == w.handlers.Keys
    && (forall t :: t in w'.handlers ==> w'.handlers[t] == if t == s then Idle else w.handlers[t])
    && w'.subscriptions == (if s in w.registered
                            then w.subscriptions[s := Subscription(hosts, programs, ONLINE_BROADCASTING)] else w.subscriptions)
    && (forall t :: t != s ==> Sent(w', t) == Sent(w, t))
    && exists a :: Sent(w', s) == Sent(w, s) + [a] && HoldsQuery(w, a, hosts, programs)
  }

  /** The snapshot is the answer to the query: the held logs of the requested hosts and programs. */
  ghost predicate HoldsQuery(w: World, a: Answer, hosts: seq<Text>, programs: seq<Text>) {
    && a.reading.hosts == hosts && a.reading.programs == programs
    && AreHeld(w.history, a.reading.snapshot, w.capacity, hosts, programs)
  }

  function Requested(hosts: seq<Text>, programs: seq<Text>): set<Pair> {
    set h, p | h in hosts && p in programs :: Pair(h, p)
  }

  lemma FoundIsHeld(w: World, snapshot: set<nat>, hosts: seq<Text>, programs: seq<Text>)
    requires forall k: nat :: k in snapshot <==> FoundIn(w, k, Requested(hosts, programs))
    ensures AreHeld(w.history, snapshot, w.capacity, hosts, programs)
  {
    forall k: nat
      ensures k in snapshot <==> k < |w.history| && Keeps(w.history[k], w.history[k + 1..], w.capacity, hosts, programs)
    {
      if k < |w.history| && Keeps(w.history[k], w.history[k + 1..], w.capacity, hosts, programs) {
        var p := PairOf(w.history[k]);
        assert p in Requested(hosts, programs) && k in InRing(w, p);
      }
      if k in snapshot {
        var p :| p in Requested(hosts, programs) && k in InRing(w, p);
      }
    }
  }

  lemma BeginRequest(w: World, s: Session, hosts: seq<Text>, programs: seq<Text>) returns (w': World)
    requires Reachable(w) && Sized(w) && s in w.handlers && w.handlers[s].Idle? && hosts != [] && programs != []
    ensures Reachable(w') && Sized(w') && SameButHandler(w, w', s)
    ensures w'.handlers[s] == Collecting(Reading(hosts, programs, map[], {}))
  {
    w' := Proceed(w, StartRequest(s, hosts, programs));
  }

  lemma EndRequest(w: World, s: Session, answered: bool) returns (w': World)
    requires Reachable(w) && Sized(w) && s in w.handlers && w.handlers[s].Collecting? && ReadAll(w.handlers[s].reading)
    ensures Reachable(w') && Sized(w')
    ensures w'.capacity == w.capacity && w'.history == w.history && w'.passes == w.passes && w'.registered == w.registered
    ensures w'.pushedAt == w.pushedAt && w'.handlers == w.handlers[s := Idle]
    ensures var r := w.handlers[s].reading;
            && w'.subscriptions == (if answered && s in w.registered
                                    then w.subscriptions[s := Subscription(r.hosts, r.programs, ONLINE_BROADCASTING)] else w.subscriptions)
            && (answered || w'.activations == w.activations)
            && w'.answers == if answered then w.answers[s := Sent(w, s) + [Answer(r, w.now)]] else w.answers
  {
    w' := Proceed(w, SendSnapshot(s, answered));
    if answered {
      w' := Proceed(w', Activate(s));
    }
  }

  lemma RequestAnswers(w: World, read: World, w': World, s: Session, a: Answer)
    requires SameButHandler(w, read, s) && read.handlers[s].Collecting? && a.reading == read.handlers[s].reading
    requires AreHeld(w.history, a.reading.snapshot, w.capacity, a.reading.hosts, a.reading.programs)
    requires w'.capacity == w.capacity && w'.history == w.history && w'.passes == w.passes && w'.registered == w.registered
    requires w'.pushedAt == w.pushedAt && w'.handlers == read.handlers[s := Idle]
    requires w'.subscriptions == if s in w.registered
                                 then w.subscriptions[s := Subscription(a.reading.hosts, a.reading.programs, ONLINE_BROADCASTING)]
                                 else w.subscriptions
    requires w'.answers == w.answers[s := Sent(w, s) + [a]]
    ensures Answers(w, w', s, a.reading.hosts, a.reading.programs)
  {
    assert Sent(w', s) == Sent(w, s) + [a] && HoldsQuery(w, a, a.reading.hosts, a.reading.programs);
  }

  lemma WholeRequest(w: World, s: Session, hosts: seq<Text>, programs: seq<Text>) returns (w': World)
    requires Reachable(w) && Sized(w) && s in w.handlers && w.handlers[s].Idle? && hosts != [] && programs != []
    ensures Reachable(w') && Sized(w') && Answers(w, w', s, hosts, programs)
  {
    var begun := BeginRequest(w, s, hosts, programs);
    var read := ReadRings(begun, s, Requested(hosts, programs));
    var r := read.handlers[s].reading;
    AllRead(begun, r, hosts, programs);
    w' := EndRequest(read, s, true);
    RequestAnswers(w, read, w', s, Answer(r, read.now));
  }

  lemma AllRead(w: World, r: Reading, hosts: seq<Text>, programs: seq<Text>)
    requires ReadMore(w, Reading(hosts, programs, map[], {}), r, Requested(hosts, programs))
    ensures ReadAll(r) && r.hosts == hosts && r.programs == programs
    ensures AreHeld(w.history, r.snapshot, w.capacity, hosts, programs)
  {
    FoundIsHeld(w, r.snapshot, hosts, programs);
    forall h, p | h in hosts && p in programs ensures Pair(h, p) in r.readAt {
      assert Pair(h, p) in Requested(hosts, programs);
    }
  }

  /** A request whose snapshot cannot be sent leaves nothing behind. */
  lemma FailedRequest(w: World, s: Session, hosts: seq<Text>, programs: seq<Text>) returns (w': World)
    requires Reachable(w) && Sized(w) && s in w.handlers && w.handlers[s].Idle? && hosts != [] && programs != []
    ensures Reachable(w') && SameButHandler(w, w', s) && w'.handlers[s].Idle?
  {
    var begun := BeginRequest(w, s, hosts, programs);
    var read := ReadRings(begun, s, Requested(hosts, programs));
    AllRead(begun, read.handlers[s].reading, hosts, programs);
    w' := EndRequest(read, s, false);
  }

  // ---- Atomic runs

  /** The positions of the logs sent live to the session. */
  function PushedTo(w: World, s: Session): set<nat> {
    set k: nat | k < |w.history| && (k, s) in w.pushedAt
  }

  /** As many snapshots and live logs were sent as the session has received. */
  ghost predicate SameCount(w: World, st: Service, s: Session) {
    |Successes(DeliveredTo(st, s))| == |Sent(w, s)| + |PushedTo(w, s)|
  }

  ghost predicate IsOver(pass: Pass) {
    pass.Visiting? && pass.todo == {}
  }

  ghost predicate AtRest(w: World) {
    && Sized(w) && (forall k :: 0 <= k < |w.passes| ==> IsOver(w.passes[k]))
    && w.handlers.Keys == w.subscriptions.Keys && (forall s :: s in w.handlers ==> w.handlers[s].Idle?)
  }

  /** The interleaved world, with no handler under way, is in the state of the atomic service. */
  ghost predicate Mirrors(w: World, st: Service) {
    && w.capacity == st.capacity && w.history == st.history
    && w.registered == st.subscriptions.Keys && w.registered <= w.subscriptions.Keys
    && (forall s :: s in w.registered ==> w.subscriptions[s] == st.subscriptions[s])
    && (forall s :: SameCount(w, st, s))
  }

  /** The event can be taken by the interleaved handlers: a session is opened once, and asks only
      after that. */
  ghost predicate Fits(w: World, ev: Event) {
    && (ev.Opened? ==> ev.s !in w.subscriptions)
    && (ev.Asked? ==> ev.s in w.subscriptions)
  }

  /** The event gives the same in both: a log goes live to the same sessions, and a snapshot holds
      the logs of the atomic answer. */
  ghost predicate GivesSame(w: World, w': World, st: Service, ev: Event) {
    && (forall k: nat, s :: (k, s) in w'.pushedAt <==>
          (k, s) in w.pushedAt || (ev.Received? && k == |w.history| && IsCandidate(st, s, ev.log) && s !in ev.failing))
    && (forall s :: if ev.Asked? && ev.s == s && SnapshotSent(st, ev) then SentAnswer(w, w', s, ev.found) else Sent(w', s) == Sent(w, s))
  }

  ghost predicate SentAnswer(w: World, w': World, s: Session, found: seq<LogData>) {
    exists a :: Sent(w', s) == Sent(w, s) + [a] && multiset(Selected(w.history, a.reading.snapshot, 0)) == multiset(found)
  }

  /** Nothing was sent. */
  ghost predicate SameGifts(w: World, w': World) {
    && w'.capacity == w.capacity && w'.history == w.history && w'.passes == w.passes && Sized(w')
    && w'.pushedAt == w.pushedAt && w'.answers == w.answers
  }

  lemma CountsSame(w: World, w': World, st: Service, st': Service)
    requires Mirrors(w, st) && SameGifts(w, w') && forall s :: DeliveredTo(st', s) == DeliveredTo(st, s)
    ensures forall s :: SameCount(w', st', s)
  {
    forall s ensures SameCount(w', st', s) {
      assert SameCount(w, st, s) && PushedTo(w', s) == PushedTo(w, s);
    }
  }

  lemma DoRegister(w: World, s: Session) returns (w': World)
    requires Reachable(w) && AtRest(w) && s !in w.subscriptions
    ensures Reachable(w') && SameGifts(w, w') && w'.registered == w.registered + {s}
    ensures w'.subscriptions == w.subscriptions[s := INITIAL_SUBSCRIPTION] && w'.handlers == w.handlers[s := Idle]
  {
    w' := Proceed(w, Register(s));
  }

  lemma MirrorsOpened(w: World, st: Service, s: Session) returns (w': World)
    requires Reachable(w) && AtRest(w) && Mirrors(w, st) && s !in w.subscriptions
    ensures Reachable(w') && AtRest(w') && Mirrors(w', Apply(st, Opened(s))) && GivesSame(w, w', st, Opened(s))
    ensures w'.subscriptions.Keys == NowKnown(Opened(s), w.subscriptions.Keys)
  {
    w' := DoRegister(w, s);
    RegisteredMirrors(w, w', st, s);
  }

  lemma RegisteredMirrors(w: World, w': World, st: Service, s: Session)
    requires AtRest(w) && Mirrors(w, st) && SameGifts(w, w') && w'.registered == w.registered + {s} && s !in w.subscriptions
    requires w'.subscriptions == w.subscriptions[s := INITIAL_SUBSCRIPTION] && w'.handlers == w.handlers[s := Idle]
    ensures AtRest(w') && Mirrors(w', Apply(st, Opened(s))) && GivesSame(w, w', st, Opened(s))
  {
    CountsSame(w, w', st, Apply(st, Opened(s)));
  }

  lemma DoRemove(w: World, s: Session) returns (w': World)
    requires Reachable(w) && AtRest(w)
    ensures Reachable(w') && SameGifts(w, w') && w'.registered == w.registered - {s}
    ensures w'.subscriptions == w.subscriptions && w'.handlers == w.handlers
  {
    w' := w;
    if s in w.registered {
      w' := Proceed(w, Unregister(s));
    }
  }

  lemma MirrorsRemoved(w: World, st: Service, s: Session) returns (w': World)
    requires Reachable(w) && AtRest(w) && Mirrors(w, st)
    ensures Reachable(w') && AtRest(w') && Mirrors(w', Apply(st, Removed(s))) && GivesSame(w, w', st, Removed(s))
    ensures w'.subscriptions.Keys == NowKnown(Removed(s), w.subscriptions.Keys)
  {
    w' := DoRemove(w, s);
    CountsSame(w, w', st, Apply(st, Removed(s)));
  }

  /** A whole pass: the log is added, and the pass visits everyone registered. */
  lemma DoReceive(w: World, l: LogData, failing: set<Session>) returns (w': World)
    requires Reachable(w) && AtRest(w) && HasPair(l) && w.registered <= w.subscriptions.Keys
    ensures Reachable(w') && Sized(w') && w'.capacity == w.capacity && w'.history == w.history + [l]
    ensures |w'.passes| == |w.passes| + 1 && forall k :: 0 <= k < |w'.passes| ==> IsOver(w'.passes[k])
    ensures w'.subscriptions == w.subscriptions && w'.handlers == w.handlers && w'.answers == w.answers
    ensures forall s :: s in w'.registered <==>
              s in w.registered && !(w.subscriptions[s].IsBroadcastCandidateFor(l) && s in failing)
    ensures forall k: nat, s :: (k, s) in w'.pushedAt <==>
              (k, s) in w.pushedAt
              || (k == |w.history| && s in w.registered && w.subscriptions[s].IsBroadcastCandidateFor(l) && s !in failing)
  {
    var n := |w.history|;
    var added := Proceed(w, AddLog(l));
    var begun := BeginsPass(added, n);
    w' := VisitAll(begun, n, failing);
  }

  lemma BeginsPass(w: World, k: nat) returns (w': World)
    requires Reachable(w) && Sized(w) && k < |w.passes| && w.passes[k].NotStarted?
    ensures Reachable(w') && Sized(w') && SameRequests(w, w') && w'.registered == w.registered && w'.pushedAt == w.pushedAt
    ensures w'.passes == w.passes[k := Visiting(w.registered, w.registered)]
  {
    w' := Proceed(w, StartPass(k));
  }

  lemma PushedIsOld(w: World, k: nat, s: Session)
    requires Reachable(w) && (k, s) in w.pushedAt
    ensures k < |w.history|
  {
    SentIsMatched(w, s, k);
  }

  lemma PushedGrows(w: World, w': World, l: LogData, s: Session, sent: bool)
    requires w'.history == w.history + [l] && forall k: nat :: (k, s) in w.pushedAt ==> k < |w.history|
    requires forall k: nat :: (k, s) in w'.pushedAt <==> (k, s) in w.pushedAt || (k == |w.history| && sent)
    ensures |PushedTo(w', s)| == |PushedTo(w, s)| + if sent then 1 else 0
  {
    var n: nat := |w.history|;
    if sent {
      assert PushedTo(w', s) == PushedTo(w, s) + {n};
    } else {
      assert PushedTo(w', s) == PushedTo(w, s);
    }
  }

  lemma LiveCounts(st: Service, l: LogData, failing: set<Session>, s: Session)
    requires Tracked(st)
    ensures (|Successes(DeliveredTo(Receive(st, l, failing), s))|
             == |Successes(DeliveredTo(st, s))| + if IsCandidate(st, s, l) && s !in failing then 1 else 0)
  {
    LogDelivers(st, l, failing, s);
    SuccessesSnoc(DeliveredTo(st, s), Response(true, [l], None));
  }

  /** A new log sent live counts as one more. */
  lemma CountsReceived(w: World, w': World, st: Service, l: LogData, failing: set<Session>, s: Session)
    requires Reachable(w) && SameCount(w, st, s) && Tracked(st)
    requires w'.history == w.history + [l] && w'.answers == w.answers
    requires forall k: nat :: (k, s) in w'.pushedAt <==>
               (k, s) in w.pushedAt || (k == |w.history| && IsCandidate(st, s, l) && s !in failing)
    ensures SameCount(w', Receive(st, l, failing), s)
  {
    forall k: nat | (k, s) in w.pushedAt ensures k < |w.history| { PushedIsOld(w, k, s); }
    PushedGrows(w, w', l, s, IsCandidate(st, s, l) && s !in failing);
    LiveCounts(st, l, failing, s);
  }

  lemma MirrorsReceived(w: World, st: Service, l: LogData, failing: set<Session>) returns (w': World)
    requires Reachable(w) && AtRest(w) && Mirrors(w, st) && Tracked(st)
    ensures Reachable(w') && AtRest(w') && Mirrors(w', Apply(st, Received(l, failing))) && GivesSame(w, w', st, Received(l, failing))
    ensures w'.subscriptions.Keys == NowKnown(Received(l, failing), w.subscriptions.Keys)
  {
    if HasPair(l) {
      w' := DoReceive(w, l, failing);
      forall s ensures SameCount(w', Receive(st, l, failing), s) {
        assert SameCount(w, st, s);
        CountsReceived(w, w', st, l, failing, s);
      }
    } else {
      w' := w;
    }
  }

  /** The snapshot of a whole request holds what the atomic query found. */
  lemma AnswerIsFound(w: World, w': World, st: Service, s: Session, hosts: seq<Text>, programs: seq<Text>, found: seq<LogData>)
    requires w.history == st.history && w.capacity == st.capacity && Answers(w, w', s, hosts, programs)
    requires IsAnswer(found, st.history, st.capacity, hosts, programs)
    ensures SentAnswer(w, w', s, found)
  {
    var a :| Sent(w', s) == Sent(w, s) + [a] && HoldsQuery(w, a, hosts, programs);
    SelectedIsHeld(w.history, a.reading.snapshot, w.capacity, hosts, programs);
  }

  lemma AskedCounts(st: Service, ev: Event, s: Session)
    requires ev.Asked?
    ensures (|Successes(DeliveredTo(Apply(st, ev), s))|
             == |Successes(DeliveredTo(st, s))| + if s == ev.s && SnapshotSent(st, ev) then 1 else 0)
  {
    RequestDelivers(st, ev);
    RequestChangesSubscriptionIffAccepted(st, ev);
  }

  lemma CountsAsked(w: World, w': World, st: Service, ev: Event, s: Session)
    requires ev.Asked? && SameCount(w, st, s) && w'.history == w.history && w'.pushedAt == w.pushedAt
    requires |Sent(w', s)| == |Sent(w, s)| + if s == ev.s && SnapshotSent(st, ev) then 1 else 0
    ensures SameCount(w', Apply(st, ev), s)
  {
    AskedCounts(st, ev, s);
    assert PushedTo(w', s) == PushedTo(w, s);
  }

  /** What an asking session leaves in the interleaved world: a whole request, or nothing. */
  lemma DoAsk(w: World, st: Service, ev: Event) returns (w': World)
    requires Reachable(w) && AtRest(w) && Mirrors(w, st) && ev.Asked? && Possible(st, ev) && ev.s in w.subscriptions
    ensures Reachable(w') && Sized(w')
    ensures if SnapshotSent(st, ev)
            then Answers(w, w', ev.s, ev.request.hosts.value, ev.request.programs.value) && SentAnswer(w, w', ev.s, ev.found)
            else w' == w
  {
    w' := w;
    if SnapshotSent(st, ev) {
      ReadsIffWellPosed(st, ev.s, ev.request);
      w' := WholeRequest(w, ev.s, ev.request.hosts.value, ev.request.programs.value);
      AnswerIsFound(w, w', st, ev.s, ev.request.hosts.value, ev.request.programs.value, ev.found);
    }
  }

  lemma MirrorsAsked(w: World, st: Service, ev: Event) returns (w': World)
    requires Reachable(w) && AtRest(w) && Mirrors(w, st) && ev.Asked? && Possible(st, ev) && ev.s in w.subscriptions
    ensures Reachable(w') && AtRest(w') && Mirrors(w', Apply(st, ev)) && GivesSame(w, w', st, ev)
    ensures w'.subscriptions.Keys == NowKnown(ev, w.subscriptions.Keys)
  {
    w' := DoAsk(w, st, ev);
    AskedMirrors(w, w', st, ev);
  }

  lemma AskedMirrors(w: World, w': World, st: Service, ev: Event)
    requires AtRest(w) && Mirrors(w, st) && ev.Asked? && ev.s in w.subscriptions && Sized(w')
    requires if SnapshotSent(st, ev)
             then Answers(w, w', ev.s, ev.request.hosts.value, ev.request.programs.value) && SentAnswer(w, w', ev.s, ev.found)
             else w' == w
    ensures AtRest(w') && Mirrors(w', Apply(st, ev)) && GivesSame(w, w', st, ev) && w'.subscriptions.Keys == w.subscriptions.Keys
  {
    RequestChangesSubscriptionIffAccepted(st, ev);
    forall s ensures SameCount(w', Apply(st, ev), s) {
      assert SameCount(w, st, s);
      CountsAsked(w, w', st, ev, s);
    }
  }

  /** Every atomic event is taken by uninterrupted handlers, and gives the same. */
  lemma MirrorsEvent(w: World, st: Service, ev: Event) returns (w': World)
    requires Reachable(w) && AtRest(w) && Mirrors(w, st) && Tracked(st) && Possible(st, ev) && Fits(w, ev)
    ensures Reachable(w') && AtRest(w') && Mirrors(w', Apply(st, ev)) && GivesSame(w, w', st, ev)
    ensures w'.subscriptions.Keys == NowKnown(ev, w.subscriptions.Keys)
  {
    match ev
    case Opened(s) => w' := MirrorsOpened(w, st, s);
    case Removed(s) => w' := MirrorsRemoved(w, st, s);
    case Asked(_, _, _, _, _) => w' := MirrorsAsked(w, st, ev);
    case Received(l, failing) => w' := MirrorsReceived(w, st, l, failing);
  }

  /** The sessions are opened once, and ask only after that. */
  predicate Orderly(events: seq<Event>, known: set<Session>)
    decreases |events|
  {
    events == []
    || ((events[0].Opened? ==> events[0].s !in known) && (events[0].Asked? ==> events[0].s in known)
        && Orderly(events[1..], NowKnown(events[0], known)))
  }

  function NowKnown(ev: Event, known: set<Session>): set<Session> {
    if ev.Opened? then known + {ev.s} else known
  }

  lemma {:induction false} MirrorsRun(w: World, st: Service, events: seq<Event>) returns (w': World)
    requires Reachable(w) && AtRest(w) && Mirrors(w, st) && Tracked(st)
    requires ValidRun(st, events) && Orderly(events, w.subscriptions.Keys)
    ensures Reachable(w') && AtRest(w') && Mirrors(w', Run(st, events))
    decreases |events|
  {
    if events == [] {
      w' := w;
    } else {
      var next := MirrorsEvent(w, st, events[0]);
      ApplyKeepsTracked(st, events[0]);
      w' := MirrorsRun(next, Apply(st, events[0]), events[1..]);
    }
  }

  /** Every run of the atomic protocol in which sessions are opened once and ask after that is a
      run of the interleaved steps: it reaches a world with the same history, registrations and
      subscriptions, in which each session was sent as many snapshots and live logs. */
  lemma AtomicIsInterleaved(capacity: nat, events: seq<Event>) returns (w: World)
    requires ValidRun(InitialService(capacity), events) && Orderly(events, {})
    ensures Reachable(w) && AtRest(w) && Mirrors(w, Run(InitialService(capacity), events))
  {
    var first := Starts(capacity);
    forall s ensures SameCount(first, InitialService(capacity), s) { assert PushedTo(first, s) == {}; }
    w := MirrorsRun(first, InitialService(capacity), events);
  }
}
