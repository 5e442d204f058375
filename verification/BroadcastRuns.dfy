/** Runs of the interleaved handlers that lose a log, deliver one twice, or bring one for an
    earlier subscription. One session, one host and program, and one log are enough. */
module BroadcastRuns {
  import opened JavaText
  import opened LogModel
  import opened SessionProtocol
  import opened InterleavedBroadcast
  import opened BroadcastFates
  import opened InterleavedCoverage

  const SESSION := Session(1)
  const PAIR := Pair([], [])
  const LOG := LogData(Some(0), Some([]), Some([]), None, None, None, None, None)
  const ONLINE := Subscription([[]], [[]], ONLINE_BROADCASTING)

  /** The reading of a request that has read the one ring. */
  function ReadAt(time: nat, snapshot: set<nat>): Reading {
    Reading([[]], [[]], map[PAIR := time], snapshot)
  }

  /** What there is to see of a world with the one session and at most the one log. */
  datatype View = View(
    now: nat,
    addedAt: seq<nat>,
    passes: seq<Pass>,
    handler: Handler,
    subscription: Subscription,
    sent: seq<Answer>,
    acts: seq<Activation>,
    check: Option<Check>,
    pushedAt: Option<nat>)

  ghost predicate Shows(w: World, v: View) {
    && w.capacity == 1 && w.registered == {SESSION} && w.now == v.now
    && w.history == (if v.addedAt == [] then [] else [LOG]) && w.addedAt == v.addedAt && w.passes == v.passes
    && |v.addedAt| == |v.passes| <= 1
    && SESSION in w.handlers && w.handlers[SESSION] == v.handler
    && SESSION in w.subscriptions && w.subscriptions[SESSION] == v.subscription
    && Sent(w, SESSION) == v.sent && Acts(w, SESSION) == v.acts
    && ((0, SESSION) in w.checks <==> v.check.Some?) && (v.check.Some? ==> w.checks[(0, SESSION)] == v.check.value)
    && ((0, SESSION) in w.pushedAt <==> v.pushedAt.Some?) && (v.pushedAt.Some? ==> w.pushedAt[(0, SESSION)] == v.pushedAt.value)
  }

  // ---- What the steps of the runs do

  const ASKING := Collecting(Reading([[]], [[]], map[], {}))

  lemma RingOfLog(w: World)
    requires w.capacity == 1 && (w.history == [] || w.history == [LOG])
    ensures InRing(w, PAIR) == if w.history == [] then {} else {0}
  {
    if w.history == [LOG] {
      assert w.history[0 + 1..] == [];
      assert OfPair([], [], []) == [];
    }
  }

  lemma ReadingOfLog(w: World)
    requires w.capacity == 1 && (w.history == [] || w.history == [LOG])
    ensures var r := ASKING.reading;
            r.(readAt := r.readAt[PAIR := w.now], snapshot := r.snapshot + InRing(w, PAIR))
            == ReadAt(w.now, if w.history == [] then {} else {0})
  {
    RingOfLog(w);
    assert {} + InRing(w, PAIR) == InRing(w, PAIR);
  }

  /** A request for the one pair begins. */
  lemma Begin(w: World, v: View) returns (v': View)
    requires Shows(w, v) && v.handler.Idle?
    ensures v' == v.(now := v.now + 1, handler := ASKING)
    ensures Enabled(w, StartRequest(SESSION, [[]], [[]])) && Shows(Next(w, StartRequest(SESSION, [[]], [[]])), v')
  {
    v' := v.(now := v.now + 1, handler := ASKING);
  }

  /** Its ring is read: the log is found exactly when it has been added. */
  lemma Read(w: World, v: View) returns (v': View)
    requires Shows(w, v) && v.handler == ASKING
    ensures v' == v.(now := v.now + 1, handler := Collecting(ReadAt(v.now, if v.addedAt == [] then {} else {0})))
    ensures Enabled(w, ReadRing(SESSION, PAIR)) && Shows(Next(w, ReadRing(SESSION, PAIR)), v')
  {
    var found := Collecting(ReadAt(v.now, if v.addedAt == [] then {} else {0}));
    assert NextHandlers(w, ReadRing(SESSION, PAIR)) == w.handlers[SESSION := found] by { ReadingOfLog(w); }
    v' := v.(now := v.now + 1, handler := Collecting(ReadAt(v.now, if v.addedAt == [] then {} else {0})));
  }

  /** The snapshot is sent. */
  lemma Reply(w: World, v: View, time: nat, found: set<nat>) returns (v': View)
    requires Shows(w, v) && v.handler == Collecting(ReadAt(time, found))
    ensures v' == v.(now := v.now + 1, handler := Answered(Answer(ReadAt(time, found), v.now)),
                  sent := v.sent + [Answer(ReadAt(time, found), v.now)])
    ensures Enabled(w, SendSnapshot(SESSION, true)) && Shows(Next(w, SendSnapshot(SESSION, true)), v')
  {
    v' := v.(now := v.now + 1, handler := Answered(Answer(ReadAt(time, found), v.now)),
                  sent := v.sent + [Answer(ReadAt(time, found), v.now)]);
  }

  /** The subscription is activated. */
  lemma Subscribe(w: World, v: View) returns (v': View)
    requires Shows(w, v) && v.handler.Answered? && v.handler.answer.reading.hosts == v.handler.answer.reading.programs == [[]]
    ensures v' == v.(now := v.now + 1, handler := Idle, subscription := ONLINE, acts := v.acts + [Activation(v.handler.answer, v.now)])
    ensures Enabled(w, Activate(SESSION)) && Shows(Next(w, Activate(SESSION)), v')
  {
    v' := v.(now := v.now + 1, handler := Idle, subscription := ONLINE, acts := v.acts + [Activation(v.handler.answer, v.now)]);
  }

  /** The log is added. */
  lemma Add(w: World, v: View) returns (v': View)
    requires Shows(w, v) && v.addedAt == []
    ensures v' == v.(now := v.now + 1, addedAt := [v.now], passes := [NotStarted])
    ensures Enabled(w, AddLog(LOG)) && Shows(Next(w, AddLog(LOG)), v')
  {
    v' := v.(now := v.now + 1, addedAt := [v.now], passes := [NotStarted]);
  }

  /** Its pass begins. */
  lemma BeginPass(w: World, v: View) returns (v': View)
    requires Shows(w, v) && v.passes == [NotStarted]
    ensures v' == v.(now := v.now + 1, passes := [Visiting({SESSION}, {SESSION})])
    ensures Enabled(w, StartPass(0)) && Shows(Next(w, StartPass(0)), v')
  {
    v' := v.(now := v.now + 1, passes := [Visiting({SESSION}, {SESSION})]);
  }

  /** The pass checks the session. */
  lemma Inspect(w: World, v: View) returns (v': View)
    requires Shows(w, v) && v.passes == [Visiting({SESSION}, {SESSION})] && v.subscription in {INITIAL_SUBSCRIPTION, ONLINE}
    ensures v' == v.(now := v.now + 1, check := Some(Check(v.now, |v.acts|)),
                  passes := [if v.subscription == ONLINE then Sending({SESSION}, {}, SESSION) else Visiting({SESSION}, {})])
    ensures Enabled(w, CheckSession(0, SESSION)) && Shows(Next(w, CheckSession(0, SESSION)), v')
  {
    assert {SESSION} - {SESSION} == {};
    v' := v.(now := v.now + 1, check := Some(Check(v.now, |v.acts|)),
                  passes := [if v.subscription == ONLINE then Sending({SESSION}, {}, SESSION) else Visiting({SESSION}, {})]);
  }

  /** The log is sent live. */
  lemma Deliver(w: World, v: View) returns (v': View)
    requires Shows(w, v) && v.passes == [Sending({SESSION}, {}, SESSION)]
    ensures v' == v.(now := v.now + 1, passes := [Visiting({SESSION}, {})], pushedAt := Some(v.now))
    ensures Enabled(w, Send(0, true)) && Shows(Next(w, Send(0, true)), v')
  {
    v' := v.(now := v.now + 1, passes := [Visiting({SESSION}, {})], pushedAt := Some(v.now));
  }

  // ---- The runs

  /** The ring is read and the snapshot sent. */
  lemma RingAnswered(w: World, v: View) returns (w': World, v': View, a: Answer)
    requires Reachable(w) && Shows(w, v) && v.handler == ASKING
    ensures a == Answer(ReadAt(v.now, if v.addedAt == [] then {} else {0}), v.now + 1)
    ensures v' == v.(now := v.now + 2, handler := Answered(a), sent := v.sent + [a])
    ensures Reachable(w') && Shows(w', v')
  {
    var found := if v.addedAt == [] then {} else {0};
    a := Answer(ReadAt(v.now, found), v.now + 1);
    w', v' := w, v;
    v' := Read(w', v');
    w' := Proceed(w', ReadRing(SESSION, PAIR));
    v' := Reply(w', v', v.now, found);
    w' := Proceed(w', SendSnapshot(SESSION, true));
  }

  /** The session asks again and its ring is read. */
  lemma ReadAgain(w: World, v: View) returns (w': World, v': View)
    requires Reachable(w) && Shows(w, v) && v.handler.Idle?
    ensures v' == v.(now := v.now + 2, handler := Collecting(ReadAt(v.now + 1, if v.addedAt == [] then {} else {0})))
    ensures Reachable(w') && Shows(w', v')
  {
    w', v' := w, v;
    v' := Begin(w', v');
    w' := Proceed(w', StartRequest(SESSION, [[]], [[]]));
    v' := Read(w', v');
    w' := Proceed(w', ReadRing(SESSION, PAIR));
  }

  /** The log is added and its pass begins. */
  lemma LogArrives(w: World, v: View) returns (w': World, v': View)
    requires Reachable(w) && Shows(w, v) && v.addedAt == []
    ensures v' == v.(now := v.now + 2, addedAt := [v.now], passes := [Visiting({SESSION}, {SESSION})])
    ensures Reachable(w') && Shows(w', v')
  {
    w', v' := w, v;
    v' := Add(w', v');
    w' := Proceed(w', AddLog(LOG));
    v' := BeginPass(w', v');
    w' := Proceed(w', StartPass(0));
  }

  /** The pass checks the session before the request of the latter subscribes. */
  lemma CheckedEarly(w: World, v: View, a: Answer) returns (w': World, v': View)
    requires Reachable(w) && Shows(w, v) && v.passes == [Visiting({SESSION}, {SESSION})]
    requires v.handler == Answered(a) && a.reading.hosts == a.reading.programs == [[]] && v.subscription == INITIAL_SUBSCRIPTION
    ensures v' == v.(now := v.now + 2, passes := [Visiting({SESSION}, {})], handler := Idle, subscription := ONLINE,
                     check := Some(Check(v.now, |v.acts|)), acts := v.acts + [Activation(a, v.now + 1)])
    ensures Reachable(w') && Shows(w', v')
  {
    w', v' := w, v;
    v' := Inspect(w', v');
    w' := Proceed(w', CheckSession(0, SESSION));
    v' := Subscribe(w', v');
    w' := Proceed(w', Activate(SESSION));
  }

  /** The pass checks the session and sends it the log. */
  lemma CheckedLive(w: World, v: View) returns (w': World, v': View)
    requires Reachable(w) && Shows(w, v) && v.passes == [Visiting({SESSION}, {SESSION})] && v.subscription == ONLINE
    ensures v' == v.(now := v.now + 2, passes := [Visiting({SESSION}, {})],
                     check := Some(Check(v.now, |v.acts|)), pushedAt := Some(v.now + 1))
    ensures Reachable(w') && Shows(w', v')
  {
    w', v' := w, v;
    v' := Inspect(w', v');
    w' := Proceed(w', CheckSession(0, SESSION));
    v' := Deliver(w', v');
    w' := Proceed(w', Send(0, true));
  }

  lemma SubscribedNow(w: World, v: View, a: Answer) returns (w': World, v': View)
    requires Reachable(w) && Shows(w, v) && v.handler == Answered(a) && a.reading.hosts == a.reading.programs == [[]]
    ensures v' == v.(now := v.now + 1, handler := Idle, subscription := ONLINE, acts := v.acts + [Activation(a, v.now)])
    ensures Reachable(w') && Shows(w', v')
  {
    w', v' := w, v;
    v' := Subscribe(w', v');
    w' := Proceed(w', Activate(SESSION));
  }

  /** The pass checks the session for its old subscription; the new snapshot is sent, then the
      log, and then the new subscription is activated. */
  lemma AnsweredLate(w: World, v: View, time: nat, found: set<nat>) returns (w': World, v': View, a: Answer)
    requires Reachable(w) && Shows(w, v) && v.passes == [Visiting({SESSION}, {SESSION})] && v.subscription == ONLINE
    requires v.handler == Collecting(ReadAt(time, found))
    ensures a == Answer(ReadAt(time, found), v.now + 1)
    ensures v' == v.(now := v.now + 4, passes := [Visiting({SESSION}, {})], handler := Idle, sent := v.sent + [a],
                     acts := v.acts + [Activation(a, v.now + 3)], check := Some(Check(v.now, |v.acts|)), pushedAt := Some(v.now + 2))
    ensures Reachable(w') && Shows(w', v')
  {
    a := Answer(ReadAt(time, found), v.now + 1);
    w', v' := w, v;
    v' := Inspect(w', v');
    w' := Proceed(w', CheckSession(0, SESSION));
    v' := Reply(w', v', time, found);
    w' := Proceed(w', SendSnapshot(SESSION, true));
    v' := Deliver(w', v');
    w' := Proceed(w', Send(0, true));
    w', v' := SubscribedNow(w', v', a);
  }

  /** A session has registered and its first request has begun. */
  lemma Begun() returns (w': World, v': View)
    ensures v' == View(2, [], [], ASKING, INITIAL_SUBSCRIPTION, [], [], None, None)
    ensures Reachable(w') && Shows(w', v')
  {
    w' := Starts(1);
    w' := Proceed(w', Register(SESSION));
    v' := View(1, [], [], Idle, INITIAL_SUBSCRIPTION, [], [], None, None);
    v' := Begin(w', v');
    w' := Proceed(w', StartRequest(SESSION, [[]], [[]]));
  }

  /** The log is added between ring read and activation, and checked before the latter. */
  lemma LossRun() returns (w: World, v: View, a: Answer)
    ensures a == Answer(ReadAt(2, {}), 3)
    ensures v == View(8, [4], [Visiting({SESSION}, {})], Idle, ONLINE, [a], [Activation(a, 7)], Some(Check(6, 0)), None)
    ensures Reachable(w) && Shows(w, v)
  {
    w, v := Begun();
    w, v, a := RingAnswered(w, v);
    w, v := LogArrives(w, v);
    w, v := CheckedEarly(w, v, a);
  }

  /** The log is added before the ring read and checked after the activation. */
  lemma DuplicateRun() returns (w: World, v: View, a: Answer)
    ensures a == Answer(ReadAt(4, {0}), 5)
    ensures v == View(9, [2], [Visiting({SESSION}, {})], Idle, ONLINE, [a], [Activation(a, 6)], Some(Check(7, 1)), Some(8))
    ensures Reachable(w) && Shows(w, v)
  {
    w, v := Begun();
    w, v := LogArrives(w, v);
    w, v, a := RingAnswered(w, v);
    w, v := SubscribedNow(w, v, a);
    w, v := CheckedLive(w, v);
  }

  const FIRST := Answer(ReadAt(2, {}), 3)

  /** A session has subscribed before anything was logged. */
  lemma Subscribed() returns (w: World, v: View)
    ensures v == View(5, [], [], Idle, ONLINE, [FIRST], [Activation(FIRST, 4)], None, None)
    ensures Reachable(w) && Shows(w, v)
  {
    var a: Answer;
    w, v := Begun();
    w, v, a := RingAnswered(w, v);
    w, v := SubscribedNow(w, v, a);
  }

  /** It asks again while the log is added, and finds it; the old subscription brings it too. */
  lemma EarlierDuplicateRun() returns (w: World, v: View, a: Answer)
    ensures a == Answer(ReadAt(8, {0}), 10)
    ensures v == View(13, [5], [Visiting({SESSION}, {})], Idle, ONLINE, [FIRST, a],
                      [Activation(FIRST, 4), Activation(a, 12)], Some(Check(9, 1)), Some(11))
    ensures Reachable(w) && Shows(w, v)
  {
    w, v := Subscribed();
    w, v := LogArrives(w, v);
    w, v := ReadAgain(w, v);
    w, v, a := AnsweredLate(w, v, 8, {0});
  }

  /** It asks again and reads the ring before the log is added; the old subscription brings the
      log after the new snapshot. */
  lemma EarlierRescueRun() returns (w: World, v: View, a: Answer)
    ensures a == Answer(ReadAt(6, {}), 10)
    ensures v == View(13, [7], [Visiting({SESSION}, {})], Idle, ONLINE, [FIRST, a],
                      [Activation(FIRST, 4), Activation(a, 12)], Some(Check(9, 1)), Some(11))
    ensures Reachable(w) && Shows(w, v)
  {
    w, v := Subscribed();
    w, v := ReadAgain(w, v);
    w, v := LogArrives(w, v);
    w, v, a := AnsweredLate(w, v, 6, {});
  }

  /** The log is added and its pass begins before the session is registered. */
  lemma LogWaits() returns (w: World, v: View)
    ensures v == View(3, [0], [Visiting({}, {})], Idle, INITIAL_SUBSCRIPTION, [], [], None, None)
    ensures Reachable(w) && Shows(w, v)
  {
    w := Starts(1);
    w := Proceed(w, AddLog(LOG));
    w := Proceed(w, StartPass(0));
    w := Proceed(w, Register(SESSION));
    v := View(3, [0], [Visiting({}, {})], Idle, INITIAL_SUBSCRIPTION, [], [], None, None);
  }

  /** The iterator of the pass shows the session. */
  lemma Join(w: World, v: View) returns (v': View)
    requires Shows(w, v) && v.passes == [Visiting({}, {})] && v.check.None?
    ensures v' == v.(now := v.now + 1, passes := [Visiting({}, {SESSION})])
    ensures Enabled(w, JoinPass(0, SESSION)) && Shows(Next(w, JoinPass(0, SESSION)), v')
  {
    assert {} + {SESSION} == {SESSION};
    v' := v.(now := v.now + 1, passes := [Visiting({}, {SESSION})]);
  }

  /** It checks the session, which is subscribed by now, and sends it the log. */
  lemma ServedLate(w: World, v: View) returns (w': World)
    requires Reachable(w) && Shows(w, v) && v.passes == [Visiting({}, {SESSION})] && v.subscription == ONLINE
    ensures Reachable(w') && w'.passes == [Visiting({}, {})] && SentLive(w', SESSION, 0) && w'.answers == w.answers
  {
    w' := Proceed(w, CheckSession(0, SESSION));
    assert {SESSION} - {SESSION} == {};
    w' := Proceed(w', Send(0, true));
  }

  // ---- What they show

  /** A session that was not registered when the pass started may still be shown to it, and then
      gets a log live that its snapshot has already brought. */
  lemma LateSessionMayBeServed()
    ensures exists w: World, a: Answer :: (
              && Reachable(w) && PassOver(w, 0) && SESSION !in w.passes[0].starters
              && SentLive(w, SESSION, 0) && Sent(w, SESSION) == [a] && 0 in a.reading.snapshot)
  {
    var w, v := LogWaits();
    w, v := ReadAgain(w, v);
    var a := Answer(ReadAt(4, {0}), 5);
    v := Reply(w, v, 4, {0});
    w := Proceed(w, SendSnapshot(SESSION, true));
    w, v := SubscribedNow(w, v, a);
    v := Join(w, v);
    w := Proceed(w, JoinPass(0, SESSION));
    assert Sent(w, SESSION) == [a];
    w := ServedLate(w, v);
    assert Sent(w, SESSION) == [a];
  }

  /** A session that has been removed may be skipped by a pass that was to visit it. */
  lemma RemovedMayBeSkipped()
    ensures exists w: World :: Reachable(w) && PassOver(w, 0) && SESSION in w.passes[0].starters && (0, SESSION) !in w.checks
  {
    var w := Starts(1);
    w := Proceed(w, Register(SESSION));
    w := Proceed(w, AddLog(LOG));
    w := Proceed(w, StartPass(0));
    w := Proceed(w, Unregister(SESSION));
    w := Proceed(w, SkipRemoved(0, SESSION));
    assert {SESSION} - {SESSION} == {};
    assert PassOver(w, 0);
  }

  lemma LogIsDue(w: World, a: Answer)
    requires w.capacity == 1 && w.history == [LOG] && a.reading.hosts == a.reading.programs == [[]]
    ensures Due(w, a, 0)
  {
    RingOfLog(w);
  }

  /** Coverage does not survive the interleaving: there is a run after which a settled,
      subscribed session has never been given a log that its query would return. */
  lemma LossHappens()
    ensures exists w: World, a: Answer :: (
              && Reachable(w) && Settled(w, SESSION, 0) && IsLast(w, SESSION, a) && Due(w, a, 0)
              && !SentLive(w, SESSION, 0) && Sent(w, SESSION) == [a] && 0 !in a.reading.snapshot && !CoveredNow(w, SESSION, a))
  {
    var w, v, a := LossRun();
    LogIsDue(w, a);
    assert PassOver(w, 0) && !GivenSince(w, SESSION, a.sentAt, 0);
    assert IsLast(w, SESSION, a) && !CoveredNow(w, SESSION, a);
  }

  /** There is a run after which a log has been given twice. */
  lemma DuplicateHappens()
    ensures exists w: World, a: Answer :: (
              && Reachable(w) && Settled(w, SESSION, 0) && Sent(w, SESSION) == [a]
              && 0 in a.reading.snapshot && SentLive(w, SESSION, 0))
  {
    var w, v, a := DuplicateRun();
    assert Sent(w, SESSION) == [a];
  }

  ghost predicate CheckedBefore(w: World, a: Activation) {
    (0, SESSION) in w.checks && w.checks[(0, SESSION)].at < a.at
  }

  /** A log can come twice although its check precedes the activation: the check found an earlier
      subscription of the session. */
  lemma DuplicateOfEarlierSubscription()
    ensures exists w: World, first: Activation, next: Activation :: (
              && Reachable(w) && Settled(w, SESSION, 0) && Acts(w, SESSION) == [first, next] && CheckedBefore(w, next)
              && 0 in next.answer.reading.snapshot && SentLive(w, SESSION, 0))
  {
    var w, v, a := EarlierDuplicateRun();
    assert Acts(w, SESSION) == [v.acts[0], v.acts[1]] && CheckedBefore(w, v.acts[1]);
  }

  ghost predicate SentAfter(w: World, time: nat) {
    (0, SESSION) in w.pushedAt && time < w.pushedAt[(0, SESSION)]
  }

  /** A log that was read and checked too early for one subscription can still come after its
      snapshot, for an earlier one, so that coverage holds. */
  lemma RescueByEarlierSubscription()
    ensures exists w: World, first: Activation, next: Activation :: (
              && Reachable(w) && Settled(w, SESSION, 0) && Acts(w, SESSION) == [first, next] && CheckedBefore(w, next)
              && 0 !in next.answer.reading.snapshot && SentAfter(w, next.answer.sentAt)
              && Due(w, next.answer, 0) && CoveredNow(w, SESSION, next.answer))
  {
    var w, v, a := EarlierRescueRun();
    LogIsDue(w, a);
    assert SentAfter(w, a.sentAt) && GivenSince(w, SESSION, a.sentAt, 0);
    assert forall k: nat :: Due(w, a, k) ==> k == 0;
    assert CoveredNow(w, SESSION, a);
    assert Acts(w, SESSION) == [v.acts[0], v.acts[1]] && CheckedBefore(w, v.acts[1]);
  }
}
