/** The live log protocol with its handlers split into the steps that other threads can come
    between: adding a log to its ring, starting a broadcast pass, checking one session, sending
    to it, reading one ring for a snapshot, sending the snapshot and activating the
    subscription. Every step takes one tick of a clock, and the world records when things
    happened, so that what a client receives can be told from the order of the steps. */
module InterleavedBroadcast {
  import opened JavaText
  import opened LogModel
  import opened SessionProtocol

  datatype Pair = Pair(host: Text, program: Text)

  predicate HasPair(l: LogData) { l.host.Some? && l.program.Some? }

  function PairOf(l: LogData): Pair
    requires HasPair(l)
  {
    Pair(l.host.value, l.program.value)
  }

  /** What a request has read so far: which rings, when, and which logs (by position in the
      history) it found there. */
  datatype Reading = Reading(hosts: seq<Text>, programs: seq<Text>, readAt: map<Pair, nat>, snapshot: set<nat>) {
    predicate Asks(p: Pair) { p.host in hosts && p.program in programs }
  }

  /** A snapshot that was sent. */
  datatype Answer = Answer(reading: Reading, sentAt: nat)

  /** An answered request has sent its snapshot and is about to subscribe. */
  datatype Handler = Idle | Collecting(reading: Reading) | Answered(answer: Answer)

  /** The subscription of a request came into force, some time after its snapshot was sent. */
  datatype Activation = Activation(answer: Answer, at: nat)

  /** The broadcast pass of one log. `starters` are the sessions registered when it started. */
  datatype Pass =
    | NotStarted
    | Visiting(starters: set<Session>, todo: set<Session>)
    | Sending(starters: set<Session>, todo: set<Session>, to: Session)

  /** A session was looked at by a pass, with so many activations behind it. */
  datatype Check = Check(at: nat, activations: nat)

  datatype World = World(
    capacity: nat,
    now: nat,
    history: seq<LogData>,
    addedAt: seq<nat>,
    passes: seq<Pass>,
    registered: set<Session>,
    registeredAt: map<Session, nat>,
    subscriptions: map<Session, Subscription>,
    handlers: map<Session, Handler>,
    answers: map<Session, seq<Answer>>,
    activations: map<Session, seq<Activation>>,
    checks: map<(nat, Session), Check>,
    pushedAt: map<(nat, Session), nat>)

  function InitialWorld(capacity: nat): World {
    World(capacity, 0, [], [], [], {}, map[], map[], map[], map[], map[], map[], map[])
  }

  datatype Step =
    | Register(s: Session)
    | Unregister(s: Session)
    | StartRequest(s: Session, hosts: seq<Text>, programs: seq<Text>)
    | ReadRing(s: Session, p: Pair)
    | SendSnapshot(s: Session, works: bool)
    | Activate(s: Session)
    | AddLog(l: LogData)
    | StartPass(k: nat)
    | JoinPass(k: nat, s: Session)
    | SkipRemoved(k: nat, s: Session)
    | CheckSession(k: nat, s: Session)
    | Send(k: nat, works: bool)

  /** The positions of the logs a ring holds: those of the pair with fewer than capacity later
      logs of the pair. */
  function InRing(w: World, p: Pair): set<nat> {
    set k: nat | k < |w.history| && IsOf(w.history[k], p.host, p.program)
                 && |OfPair(w.history[k + 1..], p.host, p.program)| < w.capacity
  }

  /** When a step can happen. A session object is opened once; the iterator of a pass may or
      may not show a session registered after the pass started, and may still show one that
      has been removed. */
  predicate Enabled(w: World, step: Step) {
    match step
    case Register(s) => s !in w.subscriptions
    case Unregister(s) => s in w.registered
    case StartRequest(s, hosts, programs) => s in w.handlers && w.handlers[s].Idle? && hosts != [] && programs != []
    case ReadRing(s, p) => s in w.handlers && w.handlers[s].Collecting? && w.handlers[s].reading.Asks(p) && p !in w.handlers[s].reading.readAt
    case SendSnapshot(s, works) =>
      s in w.handlers && w.handlers[s].Collecting? && forall h, p ::
        h in w.handlers[s].reading.hosts && p in w.handlers[s].reading.programs ==> Pair(h, p) in w.handlers[s].reading.readAt
    case Activate(s) => s in w.handlers && w.handlers[s].Answered?
    case AddLog(l) => HasPair(l)
    case StartPass(k) => k < |w.passes| && w.passes[k].NotStarted?
    case JoinPass(k, s) => k < |w.passes| && w.passes[k].Visiting? && s in w.registered && s !in w.passes[k].todo && (k, s) !in w.checks
    case SkipRemoved(k, s) => k < |w.passes| && w.passes[k].Visiting? && s in w.passes[k].todo && s !in w.registered
    case CheckSession(k, s) => k < |w.passes| && w.passes[k].Visiting? && s in w.passes[k].todo
    case Send(k, works) => k < |w.passes| && w.passes[k].Sending?
  }

  function Acts(w: World, s: Session): seq<Activation> {
    if s in w.activations then w.activations[s] else []
  }

  /** All snapshots sent to a session. */
  function Sent(w: World, s: Session): seq<Answer> {
    if s in w.answers then w.answers[s] else []
  }

  predicate IsCandidateNow(w: World, k: nat, s: Session)
    requires k < |w.history|
  {
    s in w.subscriptions && w.subscriptions[s].IsBroadcastCandidateFor(w.history[k])
  }

  // ---- What a step does, field by field

  /** A failed send removes its session. */
  function NextRegistered(w: World, step: Step): set<Session>
    requires Enabled(w, step)
  {
    match step
    case Register(s) => w.registered + {s}
    case Unregister(s) => w.registered - {s}
    case Send(k, works) => if works then w.registered else w.registered - {w.passes[k].to}
    case _ => w.registered
  }

  /** Without a registration there is nothing to activate and the request ends in an error. */
  predicate Activates(w: World, step: Step) {
    step.Activate? && step.s in w.registered
  }

  function NextSubscriptions(w: World, step: Step): map<Session, Subscription>
    requires Enabled(w, step)
  {
    if step.Register? then w.subscriptions[step.s := INITIAL_SUBSCRIPTION]
    else if Activates(w, step) then
      var r := w.handlers[step.s].answer.reading;
      w.subscriptions[step.s := Subscription(r.hosts, r.programs, ONLINE_BROADCASTING)]
    else w.subscriptions
  }

  function NextActivations(w: World, step: Step): map<Session, seq<Activation>>
    requires Enabled(w, step)
  {
    if Activates(w, step) then
      w.activations[step.s := Acts(w, step.s) + [Activation(w.handlers[step.s].answer, w.now)]]
    else w.activations
  }

  /** A snapshot that cannot be sent ends its request. */
  function NextHandlers(w: World, step: Step): map<Session, Handler>
    requires Enabled(w, step)
  {
    match step
    case Register(s) => w.handlers[s := Idle]
    case StartRequest(s, hosts, programs) => w.handlers[s := Collecting(Reading(hosts, programs, map[], {}))]
    case ReadRing(s, p) =>
      var r := w.handlers[s].reading;
      w.handlers[s := Collecting(r.(readAt := r.readAt[p := w.now], snapshot := r.snapshot + InRing(w, p)))]
    case SendSnapshot(s, works) => w.handlers[s := if works then Answered(Answer(w.handlers[s].reading, w.now)) else Idle]
    case Activate(s) => w.handlers[s := Idle]
    case _ => w.handlers
  }

  function NextAnswers(w: World, step: Step): map<Session, seq<Answer>>
    requires Enabled(w, step)
  {
    if step.SendSnapshot? && step.works then
      w.answers[step.s := Sent(w, step.s) + [Answer(w.handlers[step.s].reading, w.now)]]
    else w.answers
  }

  /** A check goes on to a send when the subscription in force asks for the log. */
  function NextPasses(w: World, step: Step): seq<Pass>
    requires Enabled(w, step) && |w.passes| == |w.history|
  {
    match step
    case AddLog(l) => w.passes + [NotStarted]
    case StartPass(k) => w.passes[k := Visiting(w.registered, w.registered)]
    case JoinPass(k, s) => w.passes[k := Visiting(w.passes[k].starters, w.passes[k].todo + {s})]
    case SkipRemoved(k, s) => w.passes[k := Visiting(w.passes[k].starters, w.passes[k].todo - {s})]
    case CheckSession(k, s) =>
      var starters, todo := w.passes[k].starters, w.passes[k].todo - {s};
      w.passes[k := if IsCandidateNow(w, k, s) then Sending(starters, todo, s) else Visiting(starters, todo)]
    case Send(k, works) => w.passes[k := Visiting(w.passes[k].starters, w.passes[k].todo)]
    case _ => w.passes
  }

  function Next(w: World, step: Step): World
    requires Enabled(w, step) && |w.passes| == |w.history|
  {
    World(
      w.capacity,
      w.now + 1,
      if step.AddLog? then w.history + [step.l] else w.history,
      if step.AddLog? then w.addedAt + [w.now] else w.addedAt,
      NextPasses(w, step),
      NextRegistered(w, step),
      if step.Register? then w.registeredAt[step.s := w.now] else w.registeredAt,
      NextSubscriptions(w, step),
      NextHandlers(w, step),
      NextAnswers(w, step),
      NextActivations(w, step),
      if step.CheckSession? then w.checks[(step.k, step.s) := Check(w.now, |Acts(w, step.s)|)] else w.checks,
      if step.Send? && step.works then w.pushedAt[(step.k, w.passes[step.k].to) := w.now] else w.pushedAt)
  }

  // ---- What the order of steps says

  /** How many logs had been added before a point in time. */
  function AddsBefore(addedAt: seq<nat>, time: nat): (n: nat)
    ensures n <= |addedAt|
  {
    if addedAt == [] then 0
    else if addedAt[|addedAt| - 1] < time then |addedAt|
    else AddsBefore(addedAt[..|addedAt| - 1], time)
  }

  /** At that time the ring of log k had been written over it. */
  ghost predicate EvictedBefore(w: World, k: nat, time: nat)
    requires k < |w.history| == |w.addedAt| && HasPair(w.history[k])
  {
    var p, n := PairOf(w.history[k]), AddsBefore(w.addedAt, time);
    k < n && |OfPair(w.history[k + 1..n], p.host, p.program)| >= w.capacity
  }

  /** Log k had been added before that time and was still in its ring. */
  ghost predicate HeldAt(w: World, k: nat, time: nat)
    requires k < |w.history| == |w.addedAt| && HasPair(w.history[k])
  {
    w.addedAt[k] < time && !EvictedBefore(w, k, time)
  }

  ghost predicate Clocked(w: World) {
    && |w.addedAt| == |w.history| == |w.passes|
    && (forall k :: 0 <= k < |w.history| ==> HasPair(w.history[k]) && w.addedAt[k] < w.now)
    && (forall j, k :: 0 <= j < k < |w.addedAt| ==> w.addedAt[j] < w.addedAt[k])
  }

  /** A reading found exactly the logs that their rings held when they were read. */
  ghost predicate ReadingOk(w: World, r: Reading)
    requires Clocked(w)
  {
    && (forall p :: p in r.readAt ==> r.Asks(p) && r.readAt[p] < w.now)
    && (forall k :: k in r.snapshot ==> k < |w.history|)
    && (forall k :: 0 <= k < |w.history| ==>
          (k in r.snapshot <==> PairOf(w.history[k]) in r.readAt && HeldAt(w, k, r.readAt[PairOf(w.history[k])])))
  }

  ghost predicate ReadAll(r: Reading) {
    forall h, p :: h in r.hosts && p in r.programs ==> Pair(h, p) in r.readAt
  }

  /** A sent snapshot holds what its rings held, and all of them were read before. */
  ghost predicate AnswerOk(w: World, a: Answer)
    requires Clocked(w)
  {
    && ReadingOk(w, a.reading) && ReadAll(a.reading) && a.sentAt < w.now
    && forall p :: p in a.reading.readAt ==> a.reading.readAt[p] < a.sentAt
  }

  ghost predicate HandlerOk(w: World, h: Handler)
    requires Clocked(w)
  {
    match h
    case Idle => true
    case Collecting(r) => ReadingOk(w, r)
    case Answered(a) => AnswerOk(w, a)
  }

  ghost predicate HandlersOk(w: World)
    requires Clocked(w)
  {
    forall s :: s in w.handlers ==> HandlerOk(w, w.handlers[s])
  }

  ghost predicate ActivationOk(w: World, a: Activation)
    requires Clocked(w)
  {
    AnswerOk(w, a.answer) && a.answer.sentAt < a.at < w.now
  }

  ghost predicate ActsOk(w: World, acts: seq<Activation>)
    requires Clocked(w)
  {
    && (forall i :: 0 <= i < |acts| ==> ActivationOk(w, acts[i]))
    && (forall i, j :: 0 <= i < j < |acts| ==> acts[i].at < acts[j].at)
  }

  ghost predicate ActivationsOk(w: World)
    requires Clocked(w)
  {
    forall s :: s in w.activations ==> ActsOk(w, w.activations[s])
  }

  /** The subscription in force is that of the last activation. */
  ghost predicate SubscriptionOk(w: World, s: Session)
    requires s in w.subscriptions
  {
    var acts := Acts(w, s);
    if acts == [] then w.subscriptions[s] == INITIAL_SUBSCRIPTION
    else var r := acts[|acts| - 1].answer.reading; w.subscriptions[s] == Subscription(r.hosts, r.programs, ONLINE_BROADCASTING)
  }

  ghost predicate SubscriptionsOk(w: World) {
    && w.registered <= w.subscriptions.Keys && w.activations.Keys <= w.subscriptions.Keys
    && forall s :: s in w.subscriptions ==> SubscriptionOk(w, s)
  }

  /** A check counts the activations that precede it. */
  ghost predicate CheckOk(w: World, k: nat, s: Session, c: Check) {
    && k < |w.addedAt| && w.addedAt[k] < c.at < w.now
    && c.activations <= |Acts(w, s)|
    && forall i :: 0 <= i < |Acts(w, s)| ==> (Acts(w, s)[i].at < c.at <==> i < c.activations)
  }

  /** Log k matched the subscription in force when its pass checked s. */
  ghost predicate MatchedAtCheck(w: World, k: nat, s: Session)
    requires (k, s) in w.checks && k < |w.history|
  {
    var n := w.checks[(k, s)].activations;
    0 < n <= |Acts(w, s)| && var r := Acts(w, s)[n - 1].answer.reading; Matches(w.history[k], r.hosts, r.programs)
  }

  ghost predicate ChecksOk(w: World) {
    forall k, s :: (k, s) in w.checks ==> CheckOk(w, k, s, w.checks[(k, s)])
  }

  ghost predicate PushedOk(w: World)
    requires |w.addedAt| == |w.history|
  {
    forall k, s :: (k, s) in w.pushedAt ==>
      && k < |w.history| && (k, s) in w.checks && MatchedAtCheck(w, k, s)
      && w.checks[(k, s)].at < w.pushedAt[(k, s)] < w.now
  }

  ghost predicate IsSendingTo(pass: Pass, s: Session) { pass.Sending? && pass.to == s }

  ghost predicate SentOrLeaving(w: World, k: nat, s: Session)
    requires k < |w.passes|
  {
    s !in w.registered || (k, s) in w.pushedAt || IsSendingTo(w.passes[k], s)
  }

  /** A matching session that is still registered has been sent the log, or is about to be. */
  ghost predicate SendsOk(w: World)
    requires |w.addedAt| == |w.history| == |w.passes|
  {
    && (forall k, s :: (k, s) in w.checks && k < |w.history| && MatchedAtCheck(w, k, s) ==> SentOrLeaving(w, k, s))
    && (forall k :: 0 <= k < |w.passes| && w.passes[k].Sending? ==>
          (k, w.passes[k].to) in w.checks && MatchedAtCheck(w, k, w.passes[k].to))
  }

  ghost predicate Visits(w: World, k: nat, s: Session)
    requires k < |w.passes| && !w.passes[k].NotStarted?
  {
    s !in w.registered || s in w.passes[k].todo || (k, s) in w.checks
  }

  /** A pass has checked, or will check, every session registered at its start that is still
      registered. */
  ghost predicate PassesOk(w: World) {
    forall k, s :: 0 <= k < |w.passes| && !w.passes[k].NotStarted? && s in w.passes[k].starters ==> Visits(w, k, s)
  }

  ghost predicate PassKnown(w: World, pass: Pass) {
    pass.NotStarted? || (pass.starters <= w.subscriptions.Keys && pass.todo <= w.subscriptions.Keys)
  }

  /** Whatever a pass has to do with has been registered once. */
  ghost predicate Known(w: World) {
    && (forall k, s :: (k, s) in w.checks ==> s in w.subscriptions)
    && (forall k :: 0 <= k < |w.passes| ==> PassKnown(w, w.passes[k]))
  }

  /** A pass checks a session at most once. */
  ghost predicate Once(w: World) {
    forall k, s :: (k, s) in w.checks ==> k < |w.passes| && !w.passes[k].NotStarted? && s !in w.passes[k].todo
  }

  /** A session has read its rings after it was registered. */
  ghost predicate ReadSince(w: World, s: Session, r: Reading) {
    s in w.registeredAt && forall p :: p in r.readAt ==> w.registeredAt[s] < r.readAt[p]
  }

  ghost predicate ReadingsOk(w: World) {
    && (forall s :: s in w.registeredAt ==> w.registeredAt[s] < w.now)
    && w.handlers.Keys <= w.registeredAt.Keys <= w.subscriptions.Keys
    && (forall s :: s in w.handlers && w.handlers[s].Collecting? ==> ReadSince(w, s, w.handlers[s].reading))
  }

  ghost predicate SentTo(w: World, s: Session, a: Answer)
    requires Clocked(w)
  {
    AnswerOk(w, a) && ReadSince(w, s, a.reading)
  }

  /** Every subscription, in force or about to be, follows a snapshot that was sent. */
  ghost predicate AnswersOk(w: World)
    requires Clocked(w)
  {
    && (forall s, i :: s in w.answers && 0 <= i < |w.answers[s]| ==> SentTo(w, s, w.answers[s][i]))
    && (forall s :: s in w.handlers && w.handlers[s].Answered? ==> w.handlers[s].answer in Sent(w, s))
    && (forall s, i :: s in w.activations && 0 <= i < |w.activations[s]| ==> w.activations[s][i].answer in Sent(w, s))
  }

  /** A session's requests follow one another: each snapshot that is about to subscribe, or has, was
      sent after the activation before. */
  ghost predicate TurnsOk(w: World, s: Session) {
    && (forall i, j :: 0 <= i < j < |Acts(w, s)| ==> Acts(w, s)[i].at < Acts(w, s)[j].answer.sentAt)
    && (s in w.handlers && w.handlers[s].Answered? ==>
          forall i :: 0 <= i < |Acts(w, s)| ==> Acts(w, s)[i].at < w.handlers[s].answer.sentAt)
  }

  ghost predicate AllTurnsOk(w: World) {
    forall s :: TurnsOk(w, s)
  }

  /** The pass of a log added after the session was registered starts with that session. */
  ghost predicate StartsWith(w: World, k: nat, s: Session)
    requires |w.addedAt| == |w.passes| && k < |w.passes| && !w.passes[k].NotStarted?
  {
    s in w.registered && s in w.registeredAt && w.registeredAt[s] < w.addedAt[k] ==> s in w.passes[k].starters
  }

  ghost predicate StartersOk(w: World)
    requires |w.addedAt| == |w.passes|
  {
    forall k, s :: 0 <= k < |w.passes| && !w.passes[k].NotStarted? ==> StartsWith(w, k, s)
  }

  ghost predicate Inv(w: World) {
    && Clocked(w) && Known(w) && Once(w) && HandlersOk(w) && ActivationsOk(w) && SubscriptionsOk(w)
    && ReadingsOk(w) && AnswersOk(w) && AllTurnsOk(w) && StartersOk(w) && ChecksOk(w) && PushedOk(w) && SendsOk(w) && PassesOk(w)
  }

  // ---- Every step keeps the invariant

  lemma AddsBeforeAll(addedAt: seq<nat>, time: nat)
    requires forall i :: 0 <= i < |addedAt| ==> addedAt[i] < time
    ensures AddsBefore(addedAt, time) == |addedAt|
  {
  }

  lemma AddsBeforeSnoc(addedAt: seq<nat>, added: nat, time: nat)
    requires time <= added
    ensures AddsBefore(addedAt + [added], time) == AddsBefore(addedAt, time)
  {
    assert (addedAt + [added])[..|addedAt|] == addedAt;
  }

  /** w' is w after time has passed and at most one log has been added. */
  ghost predicate Later(w: World, w': World) {
    && w'.capacity == w.capacity && w.now <= w'.now
    && (|| (w'.history == w.history && w'.addedAt == w.addedAt)
        || exists l: LogData :: w'.history == w.history + [l] && w'.addedAt == w.addedAt + [w.now])
  }

  lemma HeldAtLater(w: World, w': World, k: nat, time: nat)
    requires Clocked(w) && Clocked(w') && Later(w, w') && k < |w.history| && time <= w.now
    ensures HeldAt(w', k, time) == HeldAt(w, k, time)
  {
    if w'.addedAt != w.addedAt {
      var l: LogData :| w'.history == w.history + [l] && w'.addedAt == w.addedAt + [w.now];
      AddsBeforeSnoc(w.addedAt, w.now, time);
      var n := AddsBefore(w.addedAt, time);
      if k < n { SliceOfSnoc(w.history, l, k + 1, n); }
    }
  }

  lemma SliceOfSnoc<T>(s: seq<T>, x: T, from: nat, to: nat)
    requires from <= to <= |s|
    ensures (s + [x])[from..to] == s[from..to]
  {
  }

  lemma ReadingLater(w: World, w': World, r: Reading)
    requires Clocked(w) && Clocked(w') && Later(w, w') && ReadingOk(w, r)
    ensures ReadingOk(w', r)
  {
    forall k | 0 <= k < |w'.history|
      ensures k in r.snapshot <==> PairOf(w'.history[k]) in r.readAt && HeldAt(w', k, r.readAt[PairOf(w'.history[k])])
    {
      if k < |w.history| {
        assert w'.history[k] == w.history[k];
        if PairOf(w.history[k]) in r.readAt { HeldAtLater(w, w', k, r.readAt[PairOf(w.history[k])]); }
      }
    }
  }

  /** Reading a ring finds what it holds at that moment. */
  lemma ReadingExtended(w: World, w': World, r: Reading, p: Pair)
    requires Clocked(w) && Clocked(w') && Later(w, w') && w'.history == w.history && w.now < w'.now
    requires ReadingOk(w, r) && r.Asks(p) && p !in r.readAt
    ensures ReadingOk(w', r.(readAt := r.readAt[p := w.now], snapshot := r.snapshot + InRing(w, p)))
  {
    ReadingLater(w, w', r);
    AddsBeforeAll(w.addedAt, w.now);
    forall k | 0 <= k < |w.history| && PairOf(w.history[k]) == p
      ensures k in InRing(w, p) <==> HeldAt(w', k, w.now)
    {
      HeldAtLater(w, w', k, w.now);
      assert w.history[k + 1..|w.history|] == w.history[k + 1..];
    }
  }

  lemma AnswerLater(w: World, w': World, a: Answer)
    requires Clocked(w) && Clocked(w') && Later(w, w') && AnswerOk(w, a)
    ensures AnswerOk(w', a)
  {
    ReadingLater(w, w', a.reading);
  }

  /** A snapshot is sent once all rings have been read. */
  lemma AnswerSent(w: World, w': World, r: Reading)
    requires Clocked(w) && Clocked(w') && Later(w, w') && w.now < w'.now && ReadingOk(w, r) && ReadAll(r)
    ensures AnswerOk(w', Answer(r, w.now))
  {
    ReadingLater(w, w', r);
  }

  lemma HandlerLater(w: World, w': World, h: Handler)
    requires Clocked(w) && Clocked(w') && Later(w, w') && HandlerOk(w, h)
    ensures HandlerOk(w', h)
  {
    match h
    case Idle =>
    case Collecting(r) => ReadingLater(w, w', r);
    case Answered(a) => AnswerLater(w, w', a);
  }

  lemma KeepsHandlers(w: World, step: Step)
    requires Clocked(w) && Enabled(w, step) && HandlersOk(w) && Clocked(Next(w, step)) && Later(w, Next(w, step))
    requires w.now < Next(w, step).now
    ensures HandlersOk(Next(w, step))
  {
    var w' := Next(w, step);
    forall s | s in w'.handlers ensures HandlerOk(w', w'.handlers[s]) {
      if s in w.handlers {
        HandlerLater(w, w', w.handlers[s]);
        match step {
          case ReadRing(s', p) => if s' == s { ReadingExtended(w, w', w.handlers[s].reading, p); }
          case SendSnapshot(s', _) => if s' == s { AnswerSent(w, w', w.handlers[s].reading); }
          case _ =>
        }
      }
      if step.StartRequest? && step.s == s { assert ReadingOk(w', w'.handlers[s].reading); }
    }
  }

  lemma KeepsClock(w: World, step: Step)
    requires Clocked(w) && Enabled(w, step)
    ensures Clocked(Next(w, step)) && Later(w, Next(w, step)) && Next(w, step).now == w.now + 1
  {
    if step.AddLog? { assert Next(w, step).history == w.history + [step.l]; }
  }

  lemma ActsLater(w: World, w': World, acts: seq<Activation>)
    requires Clocked(w) && Clocked(w') && Later(w, w') && ActsOk(w, acts)
    ensures ActsOk(w', acts)
  {
    forall i | 0 <= i < |acts| ensures ActivationOk(w', acts[i]) {
      assert ActivationOk(w, acts[i]);
      AnswerLater(w, w', acts[i].answer);
    }
  }

  lemma ActsAppended(w: World, w': World, acts: seq<Activation>, a: Answer)
    requires Clocked(w) && Clocked(w') && Later(w, w') && w.now < w'.now && ActsOk(w, acts) && AnswerOk(w, a)
    ensures ActsOk(w', acts + [Activation(a, w.now)])
  {
    ActsLater(w, w', acts);
    AnswerLater(w, w', a);
    forall i | 0 <= i < |acts| ensures acts[i].at < w.now { assert ActivationOk(w, acts[i]); }
  }

  lemma KeepsActivations(w: World, step: Step)
    requires Clocked(w) && Enabled(w, step) && HandlersOk(w) && ActivationsOk(w)
    requires Clocked(Next(w, step)) && Later(w, Next(w, step)) && w.now < Next(w, step).now
    ensures ActivationsOk(Next(w, step))
  {
    Untouched(w, step);
    var w' := Next(w, step);
    forall s | s in w'.activations ensures ActsOk(w', w'.activations[s]) {
      ActsLater(w, w', Acts(w, s));
      if step.Activate? && step.s == s { ActsAppended(w, w', Acts(w, s), w.handlers[s].answer); }
    }
  }

  /** Which fields a step leaves alone. */
  lemma Untouched(w: World, step: Step)
    requires Clocked(w) && Enabled(w, step)
    ensures !step.Activate? ==> Next(w, step).activations == w.activations
    ensures !step.Activate? && !step.Register? ==> Next(w, step).subscriptions == w.subscriptions
    ensures !step.Register? ==> Next(w, step).registered <= w.registered
    ensures !step.SendSnapshot? ==> Next(w, step).answers == w.answers
    ensures !step.CheckSession? ==> Next(w, step).checks == w.checks
    ensures !step.Send? ==> Next(w, step).pushedAt == w.pushedAt
    ensures !step.Register? ==> Next(w, step).registeredAt == w.registeredAt
    ensures w.subscriptions.Keys <= Next(w, step).subscriptions.Keys
    ensures w.history <= Next(w, step).history
  {
  }

  lemma KeepsSubscription(w: World, step: Step, s: Session)
    requires Clocked(w) && Enabled(w, step) && SubscriptionsOk(w) && s in Next(w, step).subscriptions
    ensures SubscriptionOk(Next(w, step), s)
  {
    if s in w.subscriptions { assert SubscriptionOk(w, s); }
  }

  lemma KeepsSubscriptions(w: World, step: Step)
    requires Clocked(w) && Enabled(w, step) && SubscriptionsOk(w)
    ensures SubscriptionsOk(Next(w, step))
  {
    forall s | s in Next(w, step).subscriptions ensures SubscriptionOk(Next(w, step), s) {
      KeepsSubscription(w, step, s);
    }
    Untouched(w, step);
  }

  lemma ActsAfter(w: World, step: Step, s: Session)
    requires Clocked(w) && Enabled(w, step)
    ensures Acts(Next(w, step), s) == Acts(w, s)
         || exists a :: Acts(Next(w, step), s) == Acts(w, s) + [Activation(a, w.now)]
  {
  }

  lemma KeepsOldCheck(w: World, step: Step, k: nat, s: Session, c: Check)
    requires Clocked(w) && Enabled(w, step) && CheckOk(w, k, s, c)
    ensures CheckOk(Next(w, step), k, s, c)
  {
    KeepsClock(w, step);
    ActsAfter(w, step, s);
  }

  lemma NewCheck(w: World, step: Step)
    requires Clocked(w) && Enabled(w, step) && ActivationsOk(w) && step.CheckSession?
    ensures CheckOk(Next(w, step), step.k, step.s, Check(w.now, |Acts(w, step.s)|))
  {
    var acts := Acts(w, step.s);
    assert ActsOk(w, acts);
    forall i | 0 <= i < |acts| ensures acts[i].at < w.now { assert ActivationOk(w, acts[i]); }
  }

  lemma KeepsChecks(w: World, step: Step)
    requires Clocked(w) && Enabled(w, step) && ActivationsOk(w) && ChecksOk(w)
    ensures ChecksOk(Next(w, step))
  {
    Untouched(w, step);
    var w' := Next(w, step);
    forall k, s | (k, s) in w'.checks ensures CheckOk(w', k, s, w'.checks[(k, s)]) {
      if step.CheckSession? && step.k == k && step.s == s {
        NewCheck(w, step);
      } else {
        KeepsOldCheck(w, step, k, s, w.checks[(k, s)]);
      }
    }
  }

  /** The pass a step works on. */
  function PassStep(step: Step): Option<nat> {
    match step
    case StartPass(k) => Some(k)
    case JoinPass(k, _) => Some(k)
    case SkipRemoved(k, _) => Some(k)
    case CheckSession(k, _) => Some(k)
    case Send(k, _) => Some(k)
    case _ => None
  }

  lemma OtherPassesUntouched(w: World, step: Step)
    requires Clocked(w) && Enabled(w, step)
    ensures |w.passes| <= |Next(w, step).passes|
    ensures forall k :: 0 <= k < |Next(w, step).passes| && PassStep(step) != Some(k) ==>
              Next(w, step).passes[k] == if k < |w.passes| then w.passes[k] else NotStarted
  {
  }

  lemma KeepsPassKnown(w: World, step: Step, k: nat)
    requires Clocked(w) && Enabled(w, step) && w.registered <= w.subscriptions.Keys
    requires k < |w.passes| ==> PassKnown(w, w.passes[k])
    requires k < |Next(w, step).passes|
    ensures PassKnown(Next(w, step), Next(w, step).passes[k])
  {
    Untouched(w, step);
    OtherPassesUntouched(w, step);
  }

  lemma KeepsKnown(w: World, step: Step)
    requires Clocked(w) && Enabled(w, step) && SubscriptionsOk(w) && Known(w)
    ensures Known(Next(w, step))
  {
    forall k | 0 <= k < |Next(w, step).passes| ensures PassKnown(Next(w, step), Next(w, step).passes[k]) {
      KeepsPassKnown(w, step, k);
    }
    Untouched(w, step);
  }

  lemma KeepsOnce(w: World, step: Step)
    requires Clocked(w) && Enabled(w, step) && Once(w)
    ensures Once(Next(w, step))
  {
    Untouched(w, step);
    OtherPassesUntouched(w, step);
  }

  lemma KeepsPasses(w: World, step: Step)
    requires Clocked(w) && Enabled(w, step) && Known(w) && PassesOk(w) && w.registered <= w.subscriptions.Keys
    ensures PassesOk(Next(w, step))
  {
    Untouched(w, step);
    OtherPassesUntouched(w, step);
    var w' := Next(w, step);
    forall k, s | 0 <= k < |w'.passes| && !w'.passes[k].NotStarted? && s in w'.passes[k].starters ensures Visits(w', k, s) {
      if !w.passes[k].NotStarted? { assert PassKnown(w, w.passes[k]) && Visits(w, k, s); }
    }
  }

  /** What a check found does not change. */
  lemma KeepsMatch(w: World, step: Step, k: nat, s: Session)
    requires Clocked(w) && Enabled(w, step) && ChecksOk(w) && Once(w) && (k, s) in w.checks
    ensures k < |w.history| && Next(w, step).checks.Keys >= w.checks.Keys
    ensures Next(w, step).checks[(k, s)] == w.checks[(k, s)]
    ensures MatchedAtCheck(Next(w, step), k, s) == MatchedAtCheck(w, k, s)
  {
    assert CheckOk(w, k, s, w.checks[(k, s)]);
    Untouched(w, step);
    ActsAfter(w, step, s);
  }

  lemma KeepsPushed(w: World, step: Step)
    requires Clocked(w) && Enabled(w, step) && ChecksOk(w) && Once(w) && PushedOk(w) && SendsOk(w)
    ensures Clocked(Next(w, step)) ==> PushedOk(Next(w, step))
  {
    Untouched(w, step);
    var w' := Next(w, step);
    forall k, s | (k, s) in w'.pushedAt
      ensures k < |w'.history| && (k, s) in w'.checks && MatchedAtCheck(w', k, s)
      ensures w'.checks[(k, s)].at < w'.pushedAt[(k, s)] < w'.now
    {
      assert (k, s) in w.checks && MatchedAtCheck(w, k, s);
      assert CheckOk(w, k, s, w.checks[(k, s)]);
      KeepsMatch(w, step, k, s);
    }
  }

  /** The check of a session sends exactly when the subscription in force matches. */
  lemma FreshCheck(w: World, k: nat, s: Session)
    requires Clocked(w) && SubscriptionsOk(w) && Known(w) && Enabled(w, CheckSession(k, s))
    ensures MatchedAtCheck(Next(w, CheckSession(k, s)), k, s) == IsCandidateNow(w, k, s)
  {
    assert PassKnown(w, w.passes[k]);
    assert SubscriptionOk(w, s);
  }

  lemma StillSending(w: World, step: Step, k: nat)
    requires Clocked(w) && Enabled(w, step) && !(step.CheckSession? && step.k == k)
    requires k < |Next(w, step).passes| && Next(w, step).passes[k].Sending?
    ensures k < |w.passes| && Next(w, step).passes[k] == w.passes[k]
  {
    OtherPassesUntouched(w, step);
  }

  lemma KeepsSending(w: World, step: Step, k: nat)
    requires Clocked(w) && Enabled(w, step) && Known(w) && ChecksOk(w) && Once(w) && SubscriptionsOk(w) && SendsOk(w)
    requires k < |Next(w, step).passes| && Next(w, step).passes[k].Sending?
    ensures k < |Next(w, step).history|
    ensures var w' := Next(w, step); (k, w'.passes[k].to) in w'.checks && MatchedAtCheck(w', k, w'.passes[k].to)
  {
    if step.CheckSession? && step.k == k {
      FreshCheck(w, k, step.s);
    } else {
      StillSending(w, step, k);
      KeepsMatch(w, step, k, w.passes[k].to);
    }
  }

  lemma KeepsOldSent(w: World, step: Step, k: nat, s: Session)
    requires Clocked(w) && Enabled(w, step) && k < |w.passes| && SentOrLeaving(w, k, s)
    requires w.registered <= w.subscriptions.Keys && s in w.subscriptions
    ensures k < |Next(w, step).passes| && SentOrLeaving(Next(w, step), k, s)
  {
    Untouched(w, step);
    OtherPassesUntouched(w, step);
  }

  lemma NewSent(w: World, k: nat, s: Session)
    requires Clocked(w) && Enabled(w, CheckSession(k, s)) && IsCandidateNow(w, k, s)
    ensures SentOrLeaving(Next(w, CheckSession(k, s)), k, s)
  {
  }

  lemma KeepsSent(w: World, step: Step, k: nat, s: Session)
    requires Clocked(w) && Enabled(w, step) && Known(w) && ChecksOk(w) && Once(w) && SubscriptionsOk(w) && SendsOk(w)
    requires w.registered <= w.subscriptions.Keys
    requires (k, s) in Next(w, step).checks && k < |Next(w, step).history| && MatchedAtCheck(Next(w, step), k, s)
    ensures k < |Next(w, step).passes| && SentOrLeaving(Next(w, step), k, s)
  {
    if (k, s) in w.checks {
      KeepsMatch(w, step, k, s);
      KeepsOldSent(w, step, k, s);
    } else {
      Untouched(w, step);
      assert step == CheckSession(k, s);
      FreshCheck(w, k, s);
      NewSent(w, k, s);
    }
  }

  lemma KeepsSends(w: World, step: Step)
    requires Clocked(w) && Enabled(w, step) && Known(w) && ChecksOk(w) && Once(w) && SubscriptionsOk(w) && SendsOk(w)
    requires w.registered <= w.subscriptions.Keys && Clocked(Next(w, step))
    ensures SendsOk(Next(w, step))
  {
    var w' := Next(w, step);
    forall k, s | (k, s) in w'.checks && k < |w'.history| && MatchedAtCheck(w', k, s) ensures SentOrLeaving(w', k, s) {
      KeepsSent(w, step, k, s);
    }
    forall k | 0 <= k < |w'.passes| && w'.passes[k].Sending?
      ensures (k, w'.passes[k].to) in w'.checks && MatchedAtCheck(w', k, w'.passes[k].to)
    {
      KeepsSending(w, step, k);
    }
  }

  lemma ReadSinceLater(w: World, step: Step, s: Session, r: Reading)
    requires Clocked(w) && Enabled(w, step) && ReadingsOk(w) && ReadSince(w, s, r)
    ensures ReadSince(Next(w, step), s, r)
  {
    Untouched(w, step);
  }

  lemma KeepsReadings(w: World, step: Step)
    requires Clocked(w) && Enabled(w, step) && ReadingsOk(w)
    ensures ReadingsOk(Next(w, step))
  {
    Untouched(w, step);
    var w' := Next(w, step);
    forall s | s in w'.handlers && w'.handlers[s].Collecting? ensures ReadSince(w', s, w'.handlers[s].reading) {
      if s in w.handlers && w.handlers[s].Collecting? { ReadSinceLater(w, step, s, w.handlers[s].reading); }
    }
  }

  lemma SentAfter(w: World, step: Step, s: Session)
    requires Clocked(w) && Enabled(w, step)
    ensures (Sent(Next(w, step), s)
             == Sent(w, s) + (if step.SendSnapshot? && step.works && step.s == s
                              then [Answer(w.handlers[s].reading, w.now)] else []))
  {
  }

  lemma KeepsSentTo(w: World, step: Step, s: Session, i: nat)
    requires Clocked(w) && Enabled(w, step) && HandlersOk(w) && ReadingsOk(w) && AnswersOk(w)
    requires Clocked(Next(w, step)) && Later(w, Next(w, step)) && w.now < Next(w, step).now
    requires i < |Sent(Next(w, step), s)|
    ensures SentTo(Next(w, step), s, Sent(Next(w, step), s)[i])
  {
    SentAfter(w, step, s);
    var w' := Next(w, step);
    if i < |Sent(w, s)| {
      assert SentTo(w, s, w.answers[s][i]);
      AnswerLater(w, w', w.answers[s][i]);
      ReadSinceLater(w, step, s, w.answers[s][i].reading);
    } else {
      AnswerSent(w, w', w.handlers[s].reading);
      ReadSinceLater(w, step, s, w.handlers[s].reading);
    }
  }

  lemma KeepsAnswered(w: World, step: Step, s: Session)
    requires Clocked(w) && Enabled(w, step) && AnswersOk(w)
    ensures var w' := Next(w, step); s in w'.handlers && w'.handlers[s].Answered? ==> w'.handlers[s].answer in Sent(w', s)
  {
    SentAfter(w, step, s);
  }

  lemma KeepsActivated(w: World, step: Step, s: Session, i: nat)
    requires Clocked(w) && Enabled(w, step) && AnswersOk(w)
    requires i < |Acts(Next(w, step), s)|
    ensures Acts(Next(w, step), s)[i].answer in Sent(Next(w, step), s)
  {
    SentAfter(w, step, s);
    if i < |Acts(w, s)| { assert w.activations[s][i].answer in Sent(w, s); }
  }

  lemma KeepsAnswers(w: World, step: Step)
    requires Clocked(w) && Enabled(w, step) && HandlersOk(w) && ReadingsOk(w) && AnswersOk(w)
    requires Clocked(Next(w, step)) && Later(w, Next(w, step)) && w.now < Next(w, step).now
    ensures AnswersOk(Next(w, step))
  {
    var w' := Next(w, step);
    forall s, i: nat | s in w'.answers && i < |w'.answers[s]| ensures SentTo(w', s, w'.answers[s][i]) {
      KeepsSentTo(w, step, s, i);
    }
    forall s | s in w'.handlers && w'.handlers[s].Answered? ensures w'.handlers[s].answer in Sent(w', s) {
      KeepsAnswered(w, step, s);
    }
    forall s, i: nat | s in w'.activations && i < |w'.activations[s]| ensures w'.activations[s][i].answer in Sent(w', s) {
      KeepsActivated(w, step, s, i);
    }
  }

  lemma KeepsTurns(w: World, step: Step, s: Session)
    requires Clocked(w) && Enabled(w, step) && ActivationsOk(w) && TurnsOk(w, s)
    ensures TurnsOk(Next(w, step), s)
  {
    ActsAfter(w, step, s);
    assert ActsOk(w, Acts(w, s));
    forall i | 0 <= i < |Acts(w, s)| ensures Acts(w, s)[i].at < w.now { assert ActivationOk(w, Acts(w, s)[i]); }
  }

  lemma KeepsStarters(w: World, step: Step)
    requires Clocked(w) && Enabled(w, step) && StartersOk(w) && w.registered <= w.subscriptions.Keys
    requires Clocked(Next(w, step))
    ensures StartersOk(Next(w, step))
  {
    Untouched(w, step);
    OtherPassesUntouched(w, step);
    var w' := Next(w, step);
    forall k, s | 0 <= k < |w'.passes| && !w'.passes[k].NotStarted? ensures StartsWith(w', k, s) {
      if !w.passes[k].NotStarted? { assert StartsWith(w, k, s); }
    }
  }

  lemma StepKeepsInv(w: World, step: Step)
    requires Inv(w) && Enabled(w, step)
    ensures Inv(Next(w, step))
  {
    KeepsClock(w, step);
    KeepsHandlers(w, step);
    KeepsActivations(w, step);
    KeepsSubscriptions(w, step);
    KeepsChecks(w, step);
    KeepsKnown(w, step);
    KeepsOnce(w, step);
    KeepsPasses(w, step);
    KeepsPushed(w, step);
    KeepsSends(w, step);
    KeepsReadings(w, step);
    KeepsAnswers(w, step);
    forall s ensures TurnsOk(Next(w, step), s) { KeepsTurns(w, step, s); }
    KeepsStarters(w, step);
  }
}
