/** What the interleaved handlers deliver: for every log and every subscription of a session,
    exactly when the log is in the snapshot, when it is sent live, when it is delivered twice
    and when it is lost. */
module BroadcastFates {
  import opened JavaText
  import opened LogModel
  import opened SessionProtocol
  import opened InterleavedBroadcast

  ghost predicate Follows(w: World, step: Step, next: World) {
    |w.passes| == |w.history| && Enabled(w, step) && next == Next(w, step)
  }

  ghost predicate StepAt(worlds: seq<World>, steps: seq<Step>, i: nat)
    requires |worlds| == |steps| + 1 && i < |steps|
  {
    Follows(worlds[i], steps[i], worlds[i + 1])
  }

  /** Worlds that follow one another from an initial one on. */
  ghost predicate IsRun(worlds: seq<World>, steps: seq<Step>) {
    && |worlds| == |steps| + 1 && worlds[0] == InitialWorld(worlds[0].capacity)
    && forall i :: 0 <= i < |steps| ==> StepAt(worlds, steps, i)
  }

  ghost predicate Reachable(w: World) {
    exists worlds, steps :: IsRun(worlds, steps) && worlds[|steps|] == w
  }

  lemma {:induction false} InvAlong(worlds: seq<World>, steps: seq<Step>, n: nat)
    requires IsRun(worlds, steps) && n <= |steps|
    ensures Inv(worlds[n])
  {
    if n == 0 {
      InitialInv(worlds[0].capacity);
    } else {
      InvAlong(worlds, steps, n - 1);
      assert StepAt(worlds, steps, n - 1);
      StepKeepsInv(worlds[n - 1], steps[n - 1]);
    }
  }

  lemma InitialInv(capacity: nat)
    ensures Inv(InitialWorld(capacity))
  {
  }

  /** Every interleaving of the handlers' steps keeps the invariant. */
  lemma ReachableInv(w: World)
    requires Reachable(w)
    ensures Inv(w)
  {
    var worlds, steps :| IsRun(worlds, steps) && worlds[|steps|] == w;
    InvAlong(worlds, steps, |steps|);
  }

  lemma Starts(capacity: nat) returns (w: World)
    ensures w == InitialWorld(capacity) && Reachable(w)
  {
    w := InitialWorld(capacity);
    var steps: seq<Step> := [];
    assert IsRun([w], steps) && [w][|steps|] == w;
  }

  lemma Proceed(w: World, step: Step) returns (next: World)
    requires Reachable(w) && |w.passes| == |w.history| && Enabled(w, step)
    ensures next == Next(w, step) && Reachable(next)
  {
    var worlds, steps :| IsRun(worlds, steps) && worlds[|steps|] == w;
    next := Next(w, step);
    Extends(worlds, steps, step, next);
  }

  lemma Extends(worlds: seq<World>, steps: seq<Step>, step: Step, next: World)
    requires IsRun(worlds, steps) && Follows(worlds[|steps|], step, next)
    ensures Reachable(next)
  {
    var longer, all := worlds + [next], steps + [step];
    forall i | 0 <= i < |all| ensures StepAt(longer, all, i) {
      if i < |steps| { assert StepAt(worlds, steps, i); }
    }
    assert IsRun(longer, all) && longer[|all|] == next;
  }

  ghost predicate Sized(w: World) {
    |w.history| == |w.addedAt| == |w.passes|
  }

  /** The request behind the reading asks for log k. */
  ghost predicate AsksFor(w: World, r: Reading, k: nat) {
    k < |w.history| && Matches(w.history[k], r.hosts, r.programs)
  }

  /** The time at which the ring of log k was read. */
  ghost function ReadTime(w: World, r: Reading, k: nat): nat
    requires AsksFor(w, r, k)
  {
    var p := PairOf(w.history[k]);
    if p in r.readAt then r.readAt[p] else 0
  }

  /** The log was sent live, whatever subscription it was sent for. */
  ghost predicate SentLive(w: World, s: Session, k: nat) {
    (k, s) in w.pushedAt
  }

  /** Activation j is the session's last one before that time. */
  ghost predicate InForce(w: World, s: Session, j: nat, time: nat)
    requires j < |Acts(w, s)|
  {
    Acts(w, s)[j].at < time && (j + 1 < |Acts(w, s)| ==> time <= Acts(w, s)[j + 1].at)
  }

  /** When the pass of log k checked the session, the subscription of activation j was in force
      and asked for it. */
  ghost predicate AskedAtCheck(w: World, s: Session, j: nat, k: nat) {
    && j < |Acts(w, s)| && AsksFor(w, Acts(w, s)[j].answer.reading, k)
    && (k, s) in w.checks && InForce(w, s, j, w.checks[(k, s)].at)
  }

  ghost predicate PassOver(w: World, k: nat) {
    k < |w.passes| && w.passes[k].Visiting? && w.passes[k].todo == {}
  }

  /** The pass of log k is over and has not lost the session: it was registered when the pass
      started, and no send to it failed. */
  ghost predicate Settled(w: World, s: Session, k: nat) {
    PassOver(w, k) && s in w.passes[k].starters && s in w.registered
  }

  // ---- What reachable worlds have in common

  lemma ReachableIsSized(w: World)
    requires Reachable(w)
    ensures Sized(w)
  {
    ReachableInv(w);
  }

  lemma SentIsOk(w: World, s: Session, a: Answer)
    requires Reachable(w) && a in Sent(w, s)
    ensures Clocked(w) && SentTo(w, s, a)
  {
    ReachableInv(w);
  }

  /** The subscription of an activation follows a snapshot that was sent. */
  lemma ActivationFollows(w: World, s: Session, j: nat)
    requires Reachable(w) && j < |Acts(w, s)|
    ensures Acts(w, s)[j].answer in Sent(w, s) && Acts(w, s)[j].answer.sentAt < Acts(w, s)[j].at < w.now
  {
    ReachableInv(w);
    assert ActsOk(w, Acts(w, s));
    assert ActivationOk(w, Acts(w, s)[j]);
  }

  /** Every snapshot is followed by at most one activation, before the next snapshot is sent. */
  lemma ActivationsTakeTurns(w: World, s: Session, i: nat, j: nat)
    requires Reachable(w) && i < j < |Acts(w, s)|
    ensures Acts(w, s)[i].answer.sentAt < Acts(w, s)[i].at < Acts(w, s)[j].answer.sentAt < Acts(w, s)[j].at
  {
    ActivationFollows(w, s, i);
    ActivationFollows(w, s, j);
    TurnsAreOk(w, s);
  }

  lemma TurnsAreOk(w: World, s: Session)
    requires Reachable(w)
    ensures TurnsOk(w, s)
  {
    ReachableInv(w);
  }

  lemma CheckMoments(w: World, s: Session, k: nat)
    requires Reachable(w) && (k, s) in w.checks
    ensures Sized(w) && k < |w.history| && w.addedAt[k] < w.checks[(k, s)].at < w.now
    ensures SentLive(w, s, k) ==> w.checks[(k, s)].at < w.pushedAt[(k, s)]
  {
    ReachableInv(w);
    assert CheckOk(w, k, s, w.checks[(k, s)]);
  }

  /** The activation in force at a check is the last one it counts. */
  lemma CheckedInForce(w: World, s: Session, j: nat, k: nat)
    requires Reachable(w) && j < |Acts(w, s)| && (k, s) in w.checks
    ensures Acts(w, s)[j].at < w.checks[(k, s)].at <==> j < w.checks[(k, s)].activations
    ensures InForce(w, s, j, w.checks[(k, s)].at) <==> w.checks[(k, s)].activations == j + 1
  {
    ReachableInv(w);
    var c := w.checks[(k, s)];
    assert CheckOk(w, k, s, c);
    if j + 1 < |Acts(w, s)| { assert Acts(w, s)[j + 1].at < c.at <==> j + 1 < c.activations; }
  }

  lemma SentIsMatched(w: World, s: Session, k: nat)
    requires Reachable(w) && SentLive(w, s, k)
    ensures (k, s) in w.checks && k < |w.history| && MatchedAtCheck(w, k, s)
  {
    ReachableInv(w);
  }

  lemma MatchedIsSent(w: World, s: Session, k: nat)
    requires Reachable(w) && PassOver(w, k) && s in w.registered
    requires (k, s) in w.checks && k < |w.history| && MatchedAtCheck(w, k, s)
    ensures SentLive(w, s, k)
  {
    ReachableInv(w);
    assert SentOrLeaving(w, k, s);
  }

  lemma SettledIsChecked(w: World, s: Session, k: nat)
    requires Reachable(w) && Settled(w, s, k)
    ensures (k, s) in w.checks
  {
    ReachableInv(w);
    assert Visits(w, k, s);
  }

  // ---- Snapshots and live sends

  /** A snapshot holds a log it asks for exactly when the log was added before its ring was read
      and had not been overwritten by then; it holds no other log. */
  lemma SnapshotExactly(w: World, s: Session, a: Answer, k: nat)
    requires Reachable(w) && a in Sent(w, s)
    ensures Sized(w) && a.sentAt < w.now
    ensures k in a.reading.snapshot ==> AsksFor(w, a.reading, k)
    ensures AsksFor(w, a.reading, k) ==> ReadTime(w, a.reading, k) < a.sentAt
    ensures AsksFor(w, a.reading, k) ==>
              (k in a.reading.snapshot <==>
                 w.addedAt[k] < ReadTime(w, a.reading, k) && !EvictedBefore(w, k, ReadTime(w, a.reading, k)))
  {
    SentIsOk(w, s, a);
  }

  /** A log goes out live only after its pass has checked the session, and only for the
      subscription in force at that check. */
  lemma SentLiveOnlyIfChecked(w: World, s: Session, k: nat) returns (j: nat)
    requires Reachable(w) && SentLive(w, s, k)
    ensures Sized(w) && AskedAtCheck(w, s, j, k)
    ensures w.addedAt[k] < w.checks[(k, s)].at < w.pushedAt[(k, s)]
  {
    SentIsMatched(w, s, k);
    CheckMoments(w, s, k);
    j := w.checks[(k, s)].activations - 1;
    CheckedInForce(w, s, j, k);
  }

  /** A pass that is over has sent its log to every session whose subscription in force at the
      check asked for it, unless the session is gone. */
  lemma AskedIsSent(w: World, s: Session, j: nat, k: nat)
    requires Reachable(w) && PassOver(w, k) && s in w.registered && AskedAtCheck(w, s, j, k)
    ensures SentLive(w, s, k)
  {
    CheckedInForce(w, s, j, k);
    MatchedIsSent(w, s, k);
  }

  /** The fate of a log once its pass is over: it was sent live exactly when some subscription
      that asks for it was in force at its check, and a snapshot that asks for it has it exactly
      when the ring held it at the read. */
  lemma FateOfLog(w: World, s: Session, k: nat)
    requires Reachable(w) && Settled(w, s, k)
    ensures Sized(w) && (k, s) in w.checks && w.addedAt[k] < w.checks[(k, s)].at
    ensures SentLive(w, s, k) <==> exists j: nat :: AskedAtCheck(w, s, j, k)
    ensures forall a :: a in Sent(w, s) && AsksFor(w, a.reading, k) ==>
              (k in a.reading.snapshot <==> HeldAt(w, k, ReadTime(w, a.reading, k)))
  {
    SettledIsChecked(w, s, k);
    CheckMoments(w, s, k);
    if SentLive(w, s, k) {
      var j := SentLiveOnlyIfChecked(w, s, k);
    }
    if j :| AskedAtCheck(w, s, j, k) {
      AskedIsSent(w, s, j, k);
    }
    forall a | a in Sent(w, s) && AsksFor(w, a.reading, k)
      ensures k in a.reading.snapshot <==> HeldAt(w, k, ReadTime(w, a.reading, k))
    {
      SnapshotExactly(w, s, a, k);
    }
  }

  /** A session is given a log both in a snapshot and live exactly when the log was added before
      that snapshot read its ring, not overwritten by then, and checked while some subscription
      of the session asked for it. */
  lemma DuplicateExactly(w: World, s: Session, a: Answer, k: nat)
    requires Reachable(w) && Settled(w, s, k) && a in Sent(w, s) && AsksFor(w, a.reading, k)
    ensures Sized(w)
    ensures k in a.reading.snapshot && SentLive(w, s, k) <==>
              && w.addedAt[k] < ReadTime(w, a.reading, k) && !EvictedBefore(w, k, ReadTime(w, a.reading, k))
              && exists j: nat :: AskedAtCheck(w, s, j, k)
  {
    SnapshotExactly(w, s, a, k);
    FateOfLog(w, s, k);
  }

  /** If a log is given both live and in the snapshot of an activation, ring read and activation
      fall between its add and its check exactly when no earlier subscription of the session
      asked for it at the check. */
  lemma DuplicateWindow(w: World, s: Session, i: nat, k: nat)
    requires Reachable(w) && i < |Acts(w, s)| && k in Acts(w, s)[i].answer.reading.snapshot && SentLive(w, s, k)
    ensures var r := Acts(w, s)[i].answer.reading;
            && Sized(w) && AsksFor(w, r, k) && (k, s) in w.checks
            && (w.addedAt[k] < ReadTime(w, r, k) < Acts(w, s)[i].at < w.checks[(k, s)].at
                <==> !exists j: nat :: j < i && AskedAtCheck(w, s, j, k))
  {
    ActivationFollows(w, s, i);
    SnapshotExactly(w, s, Acts(w, s)[i].answer, k);
    var last := SentLiveOnlyIfChecked(w, s, k);
    CheckedInForce(w, s, i, k);
    CheckedInForce(w, s, last, k);
    forall j: nat | j < i && AskedAtCheck(w, s, j, k) ensures j == last {
      CheckedInForce(w, s, j, k);
    }
  }

  /** A session is given a log in no snapshot and never live exactly when every snapshot that asks
      for it read its ring before the log was added or after it was overwritten, and no
      subscription that asks for it was in force at its check. */
  lemma LossExactly(w: World, s: Session, k: nat)
    requires Reachable(w) && Settled(w, s, k)
    ensures Sized(w)
    ensures !SentLive(w, s, k) && (forall a :: a in Sent(w, s) ==> k !in a.reading.snapshot) <==>
              && (forall a :: a in Sent(w, s) && AsksFor(w, a.reading, k) ==> !HeldAt(w, k, ReadTime(w, a.reading, k)))
              && (forall j: nat :: !AskedAtCheck(w, s, j, k))
  {
    FateOfLog(w, s, k);
    forall a | a in Sent(w, s) && k in a.reading.snapshot ensures AsksFor(w, a.reading, k) {
      SnapshotExactly(w, s, a, k);
    }
  }
}
