/** What is left of coverage when the handlers interleave: which of the logs that a session's
    query would return now it has not been given since its last snapshot, and when there is
    none. */
module InterleavedCoverage {
  import opened JavaText
  import opened LogModel
  import opened SessionProtocol
  import opened InterleavedBroadcast
  import opened BroadcastFates

  /** The answer of the request whose subscription is in force. */
  ghost predicate IsLast(w: World, s: Session, a: Answer) {
    var acts := Acts(w, s); acts != [] && acts[|acts| - 1].answer == a
  }

  /** The query behind the answer would return log k now. */
  ghost predicate Due(w: World, a: Answer, k: nat) {
    AsksFor(w, a.reading, k) && k in InRing(w, PairOf(w.history[k]))
  }

  /** The log was in a snapshot sent at that time or later, or sent live later. */
  ghost predicate GivenSince(w: World, s: Session, time: nat, k: nat) {
    || (exists a :: a in Sent(w, s) && time <= a.sentAt && k in a.reading.snapshot)
    || ((k, s) in w.pushedAt && time < w.pushedAt[(k, s)])
  }

  /** Every snapshot sent at that time or later that asks for the log read its ring before the
      log was added. */
  ghost predicate ReadTooEarly(w: World, s: Session, time: nat, k: nat)
    requires Sized(w)
  {
    forall a :: a in Sent(w, s) && time <= a.sentAt && AsksFor(w, a.reading, k) ==> ReadTime(w, a.reading, k) <= w.addedAt[k]
  }

  /** The log was checked before the subscription in force was activated, and no earlier
      subscription brought it after that time. */
  ghost predicate CheckedTooEarly(w: World, s: Session, time: nat, k: nat)
    requires Acts(w, s) != []
  {
    var n := |Acts(w, s)| - 1;
    && (k, s) in w.checks && w.checks[(k, s)].at <= Acts(w, s)[n].at
    && forall j: nat :: j < n && AskedAtCheck(w, s, j, k) ==> SentBefore(w, s, time, k)
  }

  ghost predicate SentBefore(w: World, s: Session, time: nat, k: nat) {
    (k, s) in w.pushedAt && w.pushedAt[(k, s)] <= time
  }

  lemma OfPairOfPrefix(logs: seq<LogData>, n: nat, host: Text, program: Text)
    requires n <= |logs|
    ensures |OfPair(logs[..n], host, program)| <= |OfPair(logs, host, program)|
  {
    OfPairAppend(logs[..n], logs[n..], host, program);
    assert logs == logs[..n] + logs[n..];
  }

  /** What a ring holds now has never been overwritten. */
  lemma DueWasNotEvicted(w: World, a: Answer, k: nat, time: nat)
    requires Sized(w) && Due(w, a, k)
    ensures !EvictedBefore(w, k, time)
  {
    var p, n := PairOf(w.history[k]), AddsBefore(w.addedAt, time);
    if k < n {
      OfPairOfPrefix(w.history[k + 1..], n - (k + 1), p.host, p.program);
      assert w.history[k + 1..][..n - (k + 1)] == w.history[k + 1..n];
    }
  }

  lemma AddedLaterIsSettled(w: World, s: Session, k: nat)
    requires Reachable(w) && Sized(w) && s in w.registered && PassOver(w, k)
    requires s in w.registeredAt && w.registeredAt[s] < w.addedAt[k]
    ensures Settled(w, s, k)
  {
    ReachableInv(w);
    assert StartsWith(w, k, s);
  }

  /** A log added after a ring read of the session is checked for it once its pass is over. */
  lemma ReadEarlierIsChecked(w: World, s: Session, a: Answer, k: nat)
    requires Reachable(w) && Sized(w) && a in Sent(w, s) && AsksFor(w, a.reading, k)
    requires s in w.registered && PassOver(w, k) && ReadTime(w, a.reading, k) <= w.addedAt[k]
    ensures (k, s) in w.checks
  {
    SentIsOk(w, s, a);
    AddedLaterIsSettled(w, s, k);
    SettledIsChecked(w, s, k);
  }

  /** A log is not in any snapshot since a given time exactly when all of them read too early. */
  lemma NoSnapshotExactly(w: World, s: Session, a: Answer, k: nat, time: nat)
    requires Reachable(w) && Due(w, a, k)
    ensures Sized(w)
    ensures ReadTooEarly(w, s, time, k) <==> forall b :: b in Sent(w, s) && time <= b.sentAt ==> k !in b.reading.snapshot
  {
    ReachableIsSized(w);
    forall b | b in Sent(w, s)
      ensures k in b.reading.snapshot ==> AsksFor(w, b.reading, k)
      ensures AsksFor(w, b.reading, k) ==> (k in b.reading.snapshot <==> w.addedAt[k] < ReadTime(w, b.reading, k))
    {
      SnapshotExactly(w, s, b, k);
      if AsksFor(w, b.reading, k) { DueWasNotEvicted(w, a, k, ReadTime(w, b.reading, k)); }
    }
  }

  /** A log that was checked is not sent live after the last snapshot exactly when it was checked
      too early. */
  lemma NotLiveExactly(w: World, s: Session, a: Answer, k: nat)
    requires Reachable(w) && s in w.registered && IsLast(w, s, a) && AsksFor(w, a.reading, k) && PassOver(w, k)
    requires (k, s) in w.checks
    ensures CheckedTooEarly(w, s, a.sentAt, k) <==> !((k, s) in w.pushedAt && a.sentAt < w.pushedAt[(k, s)])
  {
    var n := |Acts(w, s)| - 1;
    ActivationFollows(w, s, n);
    CheckMoments(w, s, k);
    CheckedInForce(w, s, n, k);
    if Acts(w, s)[n].at < w.checks[(k, s)].at {
      AskedIsSent(w, s, n, k);
    } else {
      forall j: nat | j < n && AskedAtCheck(w, s, j, k) ensures SentLive(w, s, k) { AskedIsSent(w, s, j, k); }
      if SentLive(w, s, k) {
        var j := SentLiveOnlyIfChecked(w, s, k);
        assert j < n;
      }
    }
  }

  /** A log that the subscription's query would return now has not been given since its snapshot
      exactly when it was read too early and checked too early. */
  lemma NotGivenExactly(w: World, s: Session, a: Answer, k: nat)
    requires Reachable(w) && s in w.registered && IsLast(w, s, a) && Due(w, a, k) && PassOver(w, k)
    ensures Sized(w)
    ensures !GivenSince(w, s, a.sentAt, k) <==> ReadTooEarly(w, s, a.sentAt, k) && CheckedTooEarly(w, s, a.sentAt, k)
  {
    ActivationFollows(w, s, |Acts(w, s)| - 1);
    NoSnapshotExactly(w, s, a, k, a.sentAt);
    if ReadTooEarly(w, s, a.sentAt, k) {
      assert ReadTime(w, a.reading, k) <= w.addedAt[k];
      ReadEarlierIsChecked(w, s, a, k);
      NotLiveExactly(w, s, a, k);
    }
  }

  /** Every log that the last subscription's query would return now, and whose pass is over, was
      given to the session since the snapshot of that subscription was sent. */
  ghost predicate CoveredNow(w: World, s: Session, a: Answer) {
    forall k: nat :: Due(w, a, k) && PassOver(w, k) ==> GivenSince(w, s, a.sentAt, k)
  }

  /** Coverage of the interleaved handlers, exactly: it holds unless a log was added after the
      reads of its ring and checked before the activation, and was not sent for an earlier
      subscription after the snapshot. */
  lemma CoverageExactly(w: World, s: Session, a: Answer)
    requires Reachable(w) && s in w.registered && IsLast(w, s, a)
    ensures Sized(w)
    ensures (CoveredNow(w, s, a)
             <==> !exists k: nat :: Due(w, a, k) && PassOver(w, k) && ReadTooEarly(w, s, a.sentAt, k) && CheckedTooEarly(w, s, a.sentAt, k))
  {
    ReachableIsSized(w);
    forall k: nat | Due(w, a, k) && PassOver(w, k)
      ensures !GivenSince(w, s, a.sentAt, k) <==> ReadTooEarly(w, s, a.sentAt, k) && CheckedTooEarly(w, s, a.sentAt, k)
    {
      NotGivenExactly(w, s, a, k);
    }
  }

  /** So a subscription is covered when no log it asks for is added between the read of its ring
      and the activation. */
  lemma UndisturbedIsCovered(w: World, s: Session, a: Answer)
    requires Reachable(w) && Sized(w) && s in w.registered && IsLast(w, s, a)
    requires forall k: nat :: AsksFor(w, a.reading, k) ==>
               w.addedAt[k] < ReadTime(w, a.reading, k) || Acts(w, s)[|Acts(w, s)| - 1].at < w.addedAt[k]
    ensures CoveredNow(w, s, a)
  {
    CoverageExactly(w, s, a);
    ActivationFollows(w, s, |Acts(w, s)| - 1);
    forall k: nat | Due(w, a, k) && PassOver(w, k)
      ensures !ReadTooEarly(w, s, a.sentAt, k) || !CheckedTooEarly(w, s, a.sentAt, k)
    {
      if (k, s) in w.checks { CheckMoments(w, s, k); }
    }
  }
}
