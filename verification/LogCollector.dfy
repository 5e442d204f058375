/** The entry point of every log: its date is filled in, its message truncated, and it is
    handed to the broadcasting service. */
module LogCollector {
  import opened JavaText
  import opened LogModel
  import opened LogBroadcasting
  import opened SessionProtocol
  import opened Truncation
  import opened Utf8

  const MESSAGE_MAX_BYTES := 65535

  /** The mutable record that adapters fill in. */
  class LogRecord {
    var date: Option<int>
    var host: Option<Text>
    var program: Option<Text>
    var message: Option<Text>
    var facility: Option<int>
    var severity: Option<int>
    var id: Option<int>
    var hash: Option<Text>

    function Value(): LogData
      reads this
    {
      LogData(date, host, program, message, facility, severity, id, hash)
    }
  }

  function Dated(l: LogData, now: int): LogData {
    if l.date.None? then l.(date := Some(now)) else l
  }

  /** The record as it is stored. */
  function Prepared(l: LogData, now: int): LogData {
    Dated(l, now).(message := TruncateString(MESSAGE_MAX_BYTES, l.message).value)
  }

  /** What may be stored of a message: nothing of a missing or empty one, the whole of one of at
      most 65535 bytes, and of a longer one as much as fits, which is a prefix when it is
      well-formed. */
  ghost predicate IsStoredOf(stored: Option<Text>, message: Option<Text>) {
    if message.None? || message == Some([]) then stored == None
    else if |GetBytes(message.value)| <= 65535 then stored == message
    else
      && stored.Some? && |GetBytes(stored.value)| <= 65535
      && (WellFormed(message.value) ==> IsLongestFit(stored.value, message.value, 65535))
  }

  lemma TruncatedIsStored(message: Option<Text>)
    ensures TruncateString(MESSAGE_MAX_BYTES, message).Returned?
    ensures IsStoredOf(TruncateString(MESSAGE_MAX_BYTES, message).value, message)
  {
    if message.Some? && message.value != [] {
      TruncatedFits(MESSAGE_MAX_BYTES, message.value);
      if WellFormed(message.value) { TruncatedIsLongestFit(MESSAGE_MAX_BYTES, message.value); }
    }
  }

  /** Preparing a record keeps a date it has and fills in a missing one, truncates the message and
      changes nothing else. */
  lemma PreparedExactly(l: LogData, now: int)
    ensures var p := Prepared(l, now);
            && p.date == (if l.date.Some? then l.date else Some(now))
            && IsStoredOf(p.message, l.message)
            && p.host == l.host && p.program == l.program && p.facility == l.facility && p.severity == l.severity
            && p.id == l.id && p.hash == l.hash
  {
    TruncatedIsStored(l.message);
  }

  /** The logs in the database. */
  class LogDao {
    var saved: seq<LogData>

    /** `works` says whether the database takes the log or raises an exception. */
    method SaveLog(logData: LogData, works: bool)
      modifies this
      ensures saved == if works then old(saved) + [logData] else old(saved)
    {
      if works {
        saved := saved + [logData];
      }
    }
  }

  class SimpleLogCollector {
    const logDao: LogDao
    const logBroadcastingService: LogBroadcastingService

    constructor (logDao: LogDao, logBroadcastingService: LogBroadcastingService)
      ensures this.logDao == logDao && this.logBroadcastingService == logBroadcastingService
    {
      this.logDao, this.logBroadcastingService := logDao, logBroadcastingService;
    }

    /** `now` is the current time; a record without host is refused by an exception, after its
        date has been set. Any other is shown live and then put into the database, whose failure
        is an exception too but takes nothing back. */
    method SaveLog(logData: LogRecord, now: int, failing: set<Session>, databaseWorks: bool) returns (refused: bool)
      requires logBroadcastingService.Valid() && {logData, logDao} !! logBroadcastingService.home.Keys
      modifies logData, logDao, logBroadcastingService, logBroadcastingService.home.Keys
      ensures logBroadcastingService.Valid()
      ensures logDao.saved == if refused || !databaseWorks then old(logDao.saved) else old(logDao.saved) + [logData.Value()]
      ensures refused <==> old(logData.host).None?
      ensures logData.date == if old(logData.date).Some? then old(logData.date) else Some(now)
      ensures if refused then logData.message == old(logData.message) else IsStoredOf(logData.message, old(logData.message))
      ensures logData.host == old(logData.host) && logData.program == old(logData.program)
      ensures logData.facility == old(logData.facility) && logData.severity == old(logData.severity)
      ensures logData.id == old(logData.id) && logData.hash == old(logData.hash)
      ensures logData.Value() == if refused then Dated(old(logData.Value()), now) else Prepared(old(logData.Value()), now)
      ensures logBroadcastingService.View() ==
                if refused then old(logBroadcastingService.View())
                else Apply(old(logBroadcastingService.View()), Received(logData.Value(), failing))
    {
      if logData.date.None? {
        logData.date := Some(now);
      }
      if logData.host.None? {
        return true;
      }
      TruncatedIsStored(logData.message);
      var truncated := TruncateToBytes(MESSAGE_MAX_BYTES, logData.message);
      logData.message := truncated.value;
      logBroadcastingService.HandleReceivedLogData(logData.Value(), failing);
      logDao.SaveLog(logData.Value(), databaseWorks);
      refused := false;
    }
  }

  // ---- Whole runs

  /** A log is saved, or something else happens to the service. */
  datatype Call = Saves(l: LogData, now: int, failing: set<Session>) | Happens(ev: Event)

  function Perform(st: Service, call: Call): Service {
    match call
    case Saves(l, now, failing) => if l.host.None? then st else Apply(st, Received(Prepared(l, now), failing))
    case Happens(ev) => Apply(st, ev)
  }

  function PerformAll(st: Service, calls: seq<Call>): Service
    decreases calls
  {
    if calls == [] then st else PerformAll(Perform(st, calls[0]), calls[1..])
  }

  /** What every stored log satisfies. */
  predicate Complete(l: LogData) {
    && l.date.Some? && l.host.Some? && l.program.Some?
    && (l.message.Some? ==> l.message.value != [] && |GetBytes(l.message.value)| <= 65535)
  }

  predicate AllComplete(st: Service) {
    forall l :: l in st.history ==> Complete(l)
  }

  /** A message that was not empty is not truncated to nothing. */
  lemma MessageSurvives(s: Text)
    requires s != []
    ensures Truncated(MESSAGE_MAX_BYTES, s) != []
  {
    var cs := Scalars(s);
    assert FitCount(cs, MESSAGE_MAX_BYTES) >= 1;
    TextOfCons(cs[0], cs[..FitCount(cs, MESSAGE_MAX_BYTES)][1..]);
    assert cs[..FitCount(cs, MESSAGE_MAX_BYTES)] == [cs[0]] + cs[..FitCount(cs, MESSAGE_MAX_BYTES)][1..];
  }

  lemma PreparedIsComplete(l: LogData, now: int)
    requires l.host.Some? && l.program.Some?
    ensures Complete(Prepared(l, now))
  {
    if l.message.Some? && l.message.value != [] {
      TruncatedFits(MESSAGE_MAX_BYTES, l.message.value);
      MessageSurvives(l.message.value);
    }
  }

  lemma EventKeepsComplete(st: Service, ev: Event)
    requires AllComplete(st) && (ev.Received? && ev.log.host.Some? && ev.log.program.Some? ==> Complete(ev.log))
    ensures AllComplete(Apply(st, ev))
  {
    if ev.Asked? { RequestChangesSubscriptionIffAccepted(st, ev); }
  }

  lemma {:induction false} CallsKeepComplete(st: Service, calls: seq<Call>)
    requires AllComplete(st)
    requires forall i :: 0 <= i < |calls| ==> !(calls[i].Happens? && calls[i].ev.Received?)
    ensures AllComplete(PerformAll(st, calls))
    decreases calls
  {
    if calls != [] {
      var call := calls[0];
      if call.Happens? {
        EventKeepsComplete(st, call.ev);
      } else if call.l.host.Some? {
        if call.l.program.Some? { PreparedIsComplete(call.l, call.now); }
        EventKeepsComplete(st, Received(Prepared(call.l, call.now), call.failing));
      }
      CallsKeepComplete(Perform(st, call), calls[1..]);
    }
  }

  /** After any run in which logs come in through saveLog only, every log held for any hosts
      and programs has a date, a host and a program and a message within the bound; so every
      query can be sorted. */
  lemma StoredLogsAreComplete(capacity: nat, calls: seq<Call>, hosts: seq<Text>, programs: seq<Text>)
    requires forall i :: 0 <= i < |calls| ==> !(calls[i].Happens? && calls[i].ev.Received?)
    ensures var st := PerformAll(InitialService(capacity), calls);
            var held := Held(st.history, st.capacity, hosts, programs);
            AllComplete(st) && (forall l :: l in held ==> Complete(l)) && Sortable(held)
  {
    var st := PerformAll(InitialService(capacity), calls);
    CallsKeepComplete(InitialService(capacity), calls);
    HeldAmongHistory(st.history, st.capacity, hosts, programs);
    var held := Held(st.history, st.capacity, hosts, programs);
    forall i | 0 <= i < |held| ensures held[i].date.Some? { assert held[i] in held; }
  }

  lemma {:induction false} HeldAmongHistory(history: seq<LogData>, capacity: nat, hosts: seq<Text>, programs: seq<Text>)
    ensures forall l :: l in Held(history, capacity, hosts, programs) ==> l in history
  {
    if history != [] {
      HeldAmongHistory(history[1..], capacity, hosts, programs);
      assert history == [history[0]] + history[1..];
    }
  }
}
