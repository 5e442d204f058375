/** The broadcasting service: a map host -> program -> ring buffer and a map from sessions to
    subscriptions. Each handler is proved to take the step of SessionProtocol. */
module LogBroadcasting {
  import opened JavaText
  import opened LogModel
  import opened LogStorage
  import opened SessionProtocol

  const DEFAULT_PROGRAM_LOG_STORAGE_CAPACITY: nat := 1000

  lemma StrictlyBetween(names: seq<Text>, k: nat, name: Text)
    requires Ascending(names) && k <= |names|
    requires forall i :: 0 <= i < k ==> Less(names[i], name)
    requires forall i :: k <= i < |names| ==> Less(name, names[i])
    ensures Ascending(names[..k] + [name] + names[k..])
  {
    var all := names[..k] + [name] + names[k..];
    forall i, j | 0 <= i < j < |all| ensures Less(all[i], all[j]) {
    }
  }

  /** Collections.sort on the elements of a set of names. */
  method SortNames(names: set<Text>) returns (sorted: seq<Text>)
    ensures Ascending(sorted) && Distinct(sorted)
    ensures forall name :: name in sorted <==> name in names
  {
    sorted := [];
    var rest := names;
    while rest != {}
      invariant rest <= names
      invariant Ascending(sorted)
      invariant forall name :: name in sorted <==> name in names - rest
      decreases rest
    {
      var name :| name in rest;
      sorted := InsertName(sorted, name);
      rest := rest - {name};
    }
    AscendingIsDistinct(sorted);
  }

  method InsertName(sorted: seq<Text>, name: Text) returns (all: seq<Text>)
    requires Ascending(sorted) && name !in sorted
    ensures Ascending(all)
    ensures forall n :: n in all <==> n in sorted || n == name
  {
    var k := 0;
    while k < |sorted| && Less(sorted[k], name)
      invariant k <= |sorted|
      invariant forall i :: 0 <= i < k ==> Less(sorted[i], name)
    {
      k := k + 1;
    }
    forall i | k <= i < |sorted| ensures Less(name, sorted[i]) {
      LessTotal(sorted[k], name);
      if i > k { LessTransitive(name, sorted[k], sorted[i]); }
    }
    StrictlyBetween(sorted, k, name);
    all := sorted[..k] + [name] + sorted[k..];
    assert sorted == sorted[..k] + sorted[k..];
  }

  function Names(names: seq<Text>): set<Text> { set n | n in names }

  /** How often a record is among the newest logs of its own host and program. */
  ghost function RingCount(history: seq<LogData>, capacity: nat, x: LogData): nat {
    if x.host.Some? && x.program.Some?
    then multiset(Newest(OfPair(history, x.host.value, x.program.value), capacity))[x]
    else 0
  }

  lemma NewestMembers<T>(s: seq<T>, n: nat)
    ensures forall x :: x in Newest(s, n) ==> x in s
  {
  }

  /** A list with the newest logs of one pair counts just the records of that pair. */
  lemma RingCountInList(history: seq<LogData>, capacity: nat, host: Text, program: Text, list: seq<LogData>)
    requires multiset(list) == multiset(Newest(OfPair(history, host, program), capacity))
    ensures forall x :: multiset(list)[x] == if IsOf(x, host, program) then RingCount(history, capacity, x) else 0
  {
    OfPairMembers(history, host, program);
    NewestMembers(OfPair(history, host, program), capacity);
    forall x | !IsOf(x, host, program) ensures x !in multiset(list) {
      assert x !in Newest(OfPair(history, host, program), capacity);
    }
  }

  /** The list has each record of the given hosts and programs as often as its ring has it,
      and no other record. */
  ghost predicate Collects(list: seq<LogData>, history: seq<LogData>, capacity: nat, hosts: set<Text>, programs: set<Text>) {
    forall x :: multiset(list)[x] ==
      (if x.host.Some? && x.program.Some? && x.host.value in hosts && x.program.value in programs
       then RingCount(history, capacity, x) else 0)
  }

  lemma CollectsMore(list: seq<LogData>, more: seq<LogData>, history: seq<LogData>, capacity: nat,
                     hosts: set<Text>, host: Text, programs: set<Text>)
    requires host !in hosts
    requires Collects(list, history, capacity, hosts, programs) && Collects(more, history, capacity, {host}, programs)
    ensures Collects(list + more, history, capacity, hosts + {host}, programs)
  {
  }

  lemma CollectsProgram(list: seq<LogData>, more: seq<LogData>, history: seq<LogData>, capacity: nat,
                        host: Text, programs: set<Text>, program: Text)
    requires program !in programs && Collects(list, history, capacity, {host}, programs)
    requires multiset(more) == multiset(Newest(OfPair(history, host, program), capacity))
    ensures Collects(list + more, history, capacity, {host}, programs + {program})
  {
    RingCountInList(history, capacity, host, program, more);
  }

  lemma CollectedIsHeld(list: seq<LogData>, history: seq<LogData>, capacity: nat, hosts: seq<Text>, programs: seq<Text>)
    requires Collects(list, history, capacity, Names(hosts), Names(programs))
    ensures multiset(list) == multiset(Held(history, capacity, hosts, programs))
  {
    forall x ensures multiset(list)[x] == multiset(Held(history, capacity, hosts, programs))[x] {
      HeldCount(history, capacity, hosts, programs, x);
    }
  }

  lemma SortablePart(part: seq<LogData>, whole: seq<LogData>)
    requires multiset(part) <= multiset(whole) && Sortable(whole)
    ensures Sortable(part)
  {
    assert |part| == |multiset(part)|;
    assert |multiset(whole)| == |multiset(part)| + |multiset(whole) - multiset(part)|;
    forall i | 0 <= i < |part| && |part| > 1 ensures part[i].date.Some? {
      assert part[i] in multiset(whole);
    }
  }

  /** A requested ring that cannot be sorted keeps the whole answer from being sorted. */
  lemma UnsortableRing(history: seq<LogData>, capacity: nat, hosts: seq<Text>, programs: seq<Text>, host: Text)
    requires host in hosts
    requires exists p :: p in programs && !Sortable(Newest(OfPair(history, host, p), capacity))
    ensures !Sortable(Held(history, capacity, hosts, programs))
  {
    var p :| p in programs && !Sortable(Newest(OfPair(history, host, p), capacity));
    var ring, held := Newest(OfPair(history, host, p), capacity), Held(history, capacity, hosts, programs);
    RingCountInList(history, capacity, host, p, ring);
    forall x ensures multiset(ring)[x] <= multiset(held)[x] {
      HeldCount(history, capacity, hosts, programs, x);
    }
    if Sortable(held) { SortablePart(ring, held); }
  }

  class LogBroadcastingService {
    const programLogStorageCapacity: nat
    var logStorage: map<Text, map<Text, InMemoryLogStorage>>
    var subscriptionStorage: map<Session, Subscription>
    /** What the network has delivered to each session. */
    var delivered: map<Session, seq<Response>>
    ghost var marks: map<Session, nat>
    /** The logs with host and program, in order of arrival. */
    ghost var history: seq<LogData>
    /** Which pair each ring object and each buffer belongs to. */
    ghost var home: map<object, (Text, Text)>

    ghost predicate Stores(host: Text, program: Text)
      reads `logStorage
    {
      host in logStorage && program in logStorage[host]
    }

    ghost predicate RingOk(host: Text, program: Text)
      requires Stores(host, program)
      reads `logStorage, `history, `home, home.Keys
    {
      var ring := logStorage[host][program];
      && ring in home && home[ring] == (host, program)
      && ring.logDataBuffer in home && home[ring.logDataBuffer] == (host, program)
      && ring.bufferSize == programLogStorageCapacity
      && ring.history == OfPair(history, host, program)
      && ring.Valid()
    }

    /** Every ring holds what it should. */
    ghost predicate RingsOk()
      reads `logStorage, `history, `home, home.Keys
    {
      && this !in home && programLogStorageCapacity >= 1
      && (forall h, p :: Stores(h, p) ==> RingOk(h, p))
    }

    ghost predicate StoreValid()
      reads `logStorage, `history, `home, home.Keys
    {
      && RingsOk()
      && (forall l :: l in history ==> l.host.Some? && l.program.Some?)
      && (forall h, p :: Stores(h, p) <==> OfPair(history, h, p) != [])
      && (forall h :: h in logStorage ==> logStorage[h] != map[])
    }

    ghost predicate Valid()
      reads this, home.Keys
    {
      StoreValid() && subscriptionStorage.Keys <= delivered.Keys
    }

    /** The abstract state of SessionProtocol. */
    ghost function View(): Service
      reads this
    {
      Service(programLogStorageCapacity, history, subscriptionStorage, delivered, marks)
    }

    constructor (programLogStorageCapacity: nat)
      requires programLogStorageCapacity >= 1
      ensures Valid() && home == map[]
      ensures View() == InitialService(programLogStorageCapacity)
    {
      this.programLogStorageCapacity := programLogStorageCapacity;
      logStorage, subscriptionStorage, delivered := map[], map[], map[];
      marks, history, home := map[], [], map[];
    }

    /** The constructor that reads the configured capacity. */
    constructor Configured(configuredCapacity: int)
      ensures Valid() && home == map[]
      ensures View() == InitialService(if configuredCapacity > 0 then configuredCapacity else 1000)
    {
      programLogStorageCapacity := if configuredCapacity > 0 then configuredCapacity else DEFAULT_PROGRAM_LOG_STORAGE_CAPACITY;
      logStorage, subscriptionStorage, delivered := map[], map[], map[];
      marks, history, home := map[], [], map[];
    }

    // ---- Reading the store

    /** A pair is stored exactly when a log of it was received. */
    lemma StoredIffReceived(host: Text, program: Text)
      requires Valid()
      ensures Stores(host, program) <==> exists l :: l in history && IsOf(l, host, program)
    {
      OfPairMembers(history, host, program);
      if Stores(host, program) {
        assert RingOk(host, program);
        assert OfPair(history, host, program)[0] in OfPair(history, host, program);
      }
    }

    method GetHostNameList() returns (result: seq<Text>)
      requires Valid()
      ensures Ascending(result) && Distinct(result)
      ensures forall h :: h in result <==> exists l :: l in history && l.host == Some(h)
    {
      result := SortNames(logStorage.Keys);
      forall h ensures h in result <==> exists l :: l in history && l.host == Some(h) {
        if h in result {
          var p :| p in logStorage[h];
          StoredIffReceived(h, p);
        }
        if l :| l in history && l.host == Some(h) {
          StoredIffReceived(h, l.program.value);
        }
      }
    }

    method GetProgramNameList() returns (result: seq<Text>)
      requires Valid()
      ensures Ascending(result) && Distinct(result)
      ensures forall p :: p in result <==> exists l :: l in history && l.program == Some(p)
    {
      var programNamesSet: set<Text>, hosts := {}, logStorage.Keys;
      while hosts != {}
        invariant hosts <= logStorage.Keys
        invariant forall p :: p in programNamesSet <==> exists h :: h in logStorage.Keys - hosts && p in logStorage[h]
        decreases hosts
      {
        var h :| h in hosts;
        programNamesSet := programNamesSet + logStorage[h].Keys;
        hosts := hosts - {h};
      }
      result := SortNames(programNamesSet);
      forall p ensures p in result <==> exists l :: l in history && l.program == Some(p) {
        if p in result {
          var h :| h in logStorage && p in logStorage[h];
          StoredIffReceived(h, p);
        }
        if l :| l in history && l.program == Some(p) {
          StoredIffReceived(l.host.value, p);
        }
      }
    }

    /** None stands for the exception of comparing a null date. */
    method GetLogDataListByHostAndProgram(host: Text, program: Text) returns (logs: Option<seq<LogData>>)
      requires Valid()
      ensures var newest := Newest(OfPair(history, host, program), programLogStorageCapacity);
              if Sortable(newest)
              then logs.Some? && OldestFirst(logs.value) && multiset(logs.value) == multiset(newest)
              else logs.None?
    {
      if host in logStorage {
        var hostLogStorage := logStorage[host];
        if program in hostLogStorage {
          assert RingOk(host, program);
          logs := hostLogStorage[program].AsLogList();
        } else {
          assert !Stores(host, program);
          logs := Some([]);
        }
      } else {
        assert !Stores(host, program);
        logs := Some([]);
      }
    }

    /** The list of one ring. */
    method ListOf(host: Text, program: Text) returns (logs: Option<seq<LogData>>)
      requires Valid() && Stores(host, program)
      ensures var newest := Newest(OfPair(history, host, program), programLogStorageCapacity);
              && (logs.Some? <==> Sortable(newest))
              && (logs.Some? ==> multiset(logs.value) == multiset(newest))
    {
      assert RingOk(host, program);
      logs := logStorage[host][program].AsLogList();
    }

    lemma UnstoredCountsNothing()
      requires Valid()
      ensures forall x: LogData :: x.host.Some? && x.program.Some? && !Stores(x.host.value, x.program.value)
                ==> RingCount(history, programLogStorageCapacity, x) == 0
    {
    }

    /** The collected records and those of one more ring. */
    method CollectRing(found: seq<LogData>, host: Text, program: Text, ghost collected: set<Text>)
      returns (logs: Option<seq<LogData>>)
      requires Valid() && Stores(host, program) && program !in collected
      requires Collects(found, history, programLogStorageCapacity, {host}, collected)
      ensures logs.None? ==> !Sortable(Newest(OfPair(history, host, program), programLogStorageCapacity))
      ensures logs.Some? ==> Collects(logs.value, history, programLogStorageCapacity, {host}, collected + {program})
    {
      logs := ListOf(host, program);
      if logs.Some? {
        CollectsProgram(found, logs.value, history, programLogStorageCapacity, host, collected, program);
        logs := Some(found + logs.value);
      }
    }

    lemma NothingCollected(host: Text, programs: set<Text>)
      requires Valid() && host in logStorage && programs !! logStorage[host].Keys
      ensures Collects([], history, programLogStorageCapacity, {host}, programs)
    {
      UnstoredCountsNothing();
      forall program | program in programs ensures !Stores(host, program) { assert program !in logStorage[host].Keys; }
    }

    /** The records of one host's requested programs, ring after ring, in any order. */
    method CollectHost(host: Text, programs: seq<Text>) returns (logs: Option<seq<LogData>>)
      requires Valid() && host in logStorage
      ensures logs.None? ==> exists p :: p in programs && !Sortable(Newest(OfPair(history, host, p), programLogStorageCapacity))
      ensures logs.Some? ==> Collects(logs.value, history, programLogStorageCapacity, {host}, Names(programs))
    {
      var found: seq<LogData>, hostLogStorage := [], logStorage[host];
      var rest := hostLogStorage.Keys;
      NothingCollected(host, Names(programs) - rest);
      while rest != {}
        invariant rest <= hostLogStorage.Keys
        invariant Collects(found, history, programLogStorageCapacity, {host}, Names(programs) - rest)
        decreases rest
      {
        ghost var collected := Names(programs) - rest;
        var program :| program in rest;
        rest := rest - {program};
        if program in programs {
          var more := CollectRing(found, host, program, collected);
          if more.None? {
            return None;
          }
          found := more.value;
          assert Names(programs) - rest == collected + {program};
        } else {
          assert Names(programs) - rest == collected;
        }
      }
      assert Names(programs) - rest == Names(programs);
      logs := Some(found);
    }

    /** The records of all requested rings, host after host, in any order. */
    method CollectAll(hosts: seq<Text>, programs: seq<Text>) returns (logs: Option<seq<LogData>>)
      requires Valid()
      ensures logs.None? ==> !Sortable(Held(history, programLogStorageCapacity, hosts, programs))
      ensures logs.Some? ==>
                Collects(logs.value, history, programLogStorageCapacity, Names(hosts), Names(programs))
    {
      var found: seq<LogData>, rest := [], logStorage.Keys;
      ghost var requested := Names(programs);
      UnstoredCountsNothing();
      while rest != {}
        invariant rest <= logStorage.Keys
        invariant Collects(found, history, programLogStorageCapacity, Names(hosts) - rest, requested)
        decreases rest
      {
        ghost var collected := Names(hosts) - rest;
        var host :| host in rest;
        rest := rest - {host};
        if host in hosts {
          var list := CollectHost(host, programs);
          if list.None? {
            UnsortableRing(history, programLogStorageCapacity, hosts, programs, host);
            return None;
          }
          CollectsMore(found, list.value, history, programLogStorageCapacity, collected, host, requested);
          found := found + list.value;
          assert (Names(hosts) - rest) == collected + {host};
        } else {
          assert (Names(hosts) - rest) == collected;
        }
      }
      assert (Names(hosts) - rest) == Names(hosts);
      logs := Some(found);
    }

    /** The query over all requested hosts and programs; None stands for the exception of
        comparing a null date. */
    method GetLogDataListByHostsAndPrograms(hosts: seq<Text>, programs: seq<Text>) returns (logs: Option<seq<LogData>>)
      requires Valid()
      ensures var held := Held(history, programLogStorageCapacity, hosts, programs);
              if Sortable(held)
              then logs.Some? && OldestFirst(logs.value) && DateSorted(logs.value) && multiset(logs.value) == multiset(held)
              else logs.None?
    {
      logs := CollectAll(hosts, programs);
      if logs.Some? {
        CollectedIsHeld(logs.value, history, programLogStorageCapacity, hosts, programs);
        SortableOfBag(logs.value, Held(history, programLogStorageCapacity, hosts, programs));
        SortFacts(logs.value);
        SortableOfBag(logs.value, SortByDate(logs.value));
        logs := if Sortable(logs.value) then Some(SortByDate(logs.value)) else None;
        if logs.Some? { SortedIsOldestFirst(logs.value); }
      }
    }

    // ---- Sessions

    method SaveBroadcastingSession(session: Session, subscription: Subscription)
      requires Valid()
      modifies `subscriptionStorage, `delivered
      ensures Valid()
      ensures subscriptionStorage == old(subscriptionStorage)[session := subscription]
      ensures delivered == old(delivered)[session := DeliveredTo(old(View()), session)]
    {
      subscriptionStorage := subscriptionStorage[session := subscription];
      delivered := delivered[session := if session in delivered then delivered[session] else []];
    }

    method RemoveBroadcastingSession(session: Session)
      requires Valid()
      modifies `subscriptionStorage
      ensures Valid()
      ensures View() == Apply(old(View()), Removed(session))
    {
      subscriptionStorage := subscriptionStorage - {session};
    }

    // ---- Requests

    /** Sends a text; `works` says whether the send completes or ends in an IOException. */
    method SendText(session: Session, response: Response, works: bool)
      requires Valid()
      modifies `delivered
      ensures Valid()
      ensures View() == if works then Deliver(old(View()), session, response) else old(View())
    {
      if works {
        delivered := delivered[session := (if session in delivered then delivered[session] else []) + [response]];
      }
    }

    /** `answered` and `errorSent` say whether sending the answer and an error reply work;
        `found` is the order in which the query found its logs. */
    method HandleLogBroadcastingRequest(session: Session, request: Request, answered: bool, errorSent: bool)
      returns (ghost found: seq<LogData>)
      requires Valid()
      modifies `subscriptionStorage, `delivered, `marks
      ensures Valid()
      ensures Possible(old(View()), Asked(session, request, found, answered, errorSent))
      ensures View() == Apply(old(View()), Asked(session, request, found, answered, errorSent))
    {
      ghost var before := View();
      found := [];
      if request.Unreadable? || request.state.None? {
        SendText(session, SERVER_ERROR, errorSent);
        return;
      }
      if !request.state.value.INITIAL? {
        if session !in subscriptionStorage {
          SendText(session, SERVER_ERROR, errorSent);
          return;
        }
        if !subscriptionStorage[session].state.INITIAL? {
          return;
        }
      }
      if request.hosts.None? || (request.hosts.value != [] && request.programs.None?) {
        SendText(session, SERVER_ERROR, errorSent);
        return;
      }
      if request.hosts.value == [] || request.programs.value == [] {
        SendText(session, if answered then INCORRECT_PARAMETERS else SERVER_ERROR, answered || errorSent);
        return;
      }
      found := AnswerRequest(session, request.hosts.value, request.programs.value, answered, errorSent);
      ReadsIffWellPosed(before, session, request);
    }

    /** The part of the request handler that reads logs and subscribes. */
    method AnswerRequest(session: Session, hosts: seq<Text>, programs: seq<Text>, answered: bool, errorSent: bool)
      returns (ghost found: seq<LogData>)
      requires Valid()
      modifies `subscriptionStorage, `delivered, `marks
      ensures Valid()
      ensures IsAnswer(found, old(history), programLogStorageCapacity, hosts, programs)
      ensures View() == Answer(old(View()), session, hosts, programs, found, answered, errorSent)
    {
      var logDataList := GetLogDataListByHostsAndPrograms(hosts, programs);
      found := if logDataList.Some? then logDataList.value else Held(history, programLogStorageCapacity, hosts, programs);
      if logDataList.Some? {
        SortableOfBag(found, Held(history, programLogStorageCapacity, hosts, programs));
      }
      if logDataList.None? || !answered {
        SendText(session, SERVER_ERROR, errorSent);
        return;
      }
      ghost var mark := |DeliveredTo(View(), session)|;
      SendText(session, Response(true, logDataList.value, None), true);
      if session !in subscriptionStorage {
        SendText(session, SERVER_ERROR, errorSent);
        return;
      }
      subscriptionStorage := subscriptionStorage[session := Subscription(hosts, programs, ONLINE_BROADCASTING)];
      marks := marks[session := mark];
    }

    // ---- Logs

    lemma PairsAfterLog(l: LogData)
      ensures forall h, p :: OfPair(history + [l], h, p) == OfPair(history, h, p) + (if IsOf(l, h, p) then [l] else [])
    {
      forall h, p ensures OfPair(history + [l], h, p) == OfPair(history, h, p) + (if IsOf(l, h, p) then [l] else []) {
        OfPairSnoc(history, l, h, p);
      }
    }

    /** The ring of a pair, created when it is missing. */
    method ComputeIfAbsent(host: Text, program: Text) returns (ring: InMemoryLogStorage)
      requires StoreValid()
      modifies `logStorage, `home
      ensures RingsOk() && fresh(home.Keys - old(home.Keys))
      ensures Stores(host, program) && logStorage[host][program] == ring
      ensures forall h, p :: Stores(h, p) <==> old(Stores(h, p)) || (h == host && p == program)
      ensures forall h, p :: old(Stores(h, p)) ==> logStorage[h][p] == old(logStorage)[h][p]
      ensures forall h :: h in logStorage ==> logStorage[h] != map[]
    {
      var hostLogStorage: map<Text, InMemoryLogStorage> := if host in logStorage then logStorage[host] else map[];
      if program in hostLogStorage {
        assert Stores(host, program);
        ring := hostLogStorage[program];
      } else {
        assert !Stores(host, program);
        ring := new InMemoryLogStorage(programLogStorageCapacity);
        AddRing(host, hostLogStorage, program, ring);
      }
    }

    method AddRing(host: Text, hostLogStorage: map<Text, InMemoryLogStorage>, program: Text, ring: InMemoryLogStorage)
      requires RingsOk() && !Stores(host, program) && OfPair(history, host, program) == []
      requires forall h :: h in logStorage ==> logStorage[h] != map[]
      requires hostLogStorage == if host in logStorage then logStorage[host] else map[]
      requires ring !in home && ring.logDataBuffer !in home
      requires ring.Valid() && ring.history == [] && ring.bufferSize == programLogStorageCapacity
      modifies `logStorage, `home
      ensures RingsOk() && home.Keys == old(home.Keys) + {ring, ring.logDataBuffer}
      ensures Stores(host, program) && logStorage[host][program] == ring
      ensures forall h, p :: Stores(h, p) <==> old(Stores(h, p)) || (h == host && p == program)
      ensures forall h, p :: old(Stores(h, p)) ==> logStorage[h][p] == old(logStorage)[h][p]
      ensures forall h :: h in logStorage ==> logStorage[h] != map[]
    {
      logStorage := logStorage[host := hostLogStorage[program := ring]];
      home := home[ring := (host, program)][ring.logDataBuffer := (host, program)];
      forall h, p | Stores(h, p) ensures RingOk(h, p) {
        if h != host || p != program {
          assert old(Stores(h, p)) && old(RingOk(h, p));
        }
      }
    }

    method StoreLog(logData: LogData) returns (added: bool)
      requires StoreValid() && logData.host.Some? && logData.program.Some?
      modifies `logStorage, `home, `history, home.Keys
      ensures StoreValid() && fresh(home.Keys - old(home.Keys))
      ensures added && history == old(history) + [logData]
    {
      var host, program := logData.host.value, logData.program.value;
      var ring := ComputeIfAbsent(host, program);
      added := AddToRing(logData, host, program, ring);
    }

    method AddToRing(logData: LogData, host: Text, program: Text, ring: InMemoryLogStorage) returns (added: bool)
      requires RingsOk() && IsOf(logData, host, program) && Stores(host, program) && logStorage[host][program] == ring
      requires forall l :: l in history ==> l.host.Some? && l.program.Some?
      requires forall h, p :: Stores(h, p) <==> OfPair(history, h, p) != [] || (h == host && p == program)
      requires forall h :: h in logStorage ==> logStorage[h] != map[]
      modifies `history, home.Keys
      ensures StoreValid()
      ensures added && history == old(history) + [logData]
    {
      assert RingOk(host, program);
      PairsAfterLog(logData);
      added := ring.Add(logData);
      history := history + [logData];
      forall h, p | Stores(h, p) ensures RingOk(h, p) {
        if h != host || p != program {
          assert old(RingOk(h, p));
        }
      }
    }

    /** One turn of the broadcast loop. */
    method Push(session: Session, logData: LogData, fails: bool)
      requires session in subscriptionStorage && session in delivered
      modifies `subscriptionStorage, `delivered
      ensures View() == PushTo(old(View()), session, logData, fails)
      ensures var candidate := old(subscriptionStorage)[session].IsBroadcastCandidateFor(logData);
              && subscriptionStorage == (if candidate && fails then old(subscriptionStorage) - {session} else old(subscriptionStorage))
              && delivered == (if candidate && !fails
                               then old(delivered)[session := old(delivered)[session] + [Response(true, [logData], None)]] else old(delivered))
    {
      if subscriptionStorage[session].IsBroadcastCandidateFor(logData) {
        if fails {
          subscriptionStorage := subscriptionStorage - {session};
        } else {
          delivered := delivered[session := delivered[session] + [Response(true, [logData], None)]];
        }
      }
    }

    /** A pass that has visited some of the sessions visits one more. */
    method Visit(session: Session, logData: LogData, failing: set<Session>, ghost before: Service, ghost visited: set<Session>)
      requires View() == BroadcastTo(before, logData, failing, visited)
      requires session in before.subscriptions && session in before.delivered && session !in visited
      modifies `subscriptionStorage, `delivered
      ensures View() == BroadcastTo(before, logData, failing, visited + {session})
    {
      BroadcastToNext(before, logData, failing, visited, session);
      Push(session, logData, session in failing);
    }

    method BroadcastLogDataToSubscribers(logData: LogData, failing: set<Session>)
      requires Valid()
      modifies `subscriptionStorage, `delivered
      ensures Valid()
      ensures View() == Broadcast(old(View()), logData, failing)
    {
      ghost var before := View();
      var rest := subscriptionStorage.Keys;
      BroadcastToNone(before, logData, failing);
      while rest != {}
        invariant rest <= before.subscriptions.Keys
        invariant View() == BroadcastTo(before, logData, failing, before.subscriptions.Keys - rest)
        decreases rest
      {
        ghost var visited := before.subscriptions.Keys - rest;
        var session :| session in rest;
        rest := rest - {session};
        assert before.subscriptions.Keys - rest == visited + {session};
        Visit(session, logData, failing, before, visited);
      }
      assert before.subscriptions.Keys - rest == before.subscriptions.Keys;
    }

    method HandleReceivedLogData(logData: LogData, failing: set<Session>)
      requires Valid()
      modifies this, home.Keys
      ensures Valid() && fresh(home.Keys - old(home.Keys))
      ensures View() == Apply(old(View()), Received(logData, failing))
    {
      if logData.host.None? || logData.program.None? {
        return;
      }
      var added := StoreLog(logData);
      if added {
        BroadcastLogDataToSubscribers(logData, failing);
      }
    }
  }
}
