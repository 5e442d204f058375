/** The log record as a value, and stable sorting by date. */
module LogModel {
  import opened JavaText

  /** A log record; every field of the original may be null. */
  datatype LogData = LogData(
    date: Option<int>, host: Option<Text>, program: Option<Text>, message: Option<Text>,
    facility: Option<int>, severity: Option<int>, id: Option<int>, hash: Option<Text>)

  predicate IsOf(l: LogData, host: Text, program: Text) {
    l.host == Some(host) && l.program == Some(program)
  }

  function DateKey(l: LogData): int {
    if l.date.Some? then l.date.value else 0
  }

  /** Sorting compares dates as soon as there are two records, and comparing a null date
      throws; so a list can be sorted exactly when this holds. */
  predicate Sortable(logs: seq<LogData>) {
    |logs| <= 1 || forall i :: 0 <= i < |logs| ==> logs[i].date.Some?
  }

  predicate DateSorted(logs: seq<LogData>) {
    forall i, j :: 0 <= i < j < |logs| ==> DateKey(logs[i]) <= DateKey(logs[j])
  }

  /** Records of dates that are present and do not decrease; a single record needs no date. */
  predicate OldestFirst(logs: seq<LogData>) {
    |logs| > 1 ==> forall i, j :: 0 <= i < j < |logs| ==> EarlierOrSame(logs[i], logs[j])
  }

  predicate EarlierOrSame(a: LogData, b: LogData) {
    a.date.Some? && b.date.Some? && a.date.value <= b.date.value
  }

  lemma SortedIsOldestFirst(logs: seq<LogData>)
    requires Sortable(logs)
    ensures DateSorted(logs) <==> OldestFirst(logs)
  {
    if OldestFirst(logs) {
      forall i, j | 0 <= i < j < |logs| ensures DateKey(logs[i]) <= DateKey(logs[j]) {
        assert EarlierOrSame(logs[i], logs[j]);
      }
    }
    if DateSorted(logs) {
      forall i, j | 0 <= i < j < |logs| ensures EarlierOrSame(logs[i], logs[j]) {
        assert DateKey(logs[i]) <= DateKey(logs[j]);
      }
    }
  }

  /** Puts l in front of the first record that is not older. */
  function InsertByDate(l: LogData, sorted: seq<LogData>): seq<LogData> {
    if sorted == [] || DateKey(l) <= DateKey(sorted[0]) then [l] + sorted
    else [sorted[0]] + InsertByDate(l, sorted[1..])
  }

  /** List.sort and Stream.sorted with the date comparator. */
  function SortByDate(logs: seq<LogData>): seq<LogData> {
    if logs == [] then [] else InsertByDate(logs[0], SortByDate(logs[1..]))
  }

  lemma SortedCons(l: LogData, rest: seq<LogData>)
    requires DateSorted(rest) && (rest != [] ==> DateKey(l) <= DateKey(rest[0]))
    ensures DateSorted([l] + rest)
  {
    var all := [l] + rest;
    forall i, j | 0 <= i < j < |all| ensures DateKey(all[i]) <= DateKey(all[j]) {
      assert all[j] == rest[j - 1];
      if i > 0 { assert all[i] == rest[i - 1]; }
    }
  }

  lemma {:induction false} InsertSorted(l: LogData, sorted: seq<LogData>)
    requires DateSorted(sorted)
    ensures DateSorted(InsertByDate(l, sorted))
    ensures InsertByDate(l, sorted) != []
    ensures InsertByDate(l, sorted)[0] == l || (sorted != [] && InsertByDate(l, sorted)[0] == sorted[0])
  {
    if sorted == [] || DateKey(l) <= DateKey(sorted[0]) {
      SortedCons(l, sorted);
    } else {
      InsertSorted(l, sorted[1..]);
      SortedCons(sorted[0], InsertByDate(l, sorted[1..]));
    }
  }

  lemma {:induction false} InsertKeepsAll(l: LogData, sorted: seq<LogData>)
    ensures multiset(InsertByDate(l, sorted)) == multiset(sorted) + multiset{l}
  {
    if sorted != [] && DateKey(l) > DateKey(sorted[0]) {
      InsertKeepsAll(l, sorted[1..]);
      assert sorted == [sorted[0]] + sorted[1..];
    }
  }

  /** Sorting orders the records by date and keeps each one. */
  lemma {:induction false} SortFacts(logs: seq<LogData>)
    ensures DateSorted(SortByDate(logs))
    ensures multiset(SortByDate(logs)) == multiset(logs)
  {
    if logs != [] {
      SortFacts(logs[1..]);
      InsertSorted(logs[0], SortByDate(logs[1..]));
      InsertKeepsAll(logs[0], SortByDate(logs[1..]));
      assert logs == [logs[0]] + logs[1..];
    }
  }

  /** The records with one date key, in order. */
  function OfDate(logs: seq<LogData>, key: int): seq<LogData> {
    if logs == [] then []
    else (if DateKey(logs[0]) == key then [logs[0]] else []) + OfDate(logs[1..], key)
  }

  lemma {:induction false} InsertStable(l: LogData, sorted: seq<LogData>, key: int)
    ensures OfDate(InsertByDate(l, sorted), key) == OfDate([l] + sorted, key)
  {
    assert ([l] + sorted)[1..] == sorted;
    if sorted != [] && DateKey(l) > DateKey(sorted[0]) {
      var rest := InsertByDate(l, sorted[1..]);
      InsertStable(l, sorted[1..], key);
      assert ([l] + sorted[1..])[1..] == sorted[1..];
      assert ([sorted[0]] + rest)[1..] == rest;
    }
  }

  /** Sorting keeps records of equal date in their order. */
  lemma {:induction false} SortStable(logs: seq<LogData>, key: int)
    ensures OfDate(SortByDate(logs), key) == OfDate(logs, key)
  {
    if logs != [] {
      SortStable(logs[1..], key);
      InsertStable(logs[0], SortByDate(logs[1..]), key);
      assert ([logs[0]] + SortByDate(logs[1..]))[1..] == SortByDate(logs[1..]);
    }
  }

  lemma {:induction false} OldestDateBound(logs: seq<LogData>, key: int)
    requires DateSorted(logs) && OfDate(logs, key) != []
    ensures logs != [] && DateKey(logs[0]) <= key
  {
    if DateKey(logs[0]) != key { OldestDateBound(logs[1..], key); }
  }

  /** A sorted arrangement is fixed by its per-date subsequences, so any stable date sort,
      however it works, returns SortByDate. */
  lemma {:induction false} StableSortUnique(a: seq<LogData>, b: seq<LogData>)
    requires DateSorted(a) && DateSorted(b)
    requires forall key :: OfDate(a, key) == OfDate(b, key)
    ensures a == b
  {
    if b != [] {
      assert OfDate(a, DateKey(b[0])) == OfDate(b, DateKey(b[0]));
    }
    if a != [] {
      assert OfDate(a, DateKey(a[0])) != [];
      OldestDateBound(b, DateKey(a[0]));
      assert OfDate(b, DateKey(b[0])) == OfDate(a, DateKey(b[0]));
      OldestDateBound(a, DateKey(b[0]));
      assert OfDate(a, DateKey(a[0]))[0] == a[0];
      assert OfDate(b, DateKey(b[0]))[0] == b[0];
      forall key ensures OfDate(a[1..], key) == OfDate(b[1..], key) {
        assert OfDate(a, key) == OfDate(b, key);
        var headA := if DateKey(a[0]) == key then [a[0]] else [];
        var headB := if DateKey(b[0]) == key then [b[0]] else [];
        assert OfDate(a, key) == headA + OfDate(a[1..], key);
        assert OfDate(b, key) == headB + OfDate(b[1..], key);
        assert headA == headB;
        assert OfDate(a, key)[|headA|..] == OfDate(b, key)[|headA|..];
      }
      StableSortUnique(a[1..], b[1..]);
      assert a == [a[0]] + a[1..] && b == [b[0]] + b[1..];
    }
  }

  lemma SortOfFew(logs: seq<LogData>)
    requires |logs| <= 1
    ensures SortByDate(logs) == logs
  {
    if logs != [] {
      assert logs[1..] == [];
      assert SortByDate(logs[1..]) == [];
    }
  }

  /** Whether a list can be sorted depends on its records only, not on their order. */
  lemma SortableOfBag(a: seq<LogData>, b: seq<LogData>)
    requires multiset(a) == multiset(b)
    ensures Sortable(a) == Sortable(b)
  {
    assert |a| == |multiset(a)| == |b|;
    forall i | 0 <= i < |a| ensures a[i] in b { assert a[i] in multiset(b); }
    forall i | 0 <= i < |b| ensures b[i] in a { assert b[i] in multiset(a); }
  }

  // ---- What a bounded store keeps of a history

  /** The logs of one host and program, in order of arrival. */
  function OfPair(history: seq<LogData>, host: Text, program: Text): seq<LogData> {
    if history == [] then []
    else (if IsOf(history[0], host, program) then [history[0]] else []) + OfPair(history[1..], host, program)
  }

  function Newest<T>(s: seq<T>, n: nat): seq<T> {
    if |s| <= n then s else s[|s| - n..]
  }

  predicate Matches(l: LogData, hosts: seq<Text>, programs: seq<Text>) {
    l.host.Some? && l.program.Some? && l.host.value in hosts && l.program.value in programs
  }

  /** The logs of a history, in order of arrival, whose host and program are asked for and
      which fewer than capacity later logs of the same host and program have followed. */
  function Held(history: seq<LogData>, capacity: nat, hosts: seq<Text>, programs: seq<Text>): seq<LogData> {
    if history == [] then []
    else
      var rest := Held(history[1..], capacity, hosts, programs);
      if Keeps(history[0], history[1..], capacity, hosts, programs) then [history[0]] + rest else rest
  }

  predicate Keeps(l: LogData, later: seq<LogData>, capacity: nat, hosts: seq<Text>, programs: seq<Text>) {
    Matches(l, hosts, programs) && |OfPair(later, l.host.value, l.program.value)| < capacity
  }

  lemma {:induction false} OfPairMembers(history: seq<LogData>, host: Text, program: Text)
    ensures forall l :: l in OfPair(history, host, program) <==> l in history && IsOf(l, host, program)
  {
    if history != [] {
      OfPairMembers(history[1..], host, program);
      assert history == [history[0]] + history[1..];
    }
  }

  lemma {:induction false} OfPairAppend(a: seq<LogData>, b: seq<LogData>, host: Text, program: Text)
    ensures OfPair(a + b, host, program) == OfPair(a, host, program) + OfPair(b, host, program)
  {
    if a == [] {
      assert a + b == b;
    } else {
      OfPairAppend(a[1..], b, host, program);
      assert (a + b)[1..] == a[1..] + b;
    }
  }

  lemma OfPairSnoc(history: seq<LogData>, l: LogData, host: Text, program: Text)
    ensures OfPair(history + [l], host, program)
         == OfPair(history, host, program) + (if IsOf(l, host, program) then [l] else [])
  {
    OfPairAppend(history, [l], host, program);
    assert [l][1..] == [];
    assert OfPair([l][1..], host, program) == [];
  }

  lemma OfPairCons(l: LogData, logs: seq<LogData>, host: Text, program: Text)
    ensures OfPair([l] + logs, host, program)
         == (if IsOf(l, host, program) then [l] else []) + OfPair(logs, host, program)
  {
    assert ([l] + logs)[1..] == logs;
  }

  lemma NewestCons<T>(x: T, s: seq<T>, n: nat)
    ensures Newest([x] + s, n) == if |s| < n then [x] + Newest(s, n) else Newest(s, n)
    ensures [] + s == s
  {
    if |s| >= n { assert ([x] + s)[|s| + 1 - n..] == s[|s| - n..]; }
  }

  /** One step of HeldOfPair: what the oldest log adds to the held logs of a pair. */
  lemma HeldOfPairCons(l: LogData, later: seq<LogData>, capacity: nat, hosts: seq<Text>, programs: seq<Text>,
                       host: Text, program: Text)
    ensures OfPair(Held([l] + later, capacity, hosts, programs), host, program)
         == (if IsOf(l, host, program) && Keeps(l, later, capacity, hosts, programs) then [l] else [])
            + OfPair(Held(later, capacity, hosts, programs), host, program)
  {
    assert ([l] + later)[1..] == later;
    OfPairCons(l, Held(later, capacity, hosts, programs), host, program);
  }

  /** Held is, pair by pair, the newest capacity logs of each requested pair. */
  lemma {:induction false} HeldOfPair(history: seq<LogData>, capacity: nat, hosts: seq<Text>, programs: seq<Text>,
                                      host: Text, program: Text)
    ensures OfPair(Held(history, capacity, hosts, programs), host, program)
         == if host in hosts && program in programs then Newest(OfPair(history, host, program), capacity) else []
  {
    if history != [] {
      var l, later := history[0], history[1..];
      HeldOfPair(later, capacity, hosts, programs, host, program);
      assert history == [l] + later;
      HeldOfPairCons(l, later, capacity, hosts, programs, host, program);
      var ofPair, held := OfPair(later, host, program), OfPair(Held(later, capacity, hosts, programs), host, program);
      NewestCons(l, ofPair, capacity);
      assert OfPair(history, host, program) == (if IsOf(l, host, program) then [l] + ofPair else ofPair) by {
        OfPairCons(l, later, host, program);
      }
      assert OfPair(Held(history, capacity, hosts, programs), host, program)
          == if IsOf(l, host, program) && Keeps(l, later, capacity, hosts, programs) then [l] + held else held;
    }
  }

  /** A record is counted in a list as often as among the records of its own pair. */
  lemma {:induction false} CountInPair(logs: seq<LogData>, x: LogData)
    requires x.host.Some? && x.program.Some?
    ensures multiset(logs)[x] == multiset(OfPair(logs, x.host.value, x.program.value))[x]
  {
    if logs != [] {
      CountInPair(logs[1..], x);
      assert logs == [logs[0]] + logs[1..];
      if IsOf(logs[0], x.host.value, x.program.value) {
        assert OfPair(logs, x.host.value, x.program.value) == [logs[0]] + OfPair(logs[1..], x.host.value, x.program.value);
      }
    }
  }

  /** How often a record is held: as often as in the newest logs of its pair when the pair
      is asked for, else never. */
  lemma HeldCount(history: seq<LogData>, capacity: nat, hosts: seq<Text>, programs: seq<Text>, x: LogData)
    ensures multiset(Held(history, capacity, hosts, programs))[x]
         == if Matches(x, hosts, programs)
            then multiset(Newest(OfPair(history, x.host.value, x.program.value), capacity))[x]
            else 0
  {
    if x.host.Some? && x.program.Some? {
      CountInPair(Held(history, capacity, hosts, programs), x);
      HeldOfPair(history, capacity, hosts, programs, x.host.value, x.program.value);
    } else {
      HeldMatches(history, capacity, hosts, programs);
      var held := Held(history, capacity, hosts, programs);
      assert x !in held;
    }
  }

  lemma {:induction false} HeldMatches(history: seq<LogData>, capacity: nat, hosts: seq<Text>, programs: seq<Text>)
    ensures forall i :: 0 <= i < |Held(history, capacity, hosts, programs)|
                   ==> Matches(Held(history, capacity, hosts, programs)[i], hosts, programs)
  {
    if history != [] { HeldMatches(history[1..], capacity, hosts, programs); }
  }

  /** A new log enters the held records when it matches, and nothing else enters. */
  lemma {:induction false} HeldSnoc(history: seq<LogData>, l: LogData, capacity: nat, hosts: seq<Text>, programs: seq<Text>)
    ensures multiset(Held(history + [l], capacity, hosts, programs))
         <= multiset(Held(history, capacity, hosts, programs)) + (if Matches(l, hosts, programs) then multiset{l} else multiset{})
  {
    if history == [] {
      assert history + [l] == [l] && [l][1..] == [];
      assert Held([l][1..], capacity, hosts, programs) == [];
    } else {
      var first := history[0];
      var before := Held(history[1..], capacity, hosts, programs);
      var after := Held(history[1..] + [l], capacity, hosts, programs);
      HeldSnoc(history[1..], l, capacity, hosts, programs);
      assert (history + [l])[0] == first && (history + [l])[1..] == history[1..] + [l];
      if Keeps(first, history[1..] + [l], capacity, hosts, programs) {
        OfPairSnoc(history[1..], l, first.host.value, first.program.value);
        assert Keeps(first, history[1..], capacity, hosts, programs);
        assert multiset([first] + after) == multiset{first} + multiset(after);
        assert multiset([first] + before) == multiset{first} + multiset(before);
      } else if Keeps(first, history[1..], capacity, hosts, programs) {
        assert multiset([first] + before) == multiset{first} + multiset(before);
      }
    }
  }
}
