/** The fixed-size ring buffer that holds the newest logs of one host and program. */
module LogStorage {
  import opened JavaText
  import opened LogModel

  /** Before the first wrap the buffer holds the whole history followed by nulls. */
  ghost predicate Filling(buffer: seq<Option<LogData>>, pointer: nat, history: seq<LogData>) {
    && pointer == |history| < |buffer|
    && (forall i :: 0 <= i < pointer ==> buffer[i] == Some(history[i]))
    && (forall i :: pointer <= i < |buffer| ==> buffer[i] == None)
  }

  /** From then on the slots below the pointer hold the newest logs, and those from the
      pointer on the logs before them. */
  ghost predicate Wrapped(buffer: seq<Option<LogData>>, pointer: nat, history: seq<LogData>) {
    var c, n := |history|, |buffer|;
    && pointer < n <= c
    && (forall i :: 0 <= i < pointer ==> buffer[i] == Some(history[c - pointer + i]))
    && (forall i :: pointer <= i < n ==> buffer[i] == Some(history[c - pointer - n + i]))
  }

  /** A buffer and its write pointer after a history of adds. */
  ghost predicate RingShape(buffer: seq<Option<LogData>>, pointer: nat, history: seq<LogData>) {
    Filling(buffer, pointer, history) || Wrapped(buffer, pointer, history)
  }

  lemma ModuloStep(c: nat, n: nat)
    requires 0 < n
    ensures (c + 1) % n == if c % n < n - 1 then c % n + 1 else 0
  {
    var q := c / n;
    assert c == q * n + c % n;
    if c % n < n - 1 {
      ModuloUnique(c + 1, n, q, c % n + 1);
    } else {
      assert (q + 1) * n == q * n + n;
      ModuloUnique(c + 1, n, q + 1, 0);
    }
  }

  lemma MultipleBound(d: int, n: nat)
    requires 0 < n
    ensures d >= 1 ==> d * n >= n
    ensures d <= -1 ==> d * n + n <= 0
  {
  }

  lemma ModuloUnique(c: int, n: nat, q: int, r: nat)
    requires 0 < n && r < n && c == q * n + r
    ensures c % n == r
  {
    var q', r' := c / n, c % n;
    assert c == q' * n + r';
    var d := q' - q;
    assert d * n == q' * n - q * n == r - r';
    MultipleBound(d, n);
  }

  lemma ModuloSmall(c: nat, n: nat)
    requires 0 < n
    ensures c < n ==> c % n == c
    ensures c == n ==> c % n == 0
  {
    if c < n { ModuloUnique(c, n, 0, c); }
    if c == n { ModuloUnique(c, n, 1, 0); }
  }

  lemma ModuloGap(j: nat, k: nat, n: nat)
    requires 0 < n && j < k < j + n
    ensures k % n != j % n
  {
    if k % n == j % n {
      var d := k / n - j / n;
      assert k == k / n * n + k % n && j == j / n * n + j % n;
      assert d * n == k / n * n - j / n * n == k - j;
      MultipleBound(d, n);
    }
  }

  /** The history index whose log sits in slot i once the buffer has wrapped. */
  function WrappedIndex(pointer: nat, c: nat, n: nat, i: nat): int {
    if i < pointer then c - pointer + i else c - pointer - n + i
  }

  lemma WrappedIndexCongruent(pointer: nat, c: nat, n: nat, i: nat)
    requires 0 < n && pointer == c % n && n <= c && i < n
    ensures var j := WrappedIndex(pointer, c, n, i); 0 <= j < c <= j + n && j % n == i
  {
    var q := c / n;
    assert c == q * n + pointer;
    assert (q - 1) * n == q * n - n;
    ModuloUnique(WrappedIndex(pointer, c, n, i), n, if i < pointer then q else q - 1, i);
  }

  /** Slot i holds the newest log of index congruent to i modulo the size, and is null when
      there is none. */
  lemma SlotHoldsNewest(buffer: seq<Option<LogData>>, pointer: nat, history: seq<LogData>, i: nat)
    requires RingShape(buffer, pointer, history) && pointer == |history| % |buffer| && i < |buffer|
    ensures buffer[i].None? ==> forall j :: 0 <= j < |history| ==> j % |buffer| != i
    ensures buffer[i].Some? ==>
              exists j :: 0 <= j < |history| && j % |buffer| == i && buffer[i] == Some(history[j])
                       && forall k :: j < k < |history| ==> k % |buffer| != i
  {
    var n, c := |buffer|, |history|;
    if c < n {
      forall j | 0 <= j < n ensures j % n == j { ModuloSmall(j, n); }
      if i < c { assert i % n == i; }
    } else {
      WrappedIndexCongruent(pointer, c, n, i);
      var j := WrappedIndex(pointer, c, n, i);
      forall k | j < k < c ensures k % n != i { ModuloGap(j, k, n); }
      assert j % n == i && buffer[i] == Some(history[j]);
    }
  }

  /** The non-null entries in slot order. */
  function Present(buffer: seq<Option<LogData>>): seq<LogData> {
    if buffer == [] then []
    else (if buffer[0].Some? then [buffer[0].value] else []) + Present(buffer[1..])
  }

  lemma {:induction false} PresentSnoc(buffer: seq<Option<LogData>>, x: Option<LogData>)
    ensures Present(buffer + [x]) == Present(buffer) + (if x.Some? then [x.value] else [])
  {
    if buffer == [] {
      assert buffer + [x] == [x] && [x][1..] == [];
      assert Present([x][1..]) == [];
    } else {
      PresentSnoc(buffer[1..], x);
      assert (buffer + [x])[0] == buffer[0] && (buffer + [x])[1..] == buffer[1..] + [x];
    }
  }

  lemma {:induction false} PresentOfLogs(buffer: seq<Option<LogData>>, logs: seq<LogData>)
    requires |logs| <= |buffer|
    requires forall i :: 0 <= i < |buffer| ==> buffer[i] == if i < |logs| then Some(logs[i]) else None
    ensures Present(buffer) == logs
  {
    if buffer != [] {
      if logs == [] {
        PresentOfLogs(buffer[1..], []);
      } else {
        PresentOfLogs(buffer[1..], logs[1..]);
        assert logs == [logs[0]] + logs[1..];
      }
    }
  }

  /** A wrapped buffer is its newest logs followed by the ones before them. */
  lemma WrappedParts(buffer: seq<Option<LogData>>, pointer: nat, history: seq<LogData>)
    returns (newer: seq<LogData>, older: seq<LogData>)
    requires Wrapped(buffer, pointer, history)
    ensures Present(buffer) == newer + older && Newest(history, |buffer|) == older + newer
  {
    var c := |history|;
    newer, older := history[c - pointer..], history[c - |buffer|..c - pointer];
    forall i | 0 <= i < |buffer| ensures buffer[i] == Some((newer + older)[i]) {
    }
    PresentOfLogs(buffer, newer + older);
    NewestSplit(history, |buffer|, pointer);
  }

  lemma NewestSplit(history: seq<LogData>, n: nat, pointer: nat)
    requires pointer < n <= |history|
    ensures var c := |history|; Newest(history, n) == history[c - n..c - pointer] + history[c - pointer..]
  {
  }

  lemma BagOfRotation<T>(a: seq<T>, b: seq<T>, ab: seq<T>, ba: seq<T>)
    requires ab == a + b && ba == b + a
    ensures multiset(ab) == multiset(ba)
  {
  }

  /** The ring holds exactly the newest logs of its history, as a multiset. */
  lemma RingHoldsNewest(buffer: seq<Option<LogData>>, pointer: nat, history: seq<LogData>)
    requires RingShape(buffer, pointer, history)
    ensures multiset(Present(buffer)) == multiset(Newest(history, |buffer|))
  {
    if Filling(buffer, pointer, history) {
      PresentOfLogs(buffer, history);
    } else {
      var newer, older := WrappedParts(buffer, pointer, history);
      BagOfRotation(newer, older, Present(buffer), Newest(history, |buffer|));
    }
  }

  class InMemoryLogStorage {
    const bufferSize: nat
    const logDataBuffer: array<Option<LogData>>
    var currentLogDataPointer: nat
    ghost var history: seq<LogData>

    ghost predicate Valid()
      reads this, logDataBuffer
    {
      && logDataBuffer.Length == bufferSize
      && (if bufferSize == 0 then history == [] && currentLogDataPointer == 0
          else RingShape(logDataBuffer[..], currentLogDataPointer, history) && currentLogDataPointer == |history| % bufferSize)
    }

    constructor (bufferSize: nat)
      ensures Valid() && history == [] && this.bufferSize == bufferSize
      ensures fresh(logDataBuffer)
    {
      this.bufferSize := bufferSize;
      logDataBuffer := new Option<LogData>[bufferSize](_ => None);
      currentLogDataPointer := 0;
      history := [];
    }

    /** A buffer without slots refuses every log by an exception, for which false stands. */
    method Add(logData: LogData) returns (added: bool)
      requires Valid()
      modifies this, logDataBuffer
      ensures Valid() && (added <==> bufferSize > 0)
      ensures history == if added then old(history) + [logData] else old(history)
      ensures added ==> logDataBuffer[..] == old(logDataBuffer[..])[old(currentLogDataPointer) := Some(logData)]
    {
      if currentLogDataPointer >= bufferSize {
        return false;
      }
      ModuloStep(|history|, bufferSize);
      ModuloSmall(|history|, bufferSize);
      ModuloSmall(|history| + 1, bufferSize);
      logDataBuffer[currentLogDataPointer] := Some(logData);
      if currentLogDataPointer < bufferSize - 1 {
        currentLogDataPointer := currentLogDataPointer + 1;
      } else {
        currentLogDataPointer := 0;
      }
      history := history + [logData];
      added := true;
    }

    /** Null stands for the exception thrown by comparing a null date. */
    method AsLogList() returns (logs: Option<seq<LogData>>)
      requires Valid()
      ensures logs.Some? <==> Sortable(Newest(history, bufferSize))
      ensures logs.Some? ==> logs.value == SortByDate(Present(logDataBuffer[..]))
      ensures logs.Some? ==> OldestFirst(logs.value)
      ensures logs.Some? ==> multiset(logs.value) == multiset(Newest(history, bufferSize))
    {
      var logDataList := [];
      for i := 0 to bufferSize
        invariant logDataList == Present(logDataBuffer[..i])
      {
        var logData := logDataBuffer[i];
        PresentSnoc(logDataBuffer[..i], logData);
        assert logDataBuffer[..i + 1] == logDataBuffer[..i] + [logData];
        if logData.Some? {
          logDataList := logDataList + [logData.value];
        }
      }
      assert logDataBuffer[..bufferSize] == logDataBuffer[..];
      if bufferSize > 0 { RingHoldsNewest(logDataBuffer[..], currentLogDataPointer, history); }
      SortableOfBag(logDataList, Newest(history, bufferSize));
      SortFacts(logDataList);
      if |logDataList| > 1 {
        if !Sortable(logDataList) {
          return None;
        }
        logDataList := SortByDate(logDataList);
      } else {
        SortOfFew(logDataList);
      }
      SortableOfBag(logDataList, Newest(history, bufferSize));
      SortedIsOldestFirst(logDataList);
      logs := Some(logDataList);
    }
  }
}
