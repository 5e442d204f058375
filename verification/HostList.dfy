/** The page that registers hosts: a text area filled with the unprocessed host names, and the
    parser of what the user submits. */
module HostList {
  import opened JavaText

  // ---- Filling the text area

  /** What one name adds: a separator follows it unless it equals the last name of the list. */
  function Entry(name: Text, last: Text): Text {
    if name == last then name else name + [SEMICOLON]
  }

  function Prefill(names: seq<Text>, last: Text): Text {
    if names == [] then [] else Entry(names[0], last) + Prefill(names[1..], last)
  }

  /** The text shown for a list of unprocessed hosts; nothing is shown for an empty list. */
  method PrefillHosts(unprocessedHosts: seq<Text>) returns (hosts: Option<Text>)
    ensures hosts.None? <==> unprocessedHosts == []
    ensures hosts.Some? ==> hosts.value == Prefill(unprocessedHosts, unprocessedHosts[|unprocessedHosts| - 1])
  {
    if unprocessedHosts == [] {
      return None;
    }
    var last := unprocessedHosts[|unprocessedHosts| - 1];
    var resultString: Text := [];
    for i := 0 to |unprocessedHosts|
      invariant Prefill(unprocessedHosts, last) == resultString + Prefill(unprocessedHosts[i..], last)
    {
      var unprocessedHost := unprocessedHosts[i];
      ghost var before := resultString;
      resultString := resultString + unprocessedHost;
      if last != unprocessedHost {
        resultString := resultString + [SEMICOLON];
      }
      assert resultString == before + Entry(unprocessedHost, last);
      assert unprocessedHosts[i..][1..] == unprocessedHosts[i + 1..];
      Associative(before, Entry(unprocessedHost, last), Prefill(unprocessedHosts[i + 1..], last));
    }
    hosts := Some(resultString);
  }

  // ---- Parsing a submitted text

  datatype HostData = HostData(hostname: Text, ipAddress: Text)

  /** Rejected is the return value false; Failed is an exception: of an entry without fields, or of
      a host that the database does not accept. */
  datatype Outcome = Saved(hosts: seq<HostData>) | Rejected | Failed

  function HostOf(fields: seq<Text>): HostData
    requires 1 <= |fields| <= 2
  {
    HostData(fields[0], if |fields| == 1 then [] else fields[1])
  }

  /** What becomes of the entries that are left, after the hosts before them. */
  function ParseEntries(entries: seq<Text>, parsed: seq<HostData>): Outcome
    decreases |entries|
  {
    if entries == [] then Saved(parsed)
    else
      var fields := Split(entries[0], COMMA);
      if |fields| > 2 then Rejected
      else if fields == [] then Failed
      else ParseEntries(entries[1..], parsed + [HostOf(fields)])
  }

  /** What becomes of parsed hosts when they are saved. */
  function Submitted(parsed: Outcome, accepted: nat): Outcome {
    if parsed.Saved? && accepted < |parsed.hosts| then Failed else parsed
  }

  function ParseHosts(originValue: Text): Outcome {
    var entries := Split(Trim(originValue), SEMICOLON);
    if entries == [] then Rejected else ParseEntries(entries, [])
  }

  /** The collector in front of the database; `accepted` is how many hosts in a row the database
      accepts before it refuses one. */
  class HostStore {
    var saved: seq<HostData>

    /** Saves host after host in one transaction: one that is refused raises an exception and
        undoes the others. */
    method SaveHosts(hosts: seq<HostData>, accepted: nat) returns (ok: bool)
      modifies this
      ensures ok <==> accepted >= |hosts|
      ensures saved == if ok then old(saved) + hosts else old(saved)
    {
      var before := saved;
      for i := 0 to |hosts|
        invariant before == old(saved) && saved == before + hosts[..i] && i <= accepted
      {
        if i == accepted {
          saved := before;
          return false;
        }
        saved := saved + [hosts[i]];
        assert hosts[..i + 1] == hosts[..i] + [hosts[i]];
      }
      assert hosts[..|hosts|] == hosts;
      ok := true;
    }
  }

  class AddHostsPage {
    const logCollector: HostStore

    constructor (logCollector: HostStore)
      ensures this.logCollector == logCollector
    {
      this.logCollector := logCollector;
    }

    /** Saves all hosts, or nothing. */
    method SubmitHosts(originValue: Text, accepted: nat) returns (outcome: Outcome)
      modifies logCollector
      ensures outcome == Submitted(ParseHosts(originValue), accepted)
      ensures logCollector.saved == if outcome.Saved? then old(logCollector.saved) + outcome.hosts else old(logCollector.saved)
    {
      var value := Trim(originValue);
      var hostsDataArray := Split(value, SEMICOLON);
      if |hostsDataArray| <= 0 {
        return Rejected;
      }
      var hostDataList: seq<HostData> := [];
      for i := 0 to |hostsDataArray|
        invariant logCollector.saved == old(logCollector.saved)
        invariant ParseEntries(hostsDataArray, []) == ParseEntries(hostsDataArray[i..], hostDataList)
      {
        var host := Split(hostsDataArray[i], COMMA);
        assert hostsDataArray[i..][1..] == hostsDataArray[i + 1..];
        if |host| > 2 {
          return Rejected;
        }
        if |host| == 0 {
          return Failed;
        }
        var hostData := HostData(host[0], if |host| == 1 then [] else host[1]);
        hostDataList := hostDataList + [hostData];
      }
      var ok := logCollector.SaveHosts(hostDataList, accepted);
      outcome := if ok then Saved(hostDataList) else Failed;
    }
  }

  // ---- When a text is accepted

  predicate WellFormed(entry: Text) {
    1 <= |Split(entry, COMMA)| <= 2
  }

  predicate AllWellFormed(entries: seq<Text>) {
    forall i :: 0 <= i < |entries| ==> WellFormed(entries[i])
  }

  /** The hosts that well-formed entries stand for. */
  function HostsOf(entries: seq<Text>): (hosts: seq<HostData>)
    requires AllWellFormed(entries)
    ensures |hosts| == |entries|
  {
    if entries == [] then [] else [HostOf(Split(entries[0], COMMA))] + HostsOf(entries[1..])
  }

  lemma {:induction false} AllAreSaved(entries: seq<Text>, parsed: seq<HostData>)
    requires AllWellFormed(entries)
    ensures ParseEntries(entries, parsed) == Saved(parsed + HostsOf(entries))
    decreases |entries|
  {
    if entries == [] {
      assert parsed + [] == parsed;
    } else {
      assert WellFormed(entries[0]);
      var host := HostOf(Split(entries[0], COMMA));
      AllAreSaved(entries[1..], parsed + [host]);
      Associative(parsed, [host], HostsOf(entries[1..]));
    }
  }

  /** The first entry that is not well-formed decides what happens instead of saving. */
  lemma {:induction false} FirstBadEntryDecides(entries: seq<Text>, parsed: seq<HostData>, bad: nat)
    requires bad < |entries| && AllWellFormed(entries[..bad]) && !WellFormed(entries[bad])
    ensures ParseEntries(entries, parsed) == if |Split(entries[bad], COMMA)| > 2 then Rejected else Failed
    decreases |entries|
  {
    if bad > 0 {
      assert WellFormed(entries[..bad][0]);
      assert entries[1..][..bad - 1] == entries[..bad][1..];
      FirstBadEntryDecides(entries[1..], parsed + [HostOf(Split(entries[0], COMMA))], bad - 1);
    }
  }

  lemma {:induction false} FirstBadEntry(entries: seq<Text>) returns (bad: nat)
    requires !AllWellFormed(entries)
    ensures bad < |entries| && AllWellFormed(entries[..bad]) && !WellFormed(entries[bad])
  {
    if WellFormed(entries[0]) {
      var later := FirstBadEntry(entries[1..]);
      bad := later + 1;
      assert entries[..bad] == [entries[0]] + entries[1..][..later];
    } else {
      bad := 0;
    }
  }

  /** A text is saved exactly when it has entries and each has one or two fields; an entry with
      more fields, like one without any, means that nothing is saved. */
  lemma SavedIffWellFormed(originValue: Text)
    ensures var entries := Split(Trim(originValue), SEMICOLON);
            && (ParseHosts(originValue).Saved? <==> entries != [] && AllWellFormed(entries))
            && (ParseHosts(originValue).Saved? ==> ParseHosts(originValue).hosts == HostsOf(entries))
  {
    var entries := Split(Trim(originValue), SEMICOLON);
    if AllWellFormed(entries) {
      AllAreSaved(entries, []);
      assert [] + HostsOf(entries) == HostsOf(entries);
    } else {
      var bad := FirstBadEntry(entries);
      FirstBadEntryDecides(entries, [], bad);
    }
  }

  /** A saved host has the first field of its entry as name and the second, if there is one, as
      address. */
  lemma {:induction false} HostsAreFields(entries: seq<Text>, i: nat)
    requires AllWellFormed(entries) && i < |entries|
    ensures HostsOf(entries)[i].hostname == Split(entries[i], COMMA)[0]
    ensures HostsOf(entries)[i].ipAddress == if |Split(entries[i], COMMA)| == 2 then Split(entries[i], COMMA)[1] else []
  {
    assert WellFormed(entries[0]);
    if i > 0 { HostsAreFields(entries[1..], i - 1); }
  }

  /** The entries are all there is to a submitted text: besides outer blanks, only semicolons at
      its end are ignored. */
  lemma EntriesAreTheText(originValue: Text) returns (ignored: Text)
    ensures Trim(originValue) == Join(Split(Trim(originValue), SEMICOLON), SEMICOLON) + ignored && AllAre(ignored, SEMICOLON)
  {
    ignored := SplitConserves(Trim(originValue), SEMICOLON);
  }

  // ---- The text area submitted as it was filled

  predicate IsName(name: Text) {
    && name != [] && name[0] > SPACE && name[|name| - 1] > SPACE
    && SEMICOLON !in name && COMMA !in name
  }

  predicate AllNames(names: seq<Text>) {
    forall i :: 0 <= i < |names| ==> IsName(names[i])
  }

  /** An entry as it is written for a host. */
  function Written(host: HostData): Text {
    if host.ipAddress == [] then host.hostname else host.hostname + [COMMA] + host.ipAddress
  }

  function AllWritten(hosts: seq<HostData>): (entries: seq<Text>)
    ensures |entries| == |hosts|
  {
    if hosts == [] then [] else [Written(hosts[0])] + AllWritten(hosts[1..])
  }

  predicate IsHost(host: HostData) {
    IsName(host.hostname) && (host.ipAddress == [] || IsName(host.ipAddress))
  }

  lemma WrittenIsRead(host: HostData)
    requires IsHost(host)
    ensures Split(Written(host), COMMA) == if host.ipAddress == [] then [host.hostname] else [host.hostname, host.ipAddress]
    ensures SEMICOLON !in Written(host)
    ensures var t := Written(host); t != [] && t[0] > SPACE && t[|t| - 1] > SPACE
  {
    if host.ipAddress != [] {
      var fields := [host.hostname, host.ipAddress];
      assert Join(fields[1..], COMMA) == host.ipAddress;
      SplitOfJoin(fields, COMMA);
    }
  }

  lemma {:induction false} AllWrittenAreRead(hosts: seq<HostData>)
    requires forall i :: 0 <= i < |hosts| ==> IsHost(hosts[i])
    ensures AllWellFormed(AllWritten(hosts)) && HostsOf(AllWritten(hosts)) == hosts
    ensures forall i :: 0 <= i < |hosts| ==> SEMICOLON !in AllWritten(hosts)[i] && AllWritten(hosts)[i] != []
  {
    if hosts != [] {
      WrittenIsRead(hosts[0]);
      AllWrittenAreRead(hosts[1..]);
      HostsOfCons(Written(hosts[0]), AllWritten(hosts[1..]));
    }
  }

  lemma HostsOfCons(entry: Text, entries: seq<Text>)
    requires WellFormed(entry) && AllWellFormed(entries)
    ensures AllWellFormed([entry] + entries)
    ensures HostsOf([entry] + entries) == [HostOf(Split(entry, COMMA))] + HostsOf(entries)
  {
    assert ([entry] + entries)[1..] == entries;
  }

  lemma {:induction false} WrittenEnds(hosts: seq<HostData>)
    requires hosts != [] && forall i :: 0 <= i < |hosts| ==> IsHost(hosts[i])
    ensures var t := Join(AllWritten(hosts), SEMICOLON); t != [] && t[0] > SPACE && t[|t| - 1] > SPACE
  {
    WrittenIsRead(hosts[0]);
    if |hosts| > 1 {
      WrittenEnds(hosts[1..]);
      JoinCons(Written(hosts[0]), AllWritten(hosts[1..]), SEMICOLON);
    }
  }

  /** The general round trip: hosts with or without address, written as "name" or "name,address"
      and joined by semicolons, are saved exactly as they are, in order. */
  lemma WrittenIsSaved(hosts: seq<HostData>)
    requires hosts != [] && forall i :: 0 <= i < |hosts| ==> IsHost(hosts[i])
    ensures ParseHosts(Join(AllWritten(hosts), SEMICOLON)) == Saved(hosts)
  {
    var text := Join(AllWritten(hosts), SEMICOLON);
    WrittenEnds(hosts);
    assert Trim(text) == text;
    AllWrittenAreRead(hosts);
    SplitOfJoin(AllWritten(hosts), SEMICOLON);
    SavedIffWellFormed(text);
  }

  function PlainHosts(names: seq<Text>): (hosts: seq<HostData>)
    ensures |hosts| == |names|
  {
    if names == [] then [] else [HostData(names[0], [])] + PlainHosts(names[1..])
  }

  lemma {:induction false} NamesAreEntries(names: seq<Text>)
    requires AllNames(names)
    ensures AllWellFormed(names) && HostsOf(names) == PlainHosts(names)
  {
    if names != [] {
      assert IsName(names[0]);
      NamesAreEntries(names[1..]);
      forall i | 0 <= i < |names| ensures WellFormed(names[i]) { assert IsName(names[i]); }
    }
  }

  lemma {:induction false} PrefillEnds(names: seq<Text>, last: Text)
    requires names != [] && names[|names| - 1] == last && AllNames(names)
    ensures var t := Prefill(names, last); t != [] && t[0] > SPACE && t[|t| - 1] > SPACE
  {
    assert IsName(names[0]);
    if |names| > 1 { PrefillEnds(names[1..], last); }
  }

  lemma {:induction false} PrefillIsJoin(names: seq<Text>, last: Text)
    requires names != [] && names[|names| - 1] == last
    requires last !in names[..|names| - 1]
    ensures Prefill(names, last) == Join(names, SEMICOLON)
  {
    if |names| > 1 {
      assert names[0] == names[..|names| - 1][0];
      assert names[1..][..|names| - 2] == names[..|names| - 1][1..];
      PrefillIsJoin(names[1..], last);
    }
  }

  function Count(t: Text, c: Unit): nat {
    if t == [] then 0 else (if t[0] == c then 1 else 0) + Count(t[1..], c)
  }

  lemma {:induction false} CountOfSum(a: Text, b: Text, c: Unit)
    ensures Count(a + b, c) == Count(a, c) + Count(b, c)
  {
    if a == [] {
      assert a + b == b;
    } else {
      CountOfSum(a[1..], b, c);
      assert (a + b)[1..] == a[1..] + b;
    }
  }

  lemma {:induction false} CountNone(t: Text, c: Unit)
    requires c !in t
    ensures Count(t, c) == 0
  {
    if t != [] { CountNone(t[1..], c); }
  }

  lemma {:induction false} PiecesCount(t: Text, c: Unit)
    ensures |Pieces(t, c)| == Count(t, c) + 1
    decreases |t|
  {
    if c !in t {
      CountNone(t, c);
    } else {
      var first, rest := FirstPiece(t, c);
      PiecesCount(rest, c);
      CountNone(first, c);
      CountOfSum(first + [c], rest, c);
      CountOfSum(first, [c], c);
    }
  }

  /** The names that are followed by a separator. */
  function Separated(names: seq<Text>, last: Text): nat {
    if names == [] then 0 else (if names[0] == last then 0 else 1) + Separated(names[1..], last)
  }

  lemma {:induction false} SeparatorsShown(names: seq<Text>, last: Text)
    requires AllNames(names)
    ensures Count(Prefill(names, last), SEMICOLON) == Separated(names, last)
  {
    if names != [] {
      assert IsName(names[0]);
      SeparatorsShown(names[1..], last);
      CountOfSum(Entry(names[0], last), Prefill(names[1..], last), SEMICOLON);
      CountNone(names[0], SEMICOLON);
      CountOfSum(names[0], [SEMICOLON], SEMICOLON);
    }
  }

  /** Every occurrence of the last name saves one separator. */
  lemma {:induction false} SeparatedAtMost(names: seq<Text>, last: Text)
    ensures Separated(names, last) <= |names|
    ensures last in names ==> Separated(names, last) < |names|
  {
    if names != [] { SeparatedAtMost(names[1..], last); }
  }

  lemma {:induction false} RepeatedLast(names: seq<Text>, last: Text)
    requires names != [] && names[|names| - 1] == last && last in names[..|names| - 1]
    ensures Separated(names, last) + 2 <= |names|
  {
    var rest := names[1..];
    if names[0] == last {
      assert last == rest[|rest| - 1];
      SeparatedAtMost(rest, last);
    } else {
      var before := names[..|names| - 1];
      assert before == [names[0]] + rest[..|rest| - 1];
      RepeatedLast(rest, last);
    }
  }

  /** With a repeated last name there are fewer entries than names. */
  lemma FewerEntries(names: seq<Text>, last: Text)
    requires AllNames(names)
    requires names != [] && names[|names| - 1] == last && last in names[..|names| - 1]
    ensures |Split(Prefill(names, last), SEMICOLON)| < |names|
  {
    PiecesCount(Prefill(names, last), SEMICOLON);
    SeparatorsShown(names, last);
    RepeatedLast(names, last);
  }

  /** Submitting the prefilled text saves exactly the hosts it was filled with, in order and
      without addresses, if and only if the last name occurs once. */
  lemma PrefilledIsSaved(names: seq<Text>, last: Text)
    requires names != [] && names[|names| - 1] == last && AllNames(names)
    ensures ParseHosts(Prefill(names, last)) == Saved(PlainHosts(names)) <==> last !in names[..|names| - 1]
  {
    var shown := Prefill(names, last);
    PrefillEnds(names, last);
    assert Trim(shown) == shown;
    SavedIffWellFormed(shown);
    if last in names[..|names| - 1] {
      FewerEntries(names, last);
    } else {
      PrefillIsJoin(names, last);
      assert forall i :: 0 <= i < |names| ==> IsName(names[i]);
      SplitOfJoin(names, SEMICOLON);
      NamesAreEntries(names);
    }
  }

  /** A repeated last host, concretely: the three names h, a and h become two hosts. */
  lemma RepeatedHostIsMerged(h: Unit, a: Unit)
    requires IsName([h]) && IsName([a]) && h != a
    ensures ParseHosts(Prefill([[h], [a], [h]], [h])) == Saved([HostData([h, a], []), HostData([h], [])])
  {
    var shown := [h, a, SEMICOLON, h];
    assert [[h], [a], [h]][1..] == [[a], [h]] && [[a], [h]][1..] == [[h]];
    assert Prefill([[h]], [h]) == [h];
    assert Prefill([[a], [h]], [h]) == [a, SEMICOLON, h];
    assert Prefill([[h], [a], [h]], [h]) == shown;
    var entries := [[h, a], [h]];
    assert Join(entries[1..], SEMICOLON) == [h];
    assert Join(entries, SEMICOLON) == shown;
    SplitOfJoin(entries, SEMICOLON);
    assert Trim(shown) == shown;
    assert IsName(entries[0]) && IsName(entries[1]);
    NamesAreEntries(entries);
    assert PlainHosts(entries[1..]) == [HostData([h], [])];
    SavedIffWellFormed(shown);
  }
}
