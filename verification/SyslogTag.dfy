/** How the syslog adapter splits host and tag off a message of the older format; see section
    4.1.3 of RFC 3164. */
module SyslogTag {
  import opened JavaText
  import LogCollector

  const TAG_LIMIT: nat := 32

  // ---- Fields of a text, as Java's split on a space gives them

  predicate EndsInSpace(t: Text) {
    t != [] && t[|t| - 1] == SPACE
  }

  lemma {:induction false} PiecesSnoc(t: Text, c: Unit)
    ensures Pieces(t + [c], c) == Pieces(t, c) + [[]]
    decreases |t|
  {
    if c !in t {
      PiecesCons(t, c, []);
      assert t + [c] + [] == t + [c];
    } else {
      var first, rest := FirstPiece(t, c);
      PiecesSnoc(rest, c);
      Associative(first + [c], rest, [c]);
      PiecesCons(first, c, rest + [c]);
      Associative([first], Pieces(rest, c), [[]]);
    }
  }

  lemma {:induction false} LastPieceNotEmpty(t: Text, c: Unit)
    requires t != [] && t[|t| - 1] != c
    ensures Last(Pieces(t, c)) != []
    decreases |t|
  {
    if c in t {
      var first, rest := FirstPiece(t, c);
      AfterLast(first, c, rest);
      LastPieceNotEmpty(rest, c);
      LastOfCons(first, Pieces(rest, c));
    }
  }

  function Last(pieces: seq<Text>): Text
    requires pieces != []
  {
    pieces[|pieces| - 1]
  }

  lemma LastOfCons(first: Text, pieces: seq<Text>)
    requires pieces != []
    ensures Last([first] + pieces) == Last(pieces)
  {
  }

  lemma AfterLast(first: Text, c: Unit, rest: Text)
    requires var t := first + [c] + rest; t[|t| - 1] != c
    ensures rest != [] && rest[|rest| - 1] != c
  {
  }

  lemma DropOneEmpty(pieces: seq<Text>)
    ensures DropTrailingEmpty(pieces + [[]]) == DropTrailingEmpty(pieces)
  {
    assert (pieces + [[]])[..|pieces|] == pieces;
  }

  lemma SplitOff(t: Text) returns (shorter: Text)
    requires EndsInSpace(t)
    ensures t == shorter + [SPACE] && (AllAre(t, SPACE) ==> AllAre(shorter, SPACE))
  {
    shorter := t[..|t| - 1];
  }

  lemma {:induction false} WithoutTrail(t: Text) returns (kept: Text, trail: Text)
    ensures t == kept + trail && AllAre(trail, SPACE) && !EndsInSpace(kept)
    decreases |t|
  {
    if EndsInSpace(t) {
      var shorter := SplitOff(t);
      kept, trail := WithoutTrail(shorter);
      Associative(kept, trail, [SPACE]);
      trail := trail + [SPACE];
    } else {
      kept, trail := t, [];
    }
  }

  lemma {:induction false} TrailIsDropped(kept: Text, trail: Text)
    requires AllAre(trail, SPACE)
    ensures DropTrailingEmpty(Pieces(kept + trail, SPACE)) == DropTrailingEmpty(Pieces(kept, SPACE))
    decreases |trail|
  {
    if trail == [] {
      assert kept + trail == kept;
    } else {
      var shorter := SplitOff(trail);
      TrailIsDropped(kept, shorter);
      Associative(kept, shorter, [SPACE]);
      PiecesSnoc(kept + shorter, SPACE);
      DropOneEmpty(Pieces(kept + shorter, SPACE));
    }
  }

  lemma SplitDrops(t: Text)
    requires t != []
    ensures Split(t, SPACE) == DropTrailingEmpty(Pieces(t, SPACE))
  {
  }

  lemma NothingKept()
    ensures DropTrailingEmpty(Pieces([], SPACE)) == []
  {
    DropOneEmpty([]);
    assert [] + [[]] == Pieces([], SPACE);
  }

  lemma AllKept(kept: Text)
    requires kept != [] && !EndsInSpace(kept)
    ensures DropTrailingEmpty(Pieces(kept, SPACE)) == Pieces(kept, SPACE)
  {
    var pieces := Pieces(kept, SPACE);
    assert Last(pieces) != [] by { LastPieceNotEmpty(kept, SPACE); }
    KeepsNonEmpty(pieces);
  }

  /** The fields of a text are the pieces of what is left without its trailing spaces. */
  lemma FieldsWithoutTrail(kept: Text, trail: Text)
    requires AllAre(trail, SPACE) && !EndsInSpace(kept) && kept + trail != []
    ensures Split(kept + trail, SPACE) == if kept == [] then [] else Pieces(kept, SPACE)
  {
    SplitDrops(kept + trail);
    TrailIsDropped(kept, trail);
    if kept == [] {
      NothingKept();
    } else {
      AllKept(kept);
    }
  }

  /** Host and tag: the program is the only word, or the one after the first space; nothing but
      spaces follows it. */
  predicate NamesProgram(lead: Text, program: Text, trail: Text) {
    && SPACE !in program && AllAre(trail, SPACE)
    && (program == [] ==> lead == [] && trail == [])
    && (lead == [] || (EndsInSpace(lead) && SPACE !in lead[..|lead| - 1]))
  }

  function LastField(fields: seq<Text>): Text
    requires 1 <= |fields| <= 2
  {
    if |fields| > 1 then fields[1] else fields[0]
  }

  /** At most two fields name a program ... */
  lemma FieldsNameProgram(t: Text) returns (lead: Text, trail: Text)
    requires 1 <= |Split(t, SPACE)| <= 2
    ensures var program := LastField(Split(t, SPACE)); t == lead + program + trail && NamesProgram(lead, program, trail)
  {
    if t == [] {
      lead, trail := [], [];
    } else {
      var kept: Text;
      kept, trail := WithoutTrail(t);
      FieldsWithoutTrail(kept, trail);
      if SPACE !in kept {
        lead := [];
      } else {
        var first, rest := FirstPiece(kept, SPACE);
        lead := first + [SPACE];
      }
    }
  }

  /** ... and a text that names a program has at most two fields. */
  lemma ProgramIsField(lead: Text, program: Text, trail: Text)
    requires NamesProgram(lead, program, trail)
    ensures var fields := Split(lead + program + trail, SPACE); 1 <= |fields| <= 2 && LastField(fields) == program
  {
    if program != [] {
      FieldsWithoutTrail(lead + program, trail);
      if lead != [] {
        var first := SplitOff(lead);
        PiecesCons(first, SPACE, program);
      }
    }
  }

  /** There is no field at all exactly when there is nothing but at least one space. */
  lemma NoFieldIffOnlySpaces(t: Text)
    ensures |Split(t, SPACE)| == 0 <==> t != [] && AllAre(t, SPACE)
  {
    if t != [] {
      var kept, trail := WithoutTrail(t);
      FieldsWithoutTrail(kept, trail);
      assert kept != [] ==> t[|kept| - 1] != SPACE;
    }
  }

  // ---- Splitting a message

  predicate IsTerminator(u: Unit) {
    u == OPEN_BRACKET || u == COLON
  }

  /** Where the tag ends, or -1. */
  function Terminator(message: Text): (at: int)
    ensures -1 <= at < |message|
  {
    var tagIdx, tagEndIdx := IndexOf(message, OPEN_BRACKET), IndexOf(message, COLON);
    if tagIdx == -1 && tagEndIdx > 1 then tagEndIdx
    else if -1 < tagEndIdx < tagIdx then tagEndIdx
    else tagIdx
  }

  /** It is the first bracket or colon, except that a colon needs two units before it when there
      is no bracket at all. */
  lemma TerminatorIsFirst(message: Text, at: nat)
    ensures (Terminator(message) == at
             <==> (&& at < |message| && IsTerminator(message[at])
                   && (forall k :: 0 <= k < at ==> !IsTerminator(message[k]))
                   && (at > 1 || OPEN_BRACKET in message)))
  {
    var tagIdx, tagEndIdx := IndexOf(message, OPEN_BRACKET), IndexOf(message, COLON);
    if tagIdx != -1 {
      assert forall k :: 0 <= k < tagIdx ==> message[k] == message[..tagIdx][k];
    }
    if tagEndIdx != -1 {
      assert forall k :: 0 <= k < tagEndIdx ==> message[k] == message[..tagEndIdx][k];
    }
  }

  /** The outcome for a message; Failed stands for the exception of an array without elements. */
  datatype Outcome = Stored(program: Option<Text>, message: Text) | Failed

  function ParsedAt(message: Text, at: nat): Outcome
    requires at <= |message|
  {
    var fields := Split(message[..at], SPACE);
    if |fields| > 2 || at > TAG_LIMIT then Stored(None, message)
    else if fields == [] then Failed
    else Stored(Some(LastField(fields)), message[at..])
  }

  function SplitMessage(message: Text): Outcome {
    if Terminator(message) >= 0 then ParsedAt(message, Terminator(message))
    else Stored(None, message[IndexOf(message, SPACE) + 1..])
  }

  /** Host and tag name the program, within the limit and up to the terminator. */
  predicate Names(message: Text, lead: Text, program: Text, trail: Text, rest: Text) {
    && message == lead + program + trail + rest
    && NamesProgram(lead, program, trail)
    && |lead + program + trail| == Terminator(message) <= 32
  }

  lemma SplitAt(message: Text, at: nat) returns (before: Text, rest: Text)
    requires at <= |message|
    ensures message == before + rest && |before| == at
    ensures before == message[..at] && rest == message[at..]
  {
    before, rest := message[..at], message[at..];
  }

  lemma ProgramWasNamed(message: Text, program: Text, rest: Text) returns (lead: Text, trail: Text)
    requires SplitMessage(message) == Stored(Some(program), rest)
    ensures Names(message, lead, program, trail, rest)
  {
    var before, after := SplitAt(message, Terminator(message));
    lead, trail := FieldsNameProgram(before);
  }

  lemma NamedProgramIsSet(message: Text, lead: Text, program: Text, trail: Text, rest: Text)
    requires Names(message, lead, program, trail, rest)
    ensures SplitMessage(message) == Stored(Some(program), rest)
  {
    var before := lead + program + trail;
    ProgramIsField(lead, program, trail);
    assert (before + rest)[..|before|] == before && (before + rest)[|before|..] == rest;
  }

  /** A program is set exactly when host and tag before the terminator name it within the limit;
      they are taken off the message, which goes on with the terminator. */
  lemma ProgramIffNamed(message: Text, program: Text, rest: Text)
    ensures (SplitMessage(message) == Stored(Some(program), rest)
             <==> exists lead, trail :: Names(message, lead, program, trail, rest))
  {
    if SplitMessage(message) == Stored(Some(program), rest) {
      var lead, trail := ProgramWasNamed(message, program, rest);
    }
    if lead, trail :| Names(message, lead, program, trail, rest) {
      NamedProgramIsSet(message, lead, program, trail, rest);
    }
  }

  /** The stored message is the original without a prefix. Without a program the prefix is empty,
      or the first word and a space of a message whose terminator is missing. */
  lemma SuffixIsStored(message: Text) returns (removed: Text)
    requires SplitMessage(message).Stored?
    ensures message == removed + SplitMessage(message).message
    ensures (SplitMessage(message).program.Some? ==>
               |removed| <= 32 && forall k :: 0 <= k < |removed| ==> !IsTerminator(removed[k]))
    ensures (SplitMessage(message).program.None? && removed != [] ==>
               Terminator(message) == -1 && EndsInSpace(removed) && SPACE !in removed[..|removed| - 1])
  {
    if Terminator(message) >= 0 {
      TerminatorIsFirst(message, Terminator(message));
      var before, rest := SplitAt(message, Terminator(message));
      removed := if SplitMessage(message).program.Some? then before else [];
    } else {
      var rest: Text;
      removed, rest := SplitAt(message, IndexOf(message, SPACE) + 1);
    }
  }

  /** Without a terminator exactly the first word and its space are taken off. */
  lemma FirstWordIsDropped(message: Text) returns (word: Text)
    requires Terminator(message) == -1
    ensures SPACE !in message ==> SplitMessage(message) == Stored(None, message)
    ensures (SPACE in message ==>
               && SplitMessage(message).Stored? && SplitMessage(message).program.None?
               && SPACE !in word && message == word + [SPACE] + SplitMessage(message).message)
  {
    if SPACE in message {
      var rest: Text;
      word, rest := FirstPiece(message, SPACE);
      FirstOccurrence(word, SPACE, rest);
      assert message[|word| + 1..] == rest;
    } else {
      word := [];
    }
  }

  /** Splitting fails exactly when at least one and at most 32 spaces, and nothing else, precede
      the terminator. */
  lemma FailsIffOnlySpaces(message: Text)
    ensures SplitMessage(message).Failed? <==> 0 < Terminator(message) <= 32 && AllAre(message[..Terminator(message)], SPACE)
  {
    if Terminator(message) >= 0 {
      NoFieldIffOnlySpaces(message[..Terminator(message)]);
    }
  }

  predicate IsWord(t: Text) {
    t != [] && forall k :: 0 <= k < |t| ==> t[k] != SPACE && !IsTerminator(t[k])
  }

  lemma TerminatorAfter(before: Text, rest: Text)
    requires |before| > 1 && forall k :: 0 <= k < |before| ==> !IsTerminator(before[k])
    requires rest != [] && IsTerminator(rest[0])
    ensures Terminator(before + rest) == |before|
  {
    TerminatorIsFirst(before + rest, |before|);
  }

  /** A message of the standard's form is split as the standard says. */
  lemma HostAndTagAreSplit(host: Text, tag: Text, rest: Text)
    requires IsWord(host) && IsWord(tag) && |host| + 1 + |tag| <= 32
    requires rest != [] && IsTerminator(rest[0])
    ensures SplitMessage(host + [SPACE] + tag + rest) == Stored(Some(tag), rest)
  {
    var lead := host + [SPACE];
    TerminatorAfter(lead + tag, rest);
    assert lead + tag + [] == lead + tag;
    NamedProgramIsSet(lead + tag + rest, lead, tag, [], rest);
  }

  /** A host, a tag with a process number, and the message of a usual syslog line. */
  lemma UsualLine()
    ensures SplitMessage(Ascii("web su[4]: ok")) == Stored(Some(Ascii("su")), Ascii("[4]: ok"))
  {
    assert Ascii("web su[4]: ok") == Ascii("web") + [SPACE] + Ascii("su") + Ascii("[4]: ok");
    HostAndTagAreSplit(Ascii("web"), Ascii("su"), Ascii("[4]: ok"));
  }

  // ---- The adapter

  /** Returns the message to go on with, or None where the exception is thrown. */
  method ParseProgramField(log: LogCollector.LogRecord, message: Text, tagTerminationIdx: nat) returns (left: Option<Text>)
    requires tagTerminationIdx <= |message|
    modifies log`program
    ensures left.None? <==> ParsedAt(message, tagTerminationIdx).Failed?
    ensures left.Some? ==> left.value == ParsedAt(message, tagTerminationIdx).message
    ensures (log.program
             == if left.Some? && ParsedAt(message, tagTerminationIdx).program.Some?
                then ParsedAt(message, tagTerminationIdx).program else old(log.program))
  {
    var hostAndTag := message[..tagTerminationIdx];
    left := Some(message);
    if |Split(hostAndTag, SPACE)| <= 2 && |hostAndTag| <= TAG_LIMIT {
      left := Some(message[tagTerminationIdx..]);
      var hostAndTagSplited := Split(hostAndTag, SPACE);
      if |hostAndTagSplited| > 1 {
        log.program := Some(hostAndTagSplited[1]);
      } else if hostAndTagSplited == [] {
        return None;
      } else {
        log.program := Some(hostAndTagSplited[0]);
      }
    }
  }

  /** The branch of `event` for messages of the older format, on a log without a program; it
      reports whether the exception was thrown. */
  method FillFromEvent(log: LogCollector.LogRecord, host: Option<Text>, eventMessage: Text) returns (failed: bool)
    requires log.program.None?
    modifies log`host, log`program, log`message
    ensures log.host == host
    ensures failed <==> SplitMessage(eventMessage).Failed?
    ensures !failed ==> log.message.Some? && SplitMessage(eventMessage) == Stored(log.program, log.message.value)
    ensures failed ==> log.program.None? && log.message == old(log.message)
  {
    log.host := host;
    var message := Some(eventMessage);
    var tagIdx, tagEndIdx := IndexOf(eventMessage, OPEN_BRACKET), IndexOf(eventMessage, COLON);
    if tagIdx == -1 && tagEndIdx > 1 {
      message := ParseProgramField(log, eventMessage, tagEndIdx);
    } else if tagEndIdx > -1 && tagEndIdx < tagIdx {
      message := ParseProgramField(log, eventMessage, tagEndIdx);
    } else if tagIdx > -1 {
      message := ParseProgramField(log, eventMessage, tagIdx);
    } else {
      message := Some(eventMessage[IndexOf(eventMessage, SPACE) + 1..]);
    }
    if message.None? {
      return true;
    }
    log.message := message;
    failed := false;
  }
}
