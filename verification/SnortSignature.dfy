/** Snort signatures as they are found in a classification and printed again. */
module SnortSignatures {
  import opened JavaText

  // ---- Decimal numbers

  predicate IsDigit(u: Unit) {
    ZERO <= u < ZERO + 10
  }

  predicate IsNumber(t: Text) {
    t != [] && forall k :: 0 <= k < |t| ==> IsDigit(t[k])
  }

  function Decimal(n: nat): (t: Text)
    ensures IsNumber(t)
  {
    if n < 10 then [ZERO + n] else Decimal(n / 10) + [ZERO + n % 10]
  }

  /** How Java prints an int. */
  function Print(n: int): Text {
    if n < 0 then [MINUS] + Decimal(-n) else Decimal(n)
  }

  /** The number a run of digits stands for. */
  function Value(t: Text): nat
    requires IsNumber(t)
  {
    var last := t[|t| - 1] - ZERO;
    if |t| == 1 then last else 10 * Value(t[..|t| - 1]) + last
  }

  lemma ValueSnoc(t: Text, digit: Unit)
    requires IsNumber(t) && IsDigit(digit)
    ensures Value(t + [digit]) == 10 * Value(t) + (digit - ZERO)
  {
    assert (t + [digit])[..|t|] == t;
  }

  lemma {:induction false} ValueOfDecimal(n: nat)
    ensures Value(Decimal(n)) == n
  {
    if n >= 10 {
      ValueOfDecimal(n / 10);
      ValueSnoc(Decimal(n / 10), ZERO + n % 10);
    }
  }

  function Power(n: nat): nat {
    if n == 0 then 1 else 10 * Power(n - 1)
  }

  /** Digits count by position, the first one most. */
  lemma {:induction false} ValueIsPositional(digit: Unit, t: Text)
    requires IsDigit(digit) && IsNumber(t)
    ensures Value([digit] + t) == (digit - '0' as int) * Power(|t|) + Value(t)
  {
    var d, last := digit - '0' as int, t[|t| - 1] - '0' as int;
    if |t| == 1 {
      assert ([digit] + t)[..1] == [digit];
      assert Power(1) == 10 * Power(0);
    } else {
      var init := t[..|t| - 1];
      ValueIsPositional(digit, init);
      assert ([digit] + t)[..|t|] == [digit] + init;
      TenTimes(d, Power(|init|));
    }
  }

  lemma TenTimes(d: int, p: int)
    ensures 10 * (d * p) == d * (10 * p)
  {
  }

  /** No zero is printed in front of other digits, and a minus in front of a negative number. */
  lemma {:induction false} PrintsUsually(n: int)
    ensures n >= 0 ==> IsNumber(Print(n)) && (Print(n)[0] == '0' as int <==> n == 0)
    ensures n < 0 ==> Print(n) == ['-' as int] + Print(-n)
    decreases if n < 0 then -n else n
  {
    if n >= 10 { PrintsUsually(n / 10); }
  }

  // ---- Matching [digits:digits:digits]

  datatype Groups = Groups(generator: Text, signature: Text, revision: Text) {
    predicate Valid() {
      IsNumber(generator) && IsNumber(signature) && IsNumber(revision)
    }

    function ToText(): Text {
      [OPEN_BRACKET] + generator + [COLON] + signature + [COLON] + revision + [CLOSE_BRACKET]
    }
  }

  /** The length of the run of digits at the start of t. */
  function DigitRun(t: Text): (n: nat)
    ensures n <= |t|
    ensures forall k :: 0 <= k < n ==> IsDigit(t[k])
    ensures n < |t| ==> !IsDigit(t[n])
  {
    if t == [] || !IsDigit(t[0]) then 0 else 1 + DigitRun(t[1..])
  }

  datatype Field = Field(number: Text, rest: Text)

  /** A run of digits followed by end, and what is left after it. */
  function ReadField(t: Text, end: Unit): (field: Option<Field>)
    ensures field.Some? ==> IsNumber(field.value.number)
  {
    var n := DigitRun(t);
    if 0 < n < |t| && t[n] == end then Some(Field(t[..n], t[n + 1..])) else None
  }

  /** The match that begins with t's first unit, if there is one. */
  function MatchHere(t: Text): (groups: Option<Groups>)
    ensures groups.Some? ==> groups.value.Valid()
  {
    if t == [] || t[0] != OPEN_BRACKET then None
    else
      match ReadField(t[1..], COLON)
      case None => None
      case Some(generator) =>
        match ReadField(generator.rest, COLON)
        case None => None
        case Some(signature) =>
          match ReadField(signature.rest, CLOSE_BRACKET)
          case None => None
          case Some(revision) => Some(Groups(generator.number, signature.number, revision.number))
  }

  /** The first match in t. */
  function Find(t: Text): (groups: Option<Groups>)
    ensures groups.Some? ==> groups.value.Valid()
  {
    if MatchHere(t).Some? then MatchHere(t)
    else if t == [] then None
    else Find(t[1..])
  }

  /** The fields read are the only way to split the text. */
  lemma ReadFieldOf(number: Text, end: Unit, rest: Text)
    requires IsNumber(number) && !IsDigit(end)
    ensures ReadField(number + [end] + rest, end) == Some(Field(number, rest))
  {
    var t := number + [end] + rest;
    var n := DigitRun(t);
    assert t[|number|] == end;
    assert n == |number|;
    assert t[..n] == number && t[n + 1..] == rest;
  }

  lemma ReadFieldSplits(t: Text, end: Unit)
    requires ReadField(t, end).Some?
    ensures var field := ReadField(t, end).value; t == field.number + [end] + field.rest
  {
  }

  lemma Regrouped(g: Groups, rest: Text)
    ensures (g.ToText() + rest
             == [OPEN_BRACKET] + (g.generator + [COLON] + (g.signature + [COLON] + (g.revision + [CLOSE_BRACKET] + rest))))
  {
  }

  lemma MatchHereOf(g: Groups, rest: Text)
    requires g.Valid()
    ensures MatchHere(g.ToText() + rest) == Some(g)
  {
    var third := g.revision + [CLOSE_BRACKET] + rest;
    var second := g.signature + [COLON] + third;
    var first := g.generator + [COLON] + second;
    Regrouped(g, rest);
    ReadFieldOf(g.generator, COLON, second);
    ReadFieldOf(g.signature, COLON, third);
    ReadFieldOf(g.revision, CLOSE_BRACKET, rest);
    assert ([OPEN_BRACKET] + first)[1..] == first;
  }

  lemma MatchHereSplits(t: Text) returns (rest: Text)
    requires MatchHere(t).Some?
    ensures t == MatchHere(t).value.ToText() + rest
  {
    ReadFieldSplits(t[1..], COLON);
    var generator := ReadField(t[1..], COLON).value;
    ReadFieldSplits(generator.rest, COLON);
    var signature := ReadField(generator.rest, COLON).value;
    ReadFieldSplits(signature.rest, CLOSE_BRACKET);
    rest := ReadField(signature.rest, CLOSE_BRACKET).value.rest;
    Regrouped(MatchHere(t).value, rest);
    assert t == [t[0]] + t[1..];
  }

  /** A match begins at t's first unit exactly when t reads "[number:number:number]..." there, and
      its groups are those numbers. */
  lemma MatchesExactly(t: Text, g: Groups)
    ensures MatchHere(t) == Some(g) <==> exists rest :: g.Valid() && t == g.ToText() + rest
  {
    if MatchHere(t) == Some(g) {
      var rest := MatchHereSplits(t);
      assert g.Valid() && t == g.ToText() + rest;
    }
    if rest :| g.Valid() && t == g.ToText() + rest {
      MatchHereOf(g, rest);
    }
  }

  /** Find gives the leftmost match: no earlier position has one. */
  lemma {:induction false} FindIsLeftmost(t: Text) returns (at: nat)
    ensures at <= |t| && MatchHere(t[at..]) == Find(t)
    ensures forall k :: 0 <= k < at ==> MatchHere(t[k..]).None?
    ensures Find(t).None? ==> at == |t|
  {
    if MatchHere(t).Some? || t == [] {
      at := 0;
      assert t[0..] == t;
    } else {
      var later := FindIsLeftmost(t[1..]);
      at := later + 1;
      assert t[at..] == t[1..][later..];
      forall k | 0 <= k < at ensures MatchHere(t[k..]).None? {
        if k > 0 {
          assert t[k..] == t[1..][k - 1..];
        } else {
          assert t[0..] == t;
        }
      }
    }
  }

  // ---- The signature

  datatype Ids = Ids(generator: int, signature: int, revision: int) {
    /** All three are Java ints. */
    predicate InRange() {
      -MAX_INT - 1 <= generator <= MAX_INT && -MAX_INT - 1 <= signature <= MAX_INT && -MAX_INT - 1 <= revision <= MAX_INT
    }

    predicate NonNegative() {
      generator >= 0 && signature >= 0 && revision >= 0
    }

    function ToText(): Text {
      [OPEN_BRACKET] + Print(generator) + [COLON] + Print(signature) + [COLON] + Print(revision) + [CLOSE_BRACKET]
    }
  }

  datatype Error = NotASignature | NumberTooLarge
  datatype Parsed = Parsed(ids: Ids) | Failed(error: Error)

  /** Integer.parseInt of a run of digits; None stands for its exception. */
  function ParseInt(t: Text): Option<int>
    requires IsNumber(t)
  {
    if Value(t) <= MAX_INT then Some(Value(t)) else None
  }

  /** What the first match in a classification stands for. */
  function Parse(classification: Text): Parsed {
    match Find(classification)
    case None => Failed(NotASignature)
    case Some(g) =>
      var generator, signature, revision := ParseInt(g.generator), ParseInt(g.signature), ParseInt(g.revision);
      if generator.Some? && signature.Some? && revision.Some? then
        Parsed(Ids(generator.value, signature.value, revision.value))
      else Failed(NumberTooLarge)
  }

  /** The outcome of parsing, exactly: no signature without a match; a number that is too large
      if any of the three exceeds an int; and otherwise the three numbers in their order. */
  lemma ParseExactly(classification: Text)
    ensures Parse(classification) == Failed(NotASignature) <==> Find(classification).None?
    ensures (Find(classification).Some? ==>
               var g := Find(classification).value;
               if Value(g.generator) <= 2147483647 && Value(g.signature) <= 2147483647 && Value(g.revision) <= 2147483647
               then Parse(classification) == Parsed(Ids(Value(g.generator), Value(g.signature), Value(g.revision)))
               else Parse(classification) == Failed(NumberTooLarge))
  {
  }

  /** No match begins with a text that is none itself and reaches over a bracket in or right
      after it. */
  lemma NoMatchAcross(before: Text, more: Text, at: nat)
    requires MatchHere(before).None?
    requires 1 <= at <= |before| && at < |before + more| && (before + more)[at] == OPEN_BRACKET
    ensures MatchHere(before + more).None?
  {
    if MatchHere(before + more).Some? {
      var g := MatchHere(before + more).value;
      var rest := MatchHereSplits(before + more);
      OnlyFirstIsBracket(g);
      var tail := EndsWithin(before, more, at, g.ToText(), rest);
      MatchHereOf(g, tail);
      assert false;
    }
  }

  lemma EndsWithin(before: Text, more: Text, at: nat, matched: Text, rest: Text) returns (tail: Text)
    requires 1 <= at <= |before| && at < |before + more| && (before + more)[at] == OPEN_BRACKET
    requires forall k :: 1 <= k < |matched| ==> matched[k] != OPEN_BRACKET
    requires before + more == matched + rest
    ensures before == matched + tail
  {
    assert |matched| <= at;
    assert before == (matched + rest)[..|before|];
    tail := before[|matched|..];
  }

  lemma OnlyFirstIsBracket(g: Groups)
    requires g.Valid()
    ensures forall k :: 1 <= k < |g.ToText()| ==> g.ToText()[k] != OPEN_BRACKET
  {
  }

  lemma FindPast(u: Unit, t: Text)
    requires MatchHere([u] + t).None?
    ensures Find([u] + t) == Find(t)
  {
    assert ([u] + t)[1..] == t;
  }

  lemma {:induction false} FindSkips(before: Text, more: Text)
    requires Find(before).None?
    requires more != [] && more[0] == OPEN_BRACKET
    ensures Find(before + more) == Find(more)
  {
    if before == [] {
      assert before + more == more;
    } else {
      var u, later := before[0], before[1..];
      assert before == [u] + later;
      NoMatchAcross(before, more, |before|);
      FindSkips(later, more);
      Associative([u], later, more);
      FindPast(u, later + more);
    }
  }

  lemma {:induction false} FoundAtBracket(t: Text) returns (at: nat)
    requires Find(t).Some?
    ensures at < |t| && t[at] == OPEN_BRACKET
  {
    if t[0] == OPEN_BRACKET {
      at := 0;
    } else {
      var later := FoundAtBracket(t[1..]);
      at := later + 1;
    }
  }

  lemma MatchHereWins(before: Text, more: Text)
    requires MatchHere(before).Some?
    ensures Find(before + more) == MatchHere(before)
  {
    var g := MatchHere(before).value;
    var rest := MatchHereSplits(before);
    Associative(g.ToText(), rest, more);
    MatchHereOf(g, rest + more);
  }

  lemma NoMatchHere(before: Text) returns (u: Unit, later: Text)
    requires Find(before).Some? && MatchHere(before).None?
    ensures before == [u] + later && MatchHere([u] + later).None? && Find(later) == Find(before)
  {
    u, later := before[0], before[1..];
  }

  lemma FindPastFirst(u: Unit, later: Text, more: Text)
    requires Find(later).Some? && MatchHere([u] + later).None?
    ensures Find([u] + later + more) == Find(later + more)
  {
    var at := FoundAtBracket(later);
    NoMatchAcross([u] + later, more, at + 1);
    Associative([u], later, more);
    FindPast(u, later + more);
  }

  /** A match is found whatever follows the text it is in. */
  lemma {:induction false} FirstMatchWins(before: Text, more: Text)
    requires Find(before).Some?
    ensures Find(before + more) == Find(before)
    decreases |before|
  {
    if MatchHere(before).Some? {
      MatchHereWins(before, more);
    } else {
      var u, later := NoMatchHere(before);
      FirstMatchWins(later, more);
      FindPastFirst(u, later, more);
    }
  }

  lemma FindAfter(before: Text, g: Groups, rest: Text)
    requires Find(before).None? && g.Valid()
    ensures Find(before + g.ToText() + rest) == Some(g)
  {
    Associative(before, g.ToText(), rest);
    FindSkips(before, g.ToText() + rest);
    MatchHereOf(g, rest);
  }

  /** The groups a printed signature is made of. */
  lemma GroupsOf(ids: Ids) returns (g: Groups)
    requires ids.NonNegative()
    ensures g.Valid() && g.ToText() == ids.ToText()
    ensures Value(g.generator) == ids.generator && Value(g.signature) == ids.signature
    ensures Value(g.revision) == ids.revision
  {
    g := Groups(Decimal(ids.generator), Decimal(ids.signature), Decimal(ids.revision));
    ValueOfDecimal(ids.generator);
    ValueOfDecimal(ids.signature);
    ValueOfDecimal(ids.revision);
  }

  lemma ParsedIsNonNegative(classification: Text)
    requires Parse(classification).Parsed?
    ensures Parse(classification).ids.NonNegative() && Parse(classification).ids.InRange()
  {
  }

  lemma ParsedFrom(classification: Text, g: Groups, ids: Ids)
    requires Find(classification) == Some(g) && ids.InRange()
    requires Value(g.generator) == ids.generator && Value(g.signature) == ids.signature
    requires Value(g.revision) == ids.revision
    ensures Parse(classification) == Parsed(ids)
  {
  }

  lemma PrintedAfter(before: Text, ids: Ids, rest: Text)
    requires Find(before).None? && ids.InRange() && ids.NonNegative()
    ensures Parse(before + ids.ToText() + rest) == Parsed(ids)
  {
    var g := GroupsOf(ids);
    FindAfter(before, g, rest);
    ParsedFrom(before + g.ToText() + rest, g, ids);
  }

  lemma PrintedAfterMatch(before: Text, ids: Ids, rest: Text)
    requires Find(before).Some?
    ensures Parse(before + ids.ToText() + rest) == Parse(before)
  {
    Associative(before, ids.ToText(), rest);
    FirstMatchWins(before, ids.ToText() + rest);
  }

  /** A signature printed into a text is read back from it, unless a match precedes it. */
  lemma PrintedIsParsed(before: Text, ids: Ids, rest: Text)
    requires ids.InRange() && ids.NonNegative()
    ensures Parse(before + ids.ToText() + rest) == if Find(before).None? then Parsed(ids) else Parse(before)
  {
    if Find(before).None? {
      PrintedAfter(before, ids, rest);
    } else {
      PrintedAfterMatch(before, ids, rest);
    }
  }

  /** With a negative number in it, a printed signature is never read back. */
  lemma ReadBackIffNonNegative(before: Text, ids: Ids, rest: Text)
    requires Find(before).None? && ids.InRange()
    ensures Parse(before + ids.ToText() + rest) == Parsed(ids) <==> ids.NonNegative()
  {
    var text := before + ids.ToText() + rest;
    if ids.NonNegative() {
      PrintedAfter(before, ids, rest);
    } else if Parse(text).Parsed? {
      ParsedIsNonNegative(text);
    }
  }

  lemma PrintedAlone(ids: Ids)
    requires ids.InRange() && ids.NonNegative()
    ensures Parse(ids.ToText()) == Parsed(ids)
  {
    PrintedAfter([], ids, []);
    Unpadded(ids.ToText());
  }

  /** A signature as it is usually written: generator, signature and revision. */
  lemma UsualSignature()
    ensures Parse(Ascii("[1:2:3]")) == Parsed(Ids(1, 2, 3))
  {
    assert Ascii("[1:2:3]") == Ids(1, 2, 3).ToText();
    PrintedAlone(Ids(1, 2, 3));
  }

  lemma Unpadded(t: Text)
    ensures [] + t + [] == t
  {
  }

  /** Reading and printing agree: what is read from a classification prints as a text that is
      read alike. */
  lemma ParsedIsPrinted(classification: Text, ids: Ids)
    requires Parse(classification) == Parsed(ids)
    ensures Parse(ids.ToText()) == Parsed(ids)
  {
    ParsedIsNonNegative(classification);
    PrintedAlone(ids);
  }

  class SnortSignature {
    var generatorId: int
    var signatureId: int
    var signatureRevision: int

    function Fields(): Ids
      reads this
    {
      Ids(generatorId, signatureId, signatureRevision)
    }

    constructor ()
      ensures Fields() == Ids(0, 0, 0)
    {
      generatorId, signatureId, signatureRevision := 0, 0, 0;
    }

    /** A signature object for a classification, or the exception thrown instead. */
    static method CreateSnortSignature(classification: Text) returns (signature: SnortSignature?, thrown: Option<Error>)
      ensures signature != null <==> thrown.None?
      ensures signature != null ==> fresh(signature)
      ensures Parse(classification) == if signature != null then Parsed(signature.Fields()) else Failed(thrown.value)
    {
      var created := new SnortSignature();
      var matcher := Find(classification);
      if matcher.None? {
        return null, Some(NotASignature);
      }
      var number := ParseInt(matcher.value.generator);
      if number.None? {
        return null, Some(NumberTooLarge);
      }
      created.generatorId := number.value;
      number := ParseInt(matcher.value.signature);
      if number.None? {
        return null, Some(NumberTooLarge);
      }
      created.signatureId := number.value;
      number := ParseInt(matcher.value.revision);
      if number.None? {
        return null, Some(NumberTooLarge);
      }
      created.signatureRevision := number.value;
      return created, None;
    }

    function ToString(): Text
      reads this
    {
      Fields().ToText()
    }

    /** What a signature prints is parsed to the same numbers, if none is negative. */
    lemma PrintsAsItself()
      requires Fields().InRange()
      ensures Parse(ToString()) == Parsed(Fields()) <==> Fields().NonNegative()
    {
      ReadBackIffNonNegative([], Fields(), []);
      Unpadded(ToString());
    }
  }
}
