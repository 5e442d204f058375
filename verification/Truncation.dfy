/** Truncation of a text to a number of UTF-8 bytes. */
module Truncation {
  import opened JavaText
  import opened Utf8

  const MAX_BYTES_PER_SYMBOL := 4

  // ---- What fits

  /** How many leading characters encode to at most n bytes. */
  function FitCount(cs: seq<Scalar>, n: nat): (count: nat)
    ensures count <= |cs|
  {
    if cs == [] || |Encode(cs[0])| > n then 0 else 1 + FitCount(cs[1..], n - |Encode(cs[0])|)
  }

  /** A prefix of the characters fits exactly when it is no longer than FitCount. */
  lemma {:induction false} FitCountIsMaximal(cs: seq<Scalar>, n: nat, m: nat)
    requires m <= |cs|
    ensures |EncodeAll(cs[..m])| <= n <==> m <= FitCount(cs, n)
  {
    if m > 0 {
      assert cs[..m][1..] == cs[1..][..m - 1];
      if |Encode(cs[0])| <= n { FitCountIsMaximal(cs[1..], n - |Encode(cs[0])|, m - 1); }
    }
  }

  lemma FitCountMonotone(cs: seq<Scalar>, m: nat, n: nat)
    requires m <= n
    ensures FitCount(cs, m) <= FitCount(cs, n)
  {
    FitCountIsMaximal(cs, m, FitCount(cs, m));
    FitCountIsMaximal(cs, n, FitCount(cs, m));
  }

  lemma FitCountOfPrefix(cs: seq<Scalar>, count: nat, m: nat)
    requires count <= |cs|
    ensures FitCount(cs[..count], m) == if count <= FitCount(cs, m) then count else FitCount(cs, m)
  {
    var c := FitCount(cs[..count], m);
    var expected := if count <= FitCount(cs, m) then count else FitCount(cs, m);
    assert cs[..count][..expected] == cs[..expected] && cs[..count][..c] == cs[..c];
    FitCountIsMaximal(cs, m, expected);
    FitCountIsMaximal(cs[..count], m, expected);
    FitCountIsMaximal(cs, m, c);
    FitCountIsMaximal(cs[..count], m, c);
  }

  lemma EncodeAllCons(c: Scalar, cs: seq<Scalar>)
    ensures EncodeAll([c] + cs) == Encode(c) + EncodeAll(cs)
  {
    assert ([c] + cs)[1..] == cs;
  }

  lemma {:induction false} EncodeAllAppend(a: seq<Scalar>, b: seq<Scalar>)
    ensures EncodeAll(a + b) == EncodeAll(a) + EncodeAll(b)
  {
    if a == [] {
      assert a + b == b;
    } else {
      var c, rest := a[0], a[1..];
      EncodeAllAppend(rest, b);
      assert a + b == [c] + (rest + b);
      EncodeAllCons(c, rest + b);
      Associative(Encode(c), EncodeAll(rest), EncodeAll(b));
    }
  }

  lemma EncodeAllAround(cs: seq<Scalar>, f: nat) returns (kept: seq<Byte>, rest: seq<Byte>)
    requires f < |cs|
    ensures kept == EncodeAll(cs[..f]) && EncodeAll(cs[..f + 1]) == kept + Encode(cs[f])
    ensures EncodeAll(cs) == kept + Encode(cs[f]) + rest
  {
    var a, c, b := cs[..f], cs[f], cs[f + 1..];
    kept, rest := EncodeAll(a), EncodeAll(b);
    EncodeAllCons(c, []);
    assert [c] + [] == [c];
    EncodeAllAppend(a, [c]);
    EncodeAllAppend(a + [c], b);
    assert cs[..f + 1] == a + [c] && cs == a + [c] + b;
  }

  /** The first n bytes are the characters that fit and the beginning of the one that is cut. */
  lemma CutBytes(cs: seq<Scalar>, n: nat) returns (cut: nat)
    requires n < |EncodeAll(cs)|
    ensures var f := FitCount(cs, n);
            && f < |cs| && cut < |Encode(cs[f])|
            && EncodeAll(cs)[..n] == EncodeAll(cs[..f]) + Encode(cs[f])[..cut]
  {
    var f := FitCount(cs, n);
    assert cs[..|cs|] == cs;
    FitCountIsMaximal(cs, n, |cs|);
    FitCountIsMaximal(cs, n, f);
    FitCountIsMaximal(cs, n, f + 1);
    var kept, rest := EncodeAllAround(cs, f);
    cut := n - |kept|;
    CutInside(kept, Encode(cs[f]), rest, n);
  }

  lemma CutInside(a: seq<Byte>, b: seq<Byte>, c: seq<Byte>, n: nat)
    requires |a| <= n <= |a| + |b|
    ensures (a + b + c)[..n] == a + b[..n - |a|]
  {
  }

  /** Decoding the first n bytes gives the characters that fit: the ignored tail is the
      beginning of the cut character and nothing else. */
  lemma {:induction false} DecodeCutBytes(cs: seq<Scalar>, n: nat)
    requires n <= |EncodeAll(cs)|
    ensures Decode(EncodeAll(cs)[..n]) == cs[..FitCount(cs, n)]
  {
    if cs != [] {
      var first, rest := Encode(cs[0]), EncodeAll(cs[1..]);
      if |first| <= n {
        DecodeCutBytes(cs[1..], n - |first|);
        var kept := rest[..n - |first|];
        assert (first + rest)[..n] == first + kept;
        DecodeEncoded(cs[0], kept);
        assert (first + kept)[|first|..] == kept;
      } else {
        assert (first + rest)[..n] == first[..n];
        CutDecodesToNothing(cs[0], n);
      }
    }
  }

  // ---- Truncation as a function

  /** The text kept of s within n bytes. */
  function Truncated(n: nat, s: Text): Text {
    if |GetBytes(s)| <= n then s else TextOf(Scalars(s)[..FitCount(Scalars(s), n)])
  }

  datatype Outcome = Returned(value: Option<Text>) | Thrown

  function TruncateString(maxBytes: int, input: Option<Text>): Outcome {
    if input.None? || input.value == [] then Returned(None)
    else if maxBytes < 0 then Thrown
    else Returned(Some(Truncated(maxBytes, input.value)))
  }

  /** Null comes of a missing or empty text and of nothing else; a negative budget is an exception
      for any other text; and a text that fits is returned as it is. */
  lemma OutcomeExactly(maxBytes: int, input: Option<Text>)
    ensures TruncateString(maxBytes, input) == Returned(None) <==> input.None? || input == Some([])
    ensures TruncateString(maxBytes, input) == Thrown <==> input.Some? && input.value != [] && maxBytes < 0
    ensures (input.Some? && input.value != [] && |GetBytes(input.value)| <= maxBytes ==>
               TruncateString(maxBytes, input) == Returned(input))
  {
  }

  lemma TruncatedScalars(n: nat, s: Text)
    ensures Scalars(Truncated(n, s)) == Scalars(s)[..FitCount(Scalars(s), n)]
  {
    var cs := Scalars(s);
    assert cs[..|cs|] == cs;
    FitCountIsMaximal(cs, n, |cs|);
    ScalarsOfText(cs[..FitCount(cs, n)]);
  }

  /** Whatever the text, lone surrogates included, the result encodes to at most n bytes. */
  lemma TruncatedFits(n: nat, s: Text)
    ensures |GetBytes(Truncated(n, s))| <= n
  {
    TruncatedScalars(n, s);
    FitCountIsMaximal(Scalars(s), n, FitCount(Scalars(s), n));
  }

  /** Truncating twice is truncating once to the smaller budget, for every text. */
  lemma TruncatedTwice(m: nat, n: nat, s: Text)
    ensures Truncated(m, Truncated(n, s)) == Truncated(if m <= n then m else n, s)
  {
    var cs, t := Scalars(s), Truncated(n, s);
    var f, g := FitCount(cs, n), FitCount(cs, m);
    TruncatedScalars(n, s);
    FitCountOfPrefix(cs, f, m);
    FitCountIsMaximal(cs, m, f);
    FitCountIsMaximal(cs, n, f);
    if m <= n { FitCountMonotone(cs, m, n); }
    if |GetBytes(s)| > n && |GetBytes(t)| > m {
      assert cs[..f][..g] == cs[..g];
    }
    assert |GetBytes(s)| <= n ==> t == s;
  }

  /** As a method the truncation composes exactly when the first truncation kept something:
      an empty text comes back as null. */
  lemma TruncateStringComposes(m: nat, n: nat, s: Text)
    requires s != []
    ensures Truncated(n, s) != [] <==>
              TruncateString(m, TruncateString(n, Some(s)).value) == TruncateString(if m <= n then m else n, Some(s))
  {
    TruncatedTwice(m, n, s);
  }

  // ---- Truncation keeps a prefix

  /** k does not fall between the two halves of a surrogate pair. */
  predicate Boundary(s: Text, k: nat) {
    k <= |s| && !(0 < k < |s| && IsHigh(s[k - 1]) && IsLow(s[k]))
  }

  /** a and b do not share a surrogate pair. */
  predicate Apart(a: Text, b: Text) {
    a == [] || b == [] || !IsHigh(a[|a| - 1]) || !IsLow(b[0])
  }

  lemma HeadOfAppend(a: Text, b: Text)
    requires a != [] && Apart(a, b)
    ensures HeadLength(a + b) == HeadLength(a) && Head(a + b) == Head(a)
    ensures (a + b)[..HeadLength(a)] == a[..HeadLength(a)] && (a + b)[HeadLength(a)..] == a[HeadLength(a)..] + b
  {
  }

  /** Characters are counted part by part between boundaries. */
  lemma {:induction false} ScalarsOfAppend(a: Text, b: Text)
    requires Apart(a, b)
    ensures Scalars(a + b) == Scalars(a) + Scalars(b)
    ensures WellFormed(a + b) ==> WellFormed(a)
  {
    if a == [] {
      assert a + b == b;
    } else {
      HeadOfAppend(a, b);
      ScalarsOfAppend(a[HeadLength(a)..], b);
    }
  }

  lemma ScalarsAtBoundary(s: Text, k: nat)
    requires Boundary(s, k)
    ensures Scalars(s) == Scalars(s[..k]) + Scalars(s[k..]) && (WellFormed(s) ==> WellFormed(s[..k]))
  {
    assert s == s[..k] + s[k..];
    ScalarsOfAppend(s[..k], s[k..]);
  }

  lemma TextOfCons(c: Scalar, cs: seq<Scalar>)
    ensures TextOf([c] + cs) == UnitsOf(c) + TextOf(cs)
  {
    assert ([c] + cs)[1..] == cs;
  }

  lemma PrependHead(s: Text, a: Text, b: Text)
    requires s != [] && s[HeadLength(s)..] == a + b && Apart(a, b)
    ensures var head := s[..HeadLength(s)];
            && s == head + a + b && Apart(head + a, b)
            && Scalars(head + a) == [Head(s)] + Scalars(a)
            && |UnitsOf(Head(s))| == |head|
  {
    var head := s[..HeadLength(s)];
    assert s == head + (a + b);
    HeadOfAppend(head + a, b);
    assert s == head + a + b;
    assert (head + a)[|head|..] == a;
  }

  /** The part of s taken by its first m characters; their text is as long, and is the same
      unless there are lone surrogates. */
  lemma {:induction false} SplitAfter(s: Text, m: nat) returns (a: Text, b: Text)
    requires m <= |Scalars(s)|
    ensures s == a + b && Apart(a, b)
    ensures Scalars(a) == Scalars(s)[..m] && |TextOf(Scalars(s)[..m])| == |a|
  {
    if m == 0 {
      a, b := [], s;
    } else {
      a, b := SplitAfter(s[HeadLength(s)..], m - 1);
      PrependHead(s, a, b);
      TextOfCons(Head(s), Scalars(a));
      a := s[..HeadLength(s)] + a;
    }
  }

  /** r is the longest prefix of s that ends on a character boundary and fits into n bytes. */
  ghost predicate IsLongestFit(r: Text, s: Text, n: nat) {
    && r <= s && Boundary(s, |r|) && |GetBytes(r)| <= n
    && forall k :: |r| < k <= |s| && Boundary(s, k) ==> |GetBytes(s[..k])| > n
  }

  lemma TruncatedIsPrefix(n: nat, s: Text)
    requires WellFormed(s)
    ensures Truncated(n, s) <= s && Boundary(s, |Truncated(n, s)|)
  {
    var kept, rest := SplitAfter(s, FitCount(Scalars(s), n));
    ScalarsOfAppend(kept, rest);
    TextOfScalars(kept);
  }

  lemma LongerDoesNotFit(n: nat, s: Text, k: nat)
    requires WellFormed(s) && Truncated(n, s) <= s && Boundary(s, |Truncated(n, s)|)
    requires |Truncated(n, s)| < k <= |s| && Boundary(s, k)
    ensures |GetBytes(s[..k])| > n
  {
    var r := Truncated(n, s);
    assert s[..|r|] == r;
    LongerPrefixHasMore(s, |r|, k);
    ScalarsAtBoundary(s, k);
    TruncatedScalars(n, s);
    var m := |Scalars(s[..k])|;
    assert Scalars(s)[..m] == Scalars(s[..k]);
    FitCountIsMaximal(Scalars(s), n, m);
  }

  /** For well-formed text, truncation keeps the longest prefix of whole characters that fits. */
  lemma TruncatedIsLongestFit(n: nat, s: Text)
    requires WellFormed(s)
    ensures IsLongestFit(Truncated(n, s), s, n)
  {
    TruncatedFits(n, s);
    TruncatedIsPrefix(n, s);
    forall k | |Truncated(n, s)| < k <= |s| && Boundary(s, k) ensures |GetBytes(s[..k])| > n {
      LongerDoesNotFit(n, s, k);
    }
  }

  /** Of two prefixes of whole characters the longer one has more characters. */
  lemma LongerPrefixHasMore(s: Text, j: nat, k: nat)
    requires WellFormed(s) && Boundary(s, j) && Boundary(s, k) && j < k
    ensures |Scalars(s[..j])| < |Scalars(s[..k])|
  {
    ScalarsAtBoundary(s, k);
    assert Boundary(s[..k], j);
    ScalarsAtBoundary(s[..k], j);
    assert s[..k][..j] == s[..j];
    assert s[..k][j..] != [];
  }

  /** For well-formed text, or a budget that cuts it, a smaller budget keeps less of the same. */
  lemma TruncatedMonotone(m: nat, n: nat, s: Text)
    requires m <= n && (WellFormed(s) || |GetBytes(s)| > n)
    ensures Truncated(m, s) <= Truncated(n, s)
  {
    if |GetBytes(s)| > n {
      var cs := Scalars(s);
      FitCountMonotone(cs, m, n);
      TextOfPrefix(cs[..FitCount(cs, n)], FitCount(cs, m));
      assert cs[..FitCount(cs, n)][..FitCount(cs, m)] == cs[..FitCount(cs, m)];
    } else {
      TruncatedIsPrefix(m, s);
    }
  }

  lemma {:induction false} TextOfPrefix(cs: seq<Scalar>, m: nat)
    requires m <= |cs|
    ensures TextOf(cs[..m]) <= TextOf(cs)
  {
    if m > 0 {
      TextOfPrefix(cs[1..], m - 1);
      assert cs[..m][1..] == cs[1..][..m - 1];
    }
  }

  lemma KeptPart(n: nat, s: Text) returns (kept: Text)
    requires |GetBytes(s)| > n
    ensures kept <= s && Boundary(s, |kept|) && |GetBytes(kept)| <= n
    ensures Scalars(kept) == Scalars(s)[..FitCount(Scalars(s), n)]
    ensures |Truncated(n, s)| == |kept| && (Truncated(n, s) <= s <==> WellFormed(kept))
  {
    var rest: Text;
    kept, rest := SplitAfter(s, FitCount(Scalars(s), n));
    FitCountIsMaximal(Scalars(s), n, FitCount(Scalars(s), n));
    TextOfScalars(kept);
  }

  /** A prefix of whole characters that fits is part of what is kept. */
  lemma FittingIsKept(n: nat, s: Text, kept: Text, k: nat)
    requires kept <= s && Boundary(s, |kept|) && Scalars(kept) == Scalars(s)[..FitCount(Scalars(s), n)]
    requires Boundary(s, k) && |GetBytes(s[..k])| <= n
    ensures k <= |kept|
  {
    ScalarsAtBoundary(s, k);
    var m := |Scalars(s[..k])|;
    assert Scalars(s)[..m] == Scalars(s[..k]);
    FitCountIsMaximal(Scalars(s), n, m);
    if k > |kept| {
      assert s[..|kept|] == kept;
      assert Boundary(s[..k], |kept|) && s[..k][..|kept|] == kept && s[..k][|kept|..] != [];
      ScalarsAtBoundary(s[..k], |kept|);
    }
  }

  /** For any text that must be cut, the result is a prefix exactly when every prefix of whole
      characters that fits is free of lone surrogates. */
  lemma CutIsPrefixIffWellFormed(n: nat, s: Text)
    requires |GetBytes(s)| > n
    ensures |Truncated(n, s)| <= |s|
    ensures (Truncated(n, s) <= s
             <==> forall k :: 0 <= k <= |s| && Boundary(s, k) && |GetBytes(s[..k])| <= n ==> WellFormed(s[..k]))
  {
    var kept := KeptPart(n, s);
    assert s[..|kept|] == kept;
    if WellFormed(kept) {
      forall k | 0 <= k <= |s| && Boundary(s, k) && |GetBytes(s[..k])| <= n ensures WellFormed(s[..k]) {
        FittingIsKept(n, s, kept, k);
        assert Boundary(kept, k) && kept[..k] == s[..k];
        ScalarsAtBoundary(kept, k);
      }
    }
  }

  /** So a lone surrogate can make the result differ from every prefix: it becomes '?'. */
  lemma LoneSurrogateBreaksPrefix()
    ensures Truncated(1, [0xD800, 0x61]) == [QUESTION]
  {
    var s: Text := [0xD800, 0x61];
    assert s[1..] == [0x61] && [0x61 as Unit][1..] == [];
    assert Scalars([0x61]) == [0x61] + Scalars([]);
    assert Scalars(s) == [QUESTION] + Scalars(s[1..]) == [QUESTION, 0x61];
    var cs: seq<Scalar> := [QUESTION, 0x61];
    assert cs[1..] == [0x61] && [0x61 as Scalar][1..] == [];
    assert EncodeAll(cs[1..]) == Encode(0x61) + EncodeAll([0x61 as Scalar][1..]);
    assert FitCount(cs, 1) == 1 + FitCount(cs[1..], 0);
    assert cs[..1] == [QUESTION] && [QUESTION as Scalar][1..] == [];
    assert TextOf([QUESTION]) == UnitsOf(QUESTION) + TextOf([QUESTION as Scalar][1..]);
  }

  // ---- The method

  lemma {:induction false} BytesPerUnit(s: Text)
    ensures |GetBytes(s)| <= 3 * |s|
  {
    if s != [] {
      BytesPerUnit(s[HeadLength(s)..]);
      assert Scalars(s)[1..] == Scalars(s[HeadLength(s)..]);
    }
  }

  /** Java's division truncates towards zero. */
  function JavaDivide(a: int, b: int): int
    requires b > 0
  {
    if a >= 0 then a / b else -(-a / b)
  }

  lemma DecodedUnitsTakeNoMoreThanBytes(bytes: seq<Byte>)
    requires DecodeFirst(bytes).Some?
    ensures |UnitsOf(DecodeFirst(bytes).value.0)| <= DecodeFirst(bytes).value.1
  {
  }

  method Put(buffer: array<Unit>, position: nat, units: Text) returns (end: nat)
    requires 1 <= |units| <= 2 && position + |units| <= buffer.Length
    modifies buffer
    ensures end == position + |units| && buffer[..end] == old(buffer[..position]) + units
  {
    buffer[position] := units[0];
    end := position + 1;
    if |units| == 2 {
      buffer[end] := units[1];
      end := end + 1;
    }
  }

  /** One turn of the decoder: what it takes from the input and writes to the output. */
  lemma DecodeStep(rest: seq<Byte>) returns (later: Text)
    requires rest != []
    ensures var first := DecodeFirst(rest);
            if first.None? then Decode(rest) == Decode(rest[1..])
            else
              && |UnitsOf(first.value.0)| <= first.value.1
              && later == TextOf(Decode(rest[first.value.1..]))
              && TextOf(Decode(rest)) == UnitsOf(first.value.0) + later
  {
    var first := DecodeFirst(rest);
    later := [];
    if first.Some? {
      DecodedUnitsTakeNoMoreThanBytes(rest);
      later := TextOf(Decode(rest[first.value.1..]));
      TextOfCons(first.value.0, Decode(rest[first.value.1..]));
    }
  }

  /** The decoder fills a buffer as large as its input, which never overflows. */
  method DecodeInto(bytes: seq<Byte>, buffer: array<Unit>) returns (position: nat)
    requires buffer.Length >= |bytes|
    modifies buffer
    ensures position <= buffer.Length
    ensures buffer[..position] == TextOf(Decode(bytes))
  {
    position := 0;
    var rest := bytes;
    while rest != []
      invariant position + |rest| <= |bytes|
      invariant buffer[..position] + TextOf(Decode(rest)) == TextOf(Decode(bytes))
      decreases |rest|
    {
      var first := DecodeFirst(rest);
      ghost var later := DecodeStep(rest);
      if first.None? {
        rest := rest[1..];
      } else {
        var units := UnitsOf(first.value.0);
        Associative(buffer[..position], units, later);
        position := Put(buffer, position, units);
        rest := rest[first.value.1..];
      }
    }
  }

  method TruncateToBytes(maxBytes: int, input: Option<Text>) returns (result: Outcome)
    ensures result == TruncateString(maxBytes, input)
  {
    if input.None? || input.value == [] {
      return Returned(None);
    }
    var text := input.value;
    if |text| <= JavaDivide(maxBytes, MAX_BYTES_PER_SYMBOL) {
      BytesPerUnit(text);
      return Returned(input);
    }
    var bytes := GetBytes(text);
    if |bytes| <= maxBytes {
      return Returned(input);
    }
    if maxBytes < 0 {
      return Thrown;
    }
    var charBuffer := new Unit[maxBytes];
    var position := DecodeInto(bytes[..maxBytes], charBuffer);
    DecodeCutBytes(Scalars(text), maxBytes);
    result := Returned(Some(charBuffer[..position]));
  }
}
