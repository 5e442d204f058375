/** UTF-8 (sections 3 and 4 of RFC 3629) and UTF-16 surrogate pairs (section 2 of RFC 2781),
    with what Java does on malformed input: encoding replaces a lone surrogate by '?', and a
    decoder told to ignore malformed input skips it. */
module Utf8 {
  import opened JavaText

  type Byte = b: int | 0 <= b < 0x100

  /** A Unicode scalar value: any code point that is not a surrogate. */
  type Scalar = c: int | 0 <= c < 0xD800 || 0xE000 <= c < 0x11_0000

  predicate IsHigh(u: Unit) { 0xD800 <= u < 0xDC00 }
  predicate IsLow(u: Unit) { 0xDC00 <= u < 0xE000 }

  // ---- UTF-16

  function UnitsOf(c: Scalar): (units: Text)
    ensures 1 <= |units| <= 2
  {
    if c < 0x1_0000 then [c]
    else [0xD800 + (c - 0x1_0000) / 0x400, 0xDC00 + (c - 0x1_0000) % 0x400]
  }

  /** How many units the first character takes: a surrogate pair takes two. */
  function HeadLength(t: Text): (n: nat)
    requires t != []
    ensures 1 <= n <= 2 && n <= |t|
  {
    if |t| >= 2 && IsHigh(t[0]) && IsLow(t[1]) then 2 else 1
  }

  /** The first character; a lone surrogate counts as '?'. */
  function Head(t: Text): Scalar
    requires t != []
  {
    if HeadLength(t) == 2 then 0x1_0000 + (t[0] - 0xD800) * 0x400 + (t[1] - 0xDC00)
    else if IsHigh(t[0]) || IsLow(t[0]) then QUESTION
    else t[0]
  }

  /** The characters of a text. */
  function Scalars(t: Text): seq<Scalar> {
    if t == [] then [] else [Head(t)] + Scalars(t[HeadLength(t)..])
  }

  predicate WellFormed(t: Text) {
    t == [] || (UnitsOf(Head(t)) == t[..HeadLength(t)] && WellFormed(t[HeadLength(t)..]))
  }

  function TextOf(cs: seq<Scalar>): Text {
    if cs == [] then [] else UnitsOf(cs[0]) + TextOf(cs[1..])
  }

  lemma HeadOfUnits(c: Scalar, rest: Text)
    ensures var t := UnitsOf(c) + rest;
            HeadLength(t) == |UnitsOf(c)| && Head(t) == c && t[HeadLength(t)..] == rest
  {
    var t := UnitsOf(c) + rest;
    assert t[0] == UnitsOf(c)[0];
    if c >= 0x1_0000 { assert t[1] == UnitsOf(c)[1]; }
  }

  /** The units of a character, by the formula of section 2.2 of RFC 2781. */
  lemma UnitsTable(c: Scalar)
    ensures c < 0x1_0000 ==> UnitsOf(c) == [c]
    ensures (c >= 0x1_0000 ==>
               var units := UnitsOf(c);
               && |units| == 2 && 0xD800 <= units[0] <= 0xDBFF && 0xDC00 <= units[1] <= 0xDFFF
               && c == 0x1_0000 + (units[0] as int - 0xD800) * 0x400 + (units[1] as int - 0xDC00))
  {
  }

  /** A list of characters is recovered from its text, which is well-formed. */
  lemma {:induction false} ScalarsOfText(cs: seq<Scalar>)
    ensures Scalars(TextOf(cs)) == cs && WellFormed(TextOf(cs))
  {
    if cs != [] {
      ScalarsOfText(cs[1..]);
      HeadOfUnits(cs[0], TextOf(cs[1..]));
      var t := TextOf(cs);
      assert t[..HeadLength(t)] == UnitsOf(cs[0]);
    }
  }

  /** A text is recovered from its characters exactly when it is well-formed. */
  lemma {:induction false} TextOfScalars(t: Text)
    ensures WellFormed(t) <==> TextOf(Scalars(t)) == t
  {
    if t != [] {
      var n := HeadLength(t);
      TextOfScalars(t[n..]);
      assert t == t[..n] + t[n..];
      assert Scalars(t)[1..] == Scalars(t[n..]);
      if TextOf(Scalars(t)) == t {
        ScalarsOfText(Scalars(t));
      }
    }
  }

  /** The first character keeps its units unless it is a lone surrogate. */
  lemma WellFormedHead(t: Text)
    requires t != []
    ensures UnitsOf(Head(t)) == t[..HeadLength(t)] <==> HeadLength(t) == 2 || !(IsHigh(t[0]) || IsLow(t[0]))
  {
  }

  /** Unit k is half of a surrogate pair whose other half is not beside it. */
  predicate IsLone(t: Text, k: nat)
    requires k < |t|
  {
    || (IsHigh(t[k]) && !(k + 1 < |t| && IsLow(t[k + 1])))
    || (IsLow(t[k]) && !(k > 0 && IsHigh(t[k - 1])))
  }

  lemma LoneAfterHead(t: Text, k: nat)
    requires t != [] && HeadLength(t) <= k < |t|
    ensures IsLone(t, k) == IsLone(t[HeadLength(t)..], k - HeadLength(t))
  {
  }

  lemma LoneInHead(t: Text)
    requires t != []
    ensures UnitsOf(Head(t)) == t[..HeadLength(t)] <==> forall k :: 0 <= k < HeadLength(t) ==> !IsLone(t, k)
  {
    WellFormedHead(t);
    if HeadLength(t) == 1 { assert IsLone(t, 0) == (IsHigh(t[0]) || IsLow(t[0])); }
  }

  /** Lone surrogates are exactly what makes a text ill-formed. */
  lemma {:induction false} WellFormedIffNoneLone(t: Text)
    ensures WellFormed(t) <==> forall k :: 0 <= k < |t| ==> !IsLone(t, k)
  {
    if t != [] {
      var n := HeadLength(t);
      LoneInHead(t);
      WellFormedIffNoneLone(t[n..]);
      forall k | n <= k < |t| ensures IsLone(t, k) == IsLone(t[n..], k - n) { LoneAfterHead(t, k); }
      if !WellFormed(t[n..]) {
        var k :| 0 <= k < |t[n..]| && IsLone(t[n..], k);
        assert IsLone(t, k + n);
      }
    }
  }

  // ---- UTF-8

  function Encode(c: Scalar): (bytes: seq<Byte>)
    ensures 1 <= |bytes| <= 4
  {
    if c < 0x80 then [c]
    else if c < 0x800 then [0xC0 + c / 0x40, 0x80 + c % 0x40]
    else if c < 0x1_0000 then [0xE0 + c / 0x1000, 0x80 + c / 0x40 % 0x40, 0x80 + c % 0x40]
    else [0xF0 + c / 0x4_0000, 0x80 + c / 0x1000 % 0x40, 0x80 + c / 0x40 % 0x40, 0x80 + c % 0x40]
  }

  /** The bytes of a character, by the table of section 3 of RFC 3629: how many there are, which
      range each is in, and that their free bits make up the character. */
  lemma EncodeTable(c: Scalar)
    ensures |Encode(c)| == if c <= 0x7F then 1 else if c <= 0x7FF then 2 else if c <= 0xFFFF then 3 else 4
    ensures |Encode(c)| == 1 ==> Encode(c) == [c]
    ensures |Encode(c)| == 2 ==> 0xC0 <= Encode(c)[0] <= 0xDF && c == (Encode(c)[0] as int - 0xC0) * 64 + (Encode(c)[1] as int - 0x80)
    ensures (|Encode(c)| == 3 ==>
               && 0xE0 <= Encode(c)[0] <= 0xEF
               && c == (Encode(c)[0] as int - 0xE0) * 4096 + (Encode(c)[1] as int - 0x80) * 64 + (Encode(c)[2] as int - 0x80))
    ensures (|Encode(c)| == 4 ==>
               && 0xF0 <= Encode(c)[0] <= 0xF7
               && c == (Encode(c)[0] as int - 0xF0) * 262144 + (Encode(c)[1] as int - 0x80) * 4096 + (Encode(c)[2] as int - 0x80) * 64 + (Encode(c)[3] as int - 0x80))
    ensures forall k :: 1 <= k < |Encode(c)| ==> 0x80 <= Encode(c)[k] <= 0xBF
  {
    if 0x80 <= c < 0x800 {
      Split2(c);
    } else if 0x800 <= c < 0x1_0000 {
      Split3(c);
    } else if 0x1_0000 <= c {
      Split4(c);
    }
  }

  function EncodeAll(cs: seq<Scalar>): seq<Byte> {
    if cs == [] then [] else Encode(cs[0]) + EncodeAll(cs[1..])
  }

  /** String.getBytes(UTF_8). */
  function GetBytes(t: Text): seq<Byte> {
    EncodeAll(Scalars(t))
  }

  predicate IsTail(b: Byte) { 0x80 <= b < 0xC0 }

  /** The six bits a tail byte carries. */
  function Bits(b: Byte): int { b - 0x80 }

  function Decode2(b: int, b1: Byte): int { (b - 0xC0) * 0x40 + Bits(b1) }

  function Decode3(b: int, b1: Byte, b2: Byte): int { (b - 0xE0) * 0x1000 + Bits(b1) * 0x40 + Bits(b2) }

  function Decode4(b: int, b1: Byte, b2: Byte, b3: Byte): int {
    (b - 0xF0) * 0x4_0000 + Bits(b1) * 0x1000 + Bits(b2) * 0x40 + Bits(b3)
  }

  /** The character at the start of some bytes and the number of bytes it takes, following the
      syntax of section 4 of RFC 3629; None when the bytes do not start with a character. */
  function DecodeFirst(bytes: seq<Byte>): (first: Option<(Scalar, nat)>)
    ensures first.Some? ==> 1 <= first.value.1 <= |bytes|
  {
    if bytes == [] then None
    else
      var b := bytes[0];
      if b < 0x80 then Some((b, 1))
      else if 0xC2 <= b < 0xE0 then
        if |bytes| < 2 || !IsTail(bytes[1]) then None
        else Some((Decode2(b, bytes[1]), 2))
      else if 0xE0 <= b < 0xF0 then
        if |bytes| < 3 || !IsTail(bytes[1]) || !IsTail(bytes[2])
           || (b == 0xE0 && bytes[1] < 0xA0) || (b == 0xED && bytes[1] >= 0xA0)
        then None
        else Some((Decode3(b, bytes[1], bytes[2]), 3))
      else if 0xF0 <= b < 0xF5 then
        if |bytes| < 4 || !IsTail(bytes[1]) || !IsTail(bytes[2]) || !IsTail(bytes[3])
           || (b == 0xF0 && bytes[1] < 0x90) || (b == 0xF4 && bytes[1] >= 0x90)
        then None
        else Some((Decode4(b, bytes[1], bytes[2], bytes[3]), 4))
      else None
  }

  /** The characters a decoder that ignores malformed input finds. Java skips a malformed
      sequence in one go and this skips it byte by byte; the bytes it skips after the first are
      tail bytes, which start no character, so the characters found are the same. */
  function Decode(bytes: seq<Byte>): seq<Scalar>
    decreases |bytes|
  {
    if bytes == [] then []
    else
      var first := DecodeFirst(bytes);
      if first.None? then Decode(bytes[1..]) else [first.value.0] + Decode(bytes[first.value.1..])
  }

  lemma Split2(c: Scalar)
    requires 0x80 <= c < 0x800
    ensures 0xC2 <= 0xC0 + c / 0x40 < 0xE0 && Decode2(0xC0 + c / 0x40, 0x80 + c % 0x40) == c
  {
  }

  lemma Split3(c: Scalar)
    requires 0x800 <= c < 0x1_0000
    ensures var b, b1, b2 := 0xE0 + c / 0x1000, 0x80 + c / 0x40 % 0x40, 0x80 + c % 0x40;
            && 0xE0 <= b < 0xF0 && (b == 0xE0 ==> b1 >= 0xA0) && (b == 0xED ==> b1 < 0xA0)
            && IsTail(b1) && IsTail(b2) && Decode3(b, b1, b2) == c
  {
  }

  lemma Split4(c: Scalar)
    requires 0x1_0000 <= c
    ensures var b, b1, b2, b3 := 0xF0 + c / 0x4_0000, 0x80 + c / 0x1000 % 0x40, 0x80 + c / 0x40 % 0x40, 0x80 + c % 0x40;
            && 0xF0 <= b < 0xF5 && (b == 0xF0 ==> b1 >= 0x90) && (b == 0xF4 ==> b1 < 0x90)
            && IsTail(b1) && IsTail(b2) && IsTail(b3) && Decode4(b, b1, b2, b3) == c
  {
    var high, middle := c / 0x1000, c / 0x40;
    assert high == middle / 0x40 && c / 0x4_0000 == high / 0x40;
  }

  /** Decoding inverts encoding, whatever bytes follow. */
  lemma DecodeEncoded(c: Scalar, rest: seq<Byte>)
    ensures DecodeFirst(Encode(c) + rest) == Some((c, |Encode(c)|))
  {
    if c < 0x80 {
    } else if c < 0x800 {
      Split2(c);
    } else if c < 0x1_0000 {
      Split3(c);
    } else {
      Split4(c);
    }
  }

  /** A character that is cut short decodes to nothing. */
  lemma CutDecodesToNothing(c: Scalar, n: nat)
    requires n < |Encode(c)|
    ensures Decode(Encode(c)[..n]) == []
  {
    var bytes := Encode(c)[..n];
    if n > 0 {
      assert DecodeFirst(bytes) == None;
      TailsDecodeToNothing(bytes[1..]);
    }
  }

  lemma {:induction false} TailsDecodeToNothing(bytes: seq<Byte>)
    requires forall i :: 0 <= i < |bytes| ==> IsTail(bytes[i])
    ensures Decode(bytes) == []
  {
    if bytes != [] { TailsDecodeToNothing(bytes[1..]); }
  }

  /** Decoding all the bytes of a text gives its characters back. */
  lemma {:induction false} DecodeAllEncoded(cs: seq<Scalar>)
    ensures Decode(EncodeAll(cs)) == cs
  {
    if cs != [] {
      var rest := EncodeAll(cs[1..]);
      DecodeAllEncoded(cs[1..]);
      DecodeEncoded(cs[0], rest);
      assert (Encode(cs[0]) + rest)[|Encode(cs[0])|..] == rest;
    }
  }
}
