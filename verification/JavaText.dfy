/** Java strings: sequences of UTF-16 code units, which need not be well-formed. */
module JavaText {
  const MAX_INT := 0x7FFF_FFFF

  type Unit = u: int | 0 <= u < 0x1_0000
  type Text = seq<Unit>

  const SPACE: Unit := ' ' as int
  const COMMA: Unit := ',' as int
  const MINUS: Unit := '-' as int
  const ZERO: Unit := '0' as int
  const COLON: Unit := ':' as int
  const SEMICOLON: Unit := ';' as int
  const QUESTION: Unit := '?' as int
  const OPEN_BRACKET: Unit := '[' as int
  const CLOSE_BRACKET: Unit := ']' as int

  /** A text of ASCII characters. */
  function Ascii(s: string): (t: Text)
    requires forall k :: 0 <= k < |s| ==> s[k] < 128 as char
    ensures |t| == |s| && forall k :: 0 <= k < |t| ==> t[k] == s[k] as int
  {
    seq(|s|, k requires 0 <= k < |s| => s[k] as int)
  }

  datatype Option<+T> = None | Some(value: T)

  lemma Associative<T>(a: seq<T>, b: seq<T>, c: seq<T>)
    ensures a + b + c == a + (b + c)
  {
  }

  /** String.indexOf: the first position of c in t, or -1. */
  function IndexOf(t: Text, c: Unit): (i: int)
    ensures -1 <= i < |t|
    ensures i == -1 <==> c !in t
    ensures 0 <= i ==> t[i] == c && c !in t[..i]
  {
    if t == [] then -1
    else if t[0] == c then 0
    else
      var rest := IndexOf(t[1..], c);
      if rest == -1 then -1 else
        assert t[..rest + 1] == [t[0]] + t[1..][..rest];
        rest + 1
  }

  /** The pieces of t between occurrences of c, empty pieces included. */
  function Pieces(t: Text, c: Unit): (pieces: seq<Text>)
    ensures |pieces| >= 1
    ensures forall k :: 0 <= k < |pieces| ==> c !in pieces[k]
    decreases |t|
  {
    var i := IndexOf(t, c);
    if i == -1 then [t] else [t[..i]] + Pieces(t[i + 1..], c)
  }

  /** Pieces put back together with the separator between them. */
  function Join(pieces: seq<Text>, c: Unit): Text {
    if pieces == [] then []
    else if |pieces| == 1 then pieces[0]
    else pieces[0] + [c] + Join(pieces[1..], c)
  }

  function DropTrailingEmpty(pieces: seq<Text>): (kept: seq<Text>)
    ensures kept <= pieces
    ensures kept != [] ==> kept[|kept| - 1] != []
    ensures forall k :: |kept| <= k < |pieces| ==> pieces[k] == []
  {
    if pieces == [] || pieces[|pieces| - 1] != [] then pieces
    else DropTrailingEmpty(pieces[..|pieces| - 1])
  }

  /** String.split on one literal character: a text without the separator is its own only
      piece, and otherwise trailing empty pieces are dropped. */
  function Split(t: Text, c: Unit): seq<Text> {
    if c !in t then [t] else DropTrailingEmpty(Pieces(t, c))
  }

  lemma JoinCons(first: Text, pieces: seq<Text>, c: Unit)
    requires pieces != []
    ensures Join([first] + pieces, c) == first + [c] + Join(pieces, c)
  {
    assert ([first] + pieces)[1..] == pieces;
  }

  lemma {:induction false} JoinPieces(t: Text, c: Unit)
    ensures Join(Pieces(t, c), c) == t
    decreases |t|
  {
    var i := IndexOf(t, c);
    if i != -1 {
      JoinPieces(t[i + 1..], c);
      JoinCons(t[..i], Pieces(t[i + 1..], c), c);
      assert t == t[..i] + [c] + t[i + 1..];
    }
  }

  lemma {:induction false} FirstOccurrence(before: Text, c: Unit, after: Text)
    requires c !in before
    ensures IndexOf(before + [c] + after, c) == |before|
  {
    if before != [] {
      FirstOccurrence(before[1..], c, after);
      assert (before + [c] + after)[1..] == before[1..] + [c] + after;
    }
  }

  lemma PiecesCons(first: Text, c: Unit, rest: Text)
    requires c !in first
    ensures Pieces(first + [c] + rest, c) == [first] + Pieces(rest, c)
  {
    var t := first + [c] + rest;
    FirstOccurrence(first, c, rest);
    assert t[..|first|] == first && t[|first| + 1..] == rest;
  }

  lemma FirstPiece(t: Text, c: Unit) returns (first: Text, rest: Text)
    requires c in t
    ensures t == first + [c] + rest && c !in first
    ensures Pieces(t, c) == [first] + Pieces(rest, c)
  {
    var i := IndexOf(t, c);
    first, rest := t[..i], t[i + 1..];
  }

  /** A separator-free list of pieces is recovered from its joined text. */
  lemma {:induction false} PiecesOfJoin(pieces: seq<Text>, c: Unit)
    requires pieces != []
    requires forall k :: 0 <= k < |pieces| ==> c !in pieces[k]
    ensures Pieces(Join(pieces, c), c) == pieces
  {
    if |pieces| > 1 {
      PiecesOfJoin(pieces[1..], c);
      PiecesCons(pieces[0], c, Join(pieces[1..], c));
    }
  }

  lemma {:induction false} KeepsNonEmpty(pieces: seq<Text>)
    requires pieces == [] || pieces[|pieces| - 1] != []
    ensures DropTrailingEmpty(pieces) == pieces
  {
  }

  /** Java's split undoes a join whose pieces are free of the separator and whose last
      piece is not empty. */
  lemma SplitOfJoin(pieces: seq<Text>, c: Unit)
    requires pieces != [] && pieces[|pieces| - 1] != []
    requires forall k :: 0 <= k < |pieces| ==> c !in pieces[k]
    ensures Split(Join(pieces, c), c) == pieces
  {
    PiecesOfJoin(pieces, c);
    if c !in Join(pieces, c) {
      assert Pieces(Join(pieces, c), c) == [Join(pieces, c)];
    }
  }

  predicate AllAre(t: Text, c: Unit) {
    forall k :: 0 <= k < |t| ==> t[k] == c
  }

  lemma {:induction false} JoinSnocEmpty(pieces: seq<Text>, c: Unit)
    requires pieces != []
    ensures Join(pieces + [[]], c) == Join(pieces, c) + [c]
  {
    if |pieces| == 1 {
      JoinCons(pieces[0], [[]], c);
      assert pieces + [[]] == [pieces[0]] + [[]];
    } else {
      var first, rest := pieces[0], pieces[1..];
      JoinSnocEmpty(rest, c);
      JoinCons(first, rest + [[]], c);
      assert pieces + [[]] == [first] + (rest + [[]]);
      Associative(first + [c], Join(rest, c), [c]);
    }
  }

  lemma {:induction false} DropConserves(pieces: seq<Text>, c: Unit) returns (dropped: Text)
    ensures Join(pieces, c) == Join(DropTrailingEmpty(pieces), c) + dropped && AllAre(dropped, c)
    decreases |pieces|
  {
    dropped := [];
    if pieces != [] && pieces[|pieces| - 1] == [] {
      var init := pieces[..|pieces| - 1];
      assert pieces == init + [[]];
      dropped := DropConserves(init, c);
      if init != [] {
        JoinSnocEmpty(init, c);
        Associative(Join(DropTrailingEmpty(init), c), dropped, [c]);
        dropped := dropped + [c];
      }
    }
  }

  /** Java's split loses nothing of a text but the separators at its end. */
  lemma SplitConserves(t: Text, c: Unit) returns (dropped: Text)
    ensures t == Join(Split(t, c), c) + dropped && AllAre(dropped, c)
  {
    dropped := [];
    if c in t {
      JoinPieces(t, c);
      dropped := DropConserves(Pieces(t, c), c);
    }
  }

  /** String.trim: units up to U+0020 are dropped at both ends. */
  function Trim(t: Text): (trimmed: Text)
    ensures trimmed == [] || (trimmed[0] > SPACE && trimmed[|trimmed| - 1] > SPACE)
    decreases |t|
  {
    if t == [] then []
    else if t[0] <= SPACE then Trim(t[1..])
    else if t[|t| - 1] <= SPACE then Trim(t[..|t| - 1])
    else t
  }

  /** What is trimmed off is blanks at both ends and nothing else. */
  lemma {:induction false} TrimExactly(t: Text) returns (before: Text, after: Text)
    ensures t == before + Trim(t) + after
    ensures forall k :: 0 <= k < |before| ==> before[k] <= ' ' as int
    ensures forall k :: 0 <= k < |after| ==> after[k] <= ' ' as int
    decreases |t|
  {
    if t == [] {
      before, after := [], [];
    } else if t[0] <= SPACE {
      before, after := TrimExactly(t[1..]);
      assert t == [t[0]] + t[1..];
      Associative([t[0]], before + Trim(t), after);
      Associative([t[0]], before, Trim(t));
      before := [t[0]] + before;
    } else if t[|t| - 1] <= SPACE {
      var last := t[|t| - 1];
      before, after := TrimExactly(t[..|t| - 1]);
      assert t == t[..|t| - 1] + [last];
      Associative(before + Trim(t), after, [last]);
      after := after + [last];
    } else {
      before, after := [], [];
    }
  }

  /** String.compareTo as a strict order. */
  predicate Less(a: Text, b: Text) {
    b != [] && (a == [] || a[0] < b[0] || (a[0] == b[0] && Less(a[1..], b[1..])))
  }

  lemma {:induction false} LessTotal(a: Text, b: Text)
    ensures Less(a, b) || a == b || Less(b, a)
  {
    if a != [] && b != [] && a[0] == b[0] {
      LessTotal(a[1..], b[1..]);
      assert a == [a[0]] + a[1..] && b == [b[0]] + b[1..];
    }
  }

  lemma {:induction false} LessIrreflexive(a: Text)
    ensures !Less(a, a)
  {
    if a != [] { LessIrreflexive(a[1..]); }
  }

  lemma {:induction false} LessTransitive(a: Text, b: Text, c: Text)
    requires Less(a, b) && Less(b, c)
    ensures Less(a, c)
  {
    if a != [] && a[0] == b[0] == c[0] { LessTransitive(a[1..], b[1..], c[1..]); }
  }

  /** a and b agree up to position k, where a has the smaller unit. */
  predicate SmallerAt(a: Text, b: Text, k: nat) {
    k < |a| && k < |b| && a[..k] == b[..k] && a[k] < b[k]
  }

  lemma LessCons(u: Unit, a: Text, b: Text)
    ensures Less([u] + a, [u] + b) <==> Less(a, b)
  {
    assert ([u] + a)[1..] == a && ([u] + b)[1..] == b;
  }

  lemma SmallerAtCons(u: Unit, a: Text, b: Text, k: nat)
    ensures SmallerAt([u] + a, [u] + b, k + 1) <==> SmallerAt(a, b, k)
  {
    if k <= |a| && k <= |b| {
      assert ([u] + a)[..k + 1] == [u] + a[..k] && ([u] + b)[..k + 1] == [u] + b[..k];
      assert ([u] + a[..k])[1..] == a[..k] && ([u] + b[..k])[1..] == b[..k];
    }
  }

  /** The order is decided by the first differing unit, or by length between a text and its
      proper prefix. */
  lemma {:induction false} LessExactly(a: Text, b: Text)
    ensures Less(a, b) <==> a < b || exists k: nat :: SmallerAt(a, b, k)
  {
    if a != [] && b != [] && a[0] == b[0] {
      var u, a', b' := a[0], a[1..], b[1..];
      assert a == [u] + a' && b == [u] + b';
      LessExactly(a', b');
      LessCons(u, a', b');
      if k: nat :| SmallerAt(a, b, k) {
        assert k > 0;
        SmallerAtCons(u, a', b', k - 1);
      }
      if k: nat :| SmallerAt(a', b', k) {
        SmallerAtCons(u, a', b', k);
      }
    } else if a != [] && b != [] {
      if a[0] < b[0] { assert SmallerAt(a, b, 0); }
      if k: nat :| SmallerAt(a, b, k) {
        assert k > 0 ==> a[..k][0] == b[..k][0];
      }
    }
  }

  /** Strictly ascending by compareTo. */
  predicate Ascending(names: seq<Text>) {
    forall i, j :: 0 <= i < j < |names| ==> Less(names[i], names[j])
  }

  predicate Distinct(names: seq<Text>) {
    forall i, j :: 0 <= i < j < |names| ==> names[i] != names[j]
  }

  lemma AscendingIsDistinct(names: seq<Text>)
    requires Ascending(names)
    ensures Distinct(names)
  {
    forall i, j | 0 <= i < j < |names| ensures names[i] != names[j] { LessIrreflexive(names[i]); }
  }
}