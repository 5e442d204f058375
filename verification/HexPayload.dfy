/** Snort payloads: the hex decoder that stores them and the hex viewer that shows them. */
module HexPayload {
  import opened JavaText

  const LINE_WIDTH: nat := 32
  const LETTER_A: Unit := 'A' as int

  // ---- Hex digits

  predicate IsHexCode(u: Unit) {
    ZERO <= u < ZERO + 10 || LETTER_A <= u < LETTER_A + 6
  }

  predicate IsHex(t: Text) {
    forall k :: 0 <= k < |t| ==> IsHexCode(t[k])
  }

  /** The digit for a value below 16, as in the viewer's table. */
  function HexCode(value: nat): (code: Unit)
    requires value < 16
    ensures IsHexCode(code) && HexValue(code) == value
  {
    if value < 10 then ZERO + value else LETTER_A + value - 10
  }

  /** The digits are the characters of the table, by position. */
  lemma HexTable(value: nat)
    requires value < 16
    ensures HexCode(value) == "0123456789ABCDEF"[value] as int
  {
    var table := "0123456789ABCDEF";
    assert table[..8] == "01234567" && table[8..] == "89ABCDEF";
  }

  function HexValue(code: Unit): (value: nat)
    requires IsHexCode(code)
    ensures value < 16
  {
    if code < LETTER_A then code - ZERO else code - LETTER_A + 10
  }

  /** The unit whose two digits are given. */
  function Byte(high: Unit, low: Unit): (u: Unit)
    requires IsHexCode(high) && IsHexCode(low)
    ensures u < 256
  {
    16 * HexValue(high) + HexValue(low)
  }

  /** The two digits of a unit's low byte. */
  function Digits(u: Unit): (digits: Text)
    ensures |digits| == 2 && IsHexCode(digits[0]) && IsHexCode(digits[1])
    ensures SPACE !in digits
    ensures Byte(digits[0], digits[1]) == u % 256
  {
    [HexCode(u / 16 % 16), HexCode(u % 16)]
  }

  lemma DigitsOfByte(high: Unit, low: Unit)
    requires IsHexCode(high) && IsHexCode(low)
    ensures Digits(Byte(high, low)) == [high, low]
  {
    var h, l := HexValue(high), HexValue(low);
    assert (16 * h + l) / 16 == h && h % 16 == h && (16 * h + l) % 16 == l;
    assert HexCode(h) == high && HexCode(l) == low;
  }

  // ---- Decoding

  datatype Payload = Decoded(text: Text) | WrongLength(length: nat)

  function Decode(hex: Text): (text: Text)
    requires |hex| % 2 == 0 && IsHex(hex)
    ensures 2 * |text| == |hex|
  {
    if hex == [] then [] else [Byte(hex[0], hex[1])] + Decode(hex[2..])
  }

  /** The digits of each unit's low byte, one unit after the other. */
  function Encode(text: Text): (hex: Text)
    ensures |hex| == 2 * |text| && IsHex(hex)
  {
    if text == [] then [] else Digits(text[0]) + Encode(text[1..])
  }

  lemma EncodeCons(u: Unit, text: Text)
    ensures Encode([u] + text) == Digits(u) + Encode(text)
  {
    assert ([u] + text)[1..] == text;
  }

  lemma DecodeCons(high: Unit, low: Unit, hex: Text)
    requires IsHexCode(high) && IsHexCode(low) && |hex| % 2 == 0 && IsHex(hex)
    ensures IsHex([high, low] + hex)
    ensures Decode([high, low] + hex) == [Byte(high, low)] + Decode(hex)
  {
    assert ([high, low] + hex)[2..] == hex;
  }

  lemma FirstPair(hex: Text) returns (high: Unit, low: Unit, rest: Text)
    requires hex != [] && |hex| % 2 == 0 && IsHex(hex)
    ensures IsHexCode(high) && IsHexCode(low) && |rest| == |hex| - 2 && IsHex(rest)
    ensures hex == [high, low] + rest
  {
    high, low, rest := hex[0], hex[1], hex[2..];
  }

  lemma {:induction false} EncodeOfDecode(hex: Text)
    requires |hex| % 2 == 0 && IsHex(hex)
    ensures Encode(Decode(hex)) == hex
    decreases |hex|
  {
    if hex != [] {
      var high, low, rest := FirstPair(hex);
      EncodeOfDecode(rest);
      DecodeCons(high, low, rest);
      EncodeCons(Byte(high, low), Decode(rest));
      DigitsOfByte(high, low);
    }
  }

  function LowBytes(text: Text): (bytes: Text)
    ensures |bytes| == |text|
  {
    if text == [] then [] else [text[0] % 256] + LowBytes(text[1..])
  }

  lemma {:induction false} LowBytesOfBytes(text: Text)
    ensures LowBytes(text) == text <==> forall k :: 0 <= k < |text| ==> text[k] < 256
  {
    if text != [] {
      LowBytesOfBytes(text[1..]);
      assert LowBytes(text)[0] == text[0] % 256 && LowBytes(text)[1..] == LowBytes(text[1..]);
      assert text == [text[0]] + text[1..];
    }
  }

  /** Decoding brings back the low byte of every unit. */
  lemma {:induction false} DecodeOfEncode(text: Text)
    ensures Decode(Encode(text)) == LowBytes(text)
  {
    if text != [] {
      DecodeOfEncode(text[1..]);
      var digits := Digits(text[0]);
      DecodeCons(digits[0], digits[1], Encode(text[1..]));
      assert Encode(text) == [digits[0], digits[1]] + Encode(text[1..]);
    }
  }

  /** The decoder is handed a run of the digits 0-9 and A-F only: its one caller searches for it. */
  method DecodePayload(payloadInHex: Text) returns (payload: Payload)
    requires IsHex(payloadInHex)
    ensures payload == if |payloadInHex| % 2 != 0 then WrongLength(|payloadInHex|) else Decoded(Decode(payloadInHex))
  {
    if |payloadInHex| % 2 != 0 {
      return WrongLength(|payloadInHex|);
    }
    var buffer: Text := [];
    var i := 0;
    while i < |payloadInHex| - 1
      invariant 0 <= i <= |payloadInHex| && i % 2 == 0
      invariant Decode(payloadInHex) == buffer + Decode(payloadInHex[i..])
    {
      assert payloadInHex[i..][2..] == payloadInHex[i + 2..];
      buffer := buffer + [Byte(payloadInHex[i], payloadInHex[i + 1])];
      i := i + 2;
    }
    payload := Decoded(buffer);
  }

  // ---- The viewer

  datatype HexViewerLine = HexViewerLine(lineOffset: nat, lineInHex: Text)

  /** What precedes the i-th unit of a line: every eighth column is set apart. */
  function Gap(i: nat): Text {
    if i > 0 && i % 8 == 0 then [SPACE, SPACE] else []
  }

  function Shown(u: Unit): Text {
    Digits(u) + [SPACE]
  }

  function Cell(u: Unit, i: nat): (cell: Text)
    ensures |cell| == |Gap(i)| + 3
  {
    Gap(i) + Shown(u)
  }

  /** The hex column of a line from its i-th unit on. */
  function HexColumn(line: Text, i: nat): Text
    decreases |line| - i
  {
    if i >= |line| then []
    else Cell(line[i], i) + HexColumn(line, i + 1)
  }

  method FormatLineInHex(line: Text) returns (hex: Text)
    ensures hex == HexColumn(line, 0)
  {
    hex := [];
    for i := 0 to |line|
      invariant HexColumn(line, 0) == hex + HexColumn(line, i)
    {
      ghost var before := hex;
      if i > 0 && i < |line| && i % 8 == 0 {
        hex := hex + [SPACE, SPACE];
      }
      hex := hex + [HexCode(line[i] / 16 % 16)];
      hex := hex + [HexCode(line[i] % 16)];
      hex := hex + [SPACE];
      assert hex == before + Cell(line[i], i);
      Associative(before, Cell(line[i], i), HexColumn(line, i + 1));
    }
  }

  /** The lines from a given start on, each with its offset. */
  function ViewerLines(data: Text, start: nat): seq<HexViewerLine>
    decreases |data| - start
  {
    if start >= |data| then []
    else [HexViewerLine(start, HexColumn(LineAt(data, start), 0))] + ViewerLines(data, start + LINE_WIDTH)
  }

  function LineAt(data: Text, start: nat): (line: Text)
    requires start <= |data|
    ensures |line| <= LINE_WIDTH
  {
    data[start..if start + LINE_WIDTH < |data| then start + LINE_WIDTH else |data|]
  }

  method GetLines(data: Text) returns (lines: seq<HexViewerLine>)
    ensures lines == ViewerLines(data, 0)
  {
    lines := [];
    var lineStart, lineEnd := 0, LINE_WIDTH;
    while lineStart < |data|
      invariant 0 <= lineStart && lineEnd == lineStart + LINE_WIDTH
      invariant ViewerLines(data, 0) == lines + ViewerLines(data, lineStart)
      decreases |data| - lineStart
    {
      var line := data[lineStart..if lineEnd < |data| then lineEnd else |data|];
      var lineInHex := FormatLineInHex(line);
      lines := lines + [HexViewerLine(lineStart, lineInHex)];
      lineStart, lineEnd := lineStart + LINE_WIDTH, lineEnd + LINE_WIDTH;
    }
  }

  /** There is a line k exactly when the data reaches beyond unit 32 * k, and it shows the
      units from there on. */
  lemma {:induction false} LinesAreSlices(data: Text, start: nat, k: nat)
    ensures k < |ViewerLines(data, start)| <==> start + 32 * k < |data|
    ensures (k < |ViewerLines(data, start)| ==>
               ViewerLines(data, start)[k] == HexViewerLine(start + 32 * k, HexColumn(LineAt(data, start + 32 * k), 0)))
    decreases k
  {
    if k > 0 { LinesAreSlices(data, start + LINE_WIDTH, k - 1); }
  }

  // ---- Where a unit is shown

  /** Where the column's text for the units from i on begins. */
  function ColumnStart(i: nat): nat {
    if i == 0 then 0 else 3 * i + 2 * ((i - 1) / 8)
  }

  /** Where the digits of unit i are. */
  function UnitColumn(i: nat): nat {
    3 * i + 2 * (i / 8)
  }

  lemma CellWidth(i: nat)
    ensures ColumnStart(i + 1) == ColumnStart(i) + |Gap(i)| + 3
    ensures ColumnStart(i) + |Gap(i)| == UnitColumn(i)
  {
  }

  lemma {:induction false} ColumnsFrom(line: Text, from: nat, i: nat) returns (before: Text, after: Text)
    requires from <= i < |line|
    ensures HexColumn(line, from) == before + Shown(line[i]) + after
    ensures |before| == UnitColumn(i) - ColumnStart(from)
    decreases i - from
  {
    CellWidth(from);
    if from == i {
      before, after := Gap(i), HexColumn(line, i + 1);
    } else {
      var rest: Text;
      rest, after := ColumnsFrom(line, from + 1, i);
      before := Cell(line[from], from) + rest;
      Associative(Cell(line[from], from), rest, Shown(line[i]));
      Associative(Cell(line[from], from), rest + Shown(line[i]), after);
    }
  }

  lemma MiddleSlice(before: Text, middle: Text, after: Text)
    ensures (before + middle + after)[|before|..|before| + |middle|] == middle
  {
  }

  /** Unit i of a line is shown at position 3 * i + 2 * (i / 8) of the line's hex column. */
  lemma UnitIsShownAt(line: Text, i: nat)
    requires i < |line|
    ensures UnitColumn(i) + 3 <= |HexColumn(line, 0)|
    ensures HexColumn(line, 0)[UnitColumn(i)..UnitColumn(i) + 3] == Digits(line[i]) + [SPACE]
  {
    var before, after := ColumnsFrom(line, 0, i);
    MiddleSlice(before, Shown(line[i]), after);
  }

  // ---- Reading the viewer back

  function WithoutSpaces(t: Text): Text {
    if t == [] then [] else (if t[0] == SPACE then [] else [t[0]]) + WithoutSpaces(t[1..])
  }

  lemma WithoutSpacesCons(u: Unit, t: Text)
    ensures WithoutSpaces([u] + t) == (if u == SPACE then [] else [u]) + WithoutSpaces(t)
  {
    assert ([u] + t)[1..] == t;
  }

  lemma {:induction false} WithoutSpacesOfSum(a: Text, b: Text)
    ensures WithoutSpaces(a + b) == WithoutSpaces(a) + WithoutSpaces(b)
  {
    if a == [] {
      assert a + b == b;
    } else {
      WithoutSpacesOfSum(a[1..], b);
      assert a == [a[0]] + a[1..] && a + b == [a[0]] + (a[1..] + b);
      WithoutSpacesCons(a[0], a[1..] + b);
      WithoutSpacesCons(a[0], a[1..]);
      Associative(if a[0] == SPACE then [] else [a[0]], WithoutSpaces(a[1..]), WithoutSpaces(b));
    }
  }

  lemma {:induction false} EncodeOfSum(a: Text, b: Text)
    ensures Encode(a + b) == Encode(a) + Encode(b)
  {
    if a == [] {
      assert a + b == b;
    } else {
      EncodeOfSum(a[1..], b);
      assert a == [a[0]] + a[1..] && a + b == [a[0]] + (a[1..] + b);
      EncodeCons(a[0], a[1..] + b);
      EncodeCons(a[0], a[1..]);
      Associative(Digits(a[0]), Encode(a[1..]), Encode(b));
    }
  }

  function HexColumns(lines: seq<HexViewerLine>): Text {
    if lines == [] then [] else lines[0].lineInHex + HexColumns(lines[1..])
  }

  lemma {:induction false} NothingToRemove(t: Text)
    requires SPACE !in t
    ensures WithoutSpaces(t) == t
  {
    if t != [] { NothingToRemove(t[1..]); }
  }

  lemma CellWithoutSpaces(u: Unit, i: nat)
    ensures WithoutSpaces(Cell(u, i)) == Digits(u)
  {
    WithoutSpacesOfSum(Gap(i), Shown(u));
    WithoutSpacesOfSum(Digits(u), [SPACE]);
    NothingToRemove(Digits(u));
    assert [SPACE, SPACE][1..] == [SPACE] && [SPACE][1..] == [];
  }

  lemma {:induction false} ColumnWithoutSpaces(line: Text, i: nat)
    requires i <= |line|
    ensures WithoutSpaces(HexColumn(line, i)) == Encode(line[i..])
    decreases |line| - i
  {
    if i < |line| {
      ColumnWithoutSpaces(line, i + 1);
      CellWithoutSpaces(line[i], i);
      WithoutSpacesOfSum(Cell(line[i], i), HexColumn(line, i + 1));
      assert line[i..][1..] == line[i + 1..];
    }
  }

  lemma ColumnsCons(line: HexViewerLine, lines: seq<HexViewerLine>)
    ensures HexColumns([line] + lines) == line.lineInHex + HexColumns(lines)
  {
    assert ([line] + lines)[1..] == lines;
  }

  lemma LineAndRest(data: Text, start: nat) returns (rest: Text)
    requires start < |data|
    ensures data[start..] == LineAt(data, start) + rest
    ensures rest == (if start + LINE_WIDTH < |data| then data[start + LINE_WIDTH..] else [])
  {
    rest := if start + LINE_WIDTH < |data| then data[start + LINE_WIDTH..] else [];
  }

  lemma {:induction false} ViewerWithoutSpaces(data: Text, start: nat)
    ensures (WithoutSpaces(HexColumns(ViewerLines(data, start)))
             == Encode(if start < |data| then data[start..] else []))
    decreases |data| - start
  {
    if start < |data| {
      var line := LineAt(data, start);
      ViewerWithoutSpaces(data, start + LINE_WIDTH);
      var rest := LineAndRest(data, start);
      EncodeOfSum(line, rest);
      ColumnWithoutSpaces(line, 0);
      assert line[0..] == line;
      var lines := ViewerLines(data, start + LINE_WIDTH);
      ColumnsCons(HexViewerLine(start, HexColumn(line, 0)), lines);
      WithoutSpacesOfSum(HexColumn(line, 0), HexColumns(lines));
    }
  }

  /** What a reader copies from the viewer: all hex columns, spaces removed. */
  function ReadBack(data: Text): Text {
    WithoutSpaces(HexColumns(ViewerLines(data, 0)))
  }

  /** A payload in hex is what the viewer shows of its decoded text. */
  lemma HexRoundTrip(hex: Text)
    requires |hex| % 2 == 0 && IsHex(hex)
    ensures ReadBack(Decode(hex)) == hex
  {
    var data := Decode(hex);
    ViewerWithoutSpaces(data, 0);
    assert data[0..] == data;
    EncodeOfDecode(hex);
  }

  /** The viewer shows the low bytes of any text, so the text can be read back from it exactly
      when all its units are bytes. */
  lemma TextRoundTrip(data: Text)
    ensures |ReadBack(data)| % 2 == 0 && IsHex(ReadBack(data))
    ensures Decode(ReadBack(data)) == data <==> forall k :: 0 <= k < |data| ==> data[k] < 256
  {
    ViewerWithoutSpaces(data, 0);
    assert data[0..] == data;
    DecodeOfEncode(data);
    LowBytesOfBytes(data);
  }
}
