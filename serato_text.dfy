/** The text helpers of the Serato decoders (src/serato/mod.rs; the older
    src/serato.rs has the same `format_as_byte_string` and `hexdump`). */
module SeratoText {
  import opened Strings
  import opened Bytes

  /** `format_position_timestamp` as written: "MM:SS.T" with minutes
      ms / 60000, seconds (ms mod 60000) / 1000 and the tenths
      round((ms mod 1000) / 100), half away from zero, which for whole
      milliseconds is (ms mod 1000 + 50) / 100. */
  function FormatPositionTimestamp(ms: nat): seq<char> {
    var minutes := ms / 60000;
    var seconds := (ms % 60000) / 1000;
    var tenths := (ms % 1000 + 50) / 100;
    ZeroPadded(minutes, 10, 2) + ":" + ZeroPadded(seconds, 10, 2) + "." + ToBase(tenths, 10)
  }

  /** Two-digit fields: numbers below 100 pad to exactly two digits. */
  lemma TwoDigits(n: nat)
    requires n < 100
    ensures |ZeroPadded(n, 10, 2)| == 2
  {
    ToBaseLength(n, 10, 2, 100);
  }

  /** The fields of the as-written timestamp: the minutes, a colon, two
      digits of seconds below 60, a dot, and a tenths field that reaches 10
      exactly when the milliseconds within the second are 950 or more. */
  lemma TimestampFields(ms: nat)
    ensures var s := FormatPositionTimestamp(ms);
            var k := |ZeroPadded(ms / 60000, 10, 2)|;
            k + 4 < |s| && s[k] == ':' && s[k + 3] == '.'
            && ValueIn(s[..k], 10) == ms / 60000
            && ValueIn(s[k + 1..k + 3], 10) == (ms % 60000) / 1000 < 60
            && ValueIn(s[k + 4..], 10) == (ms % 1000 + 50) / 100 <= 10
            && ((ms % 1000 + 50) / 100 == 10 <==> ms % 1000 >= 950)
  {
    var m := ZeroPadded(ms / 60000, 10, 2);
    var sec := ZeroPadded((ms % 60000) / 1000, 10, 2);
    var t := ToBase((ms % 1000 + 50) / 100, 10);
    TwoDigits((ms % 60000) / 1000);
    ZeroPaddedValue(ms / 60000, 10, 2);
    ZeroPaddedValue((ms % 60000) / 1000, 10, 2);
    ToBaseValue((ms % 1000 + 50) / 100, 10);
    var s := FormatPositionTimestamp(ms);
    var k := |m|;
    assert s == m + ":" + sec + "." + t;
    assert s[..k] == m && s[k + 1..k + 3] == sec && s[k + 4..] == t;
  }

  /** At 999 ms the as-written timestamp shows ten tenths: "00:00.10". */
  lemma TimestampShowsTenTenths()
    ensures FormatPositionTimestamp(999) == "00:00.10"
  {
    assert ToBase(0, 10) == "0";
    assert ZeroPadded(0, 10, 2) == "00";
    assert ToBase(1, 10) == "1";
    assert ToBase(10, 10) == "10";
  }

  /** The evidently intended timestamp: the position rounded to the nearest
      tenth of a second first, then split into minutes, seconds and one
      tenths digit. */
  function PositionTimestamp(ms: nat): seq<char> {
    var t := (ms + 50) / 100;
    ZeroPadded(t / 600, 10, 2) + ":" + ZeroPadded((t % 600) / 10, 10, 2) + "." + [DigitChar(t % 10)]
  }

  /** The intended timestamp has one tenths digit, seconds below 60, and
      denotes the position to within half a tenth. */
  lemma PositionTimestampRounds(ms: nat)
    ensures var s := PositionTimestamp(ms);
            var k := |ZeroPadded((ms + 50) / 100 / 600, 10, 2)|;
            k + 5 == |s| && s[k] == ':' && s[k + 3] == '.'
            && ValueIn(s[k + 1..k + 3], 10) < 60 && 0 <= DigitValue(s[k + 4]) < 10
            && var total := (ValueIn(s[..k], 10) * 600 + ValueIn(s[k + 1..k + 3], 10) * 10 + DigitValue(s[k + 4])) * 100;
               ms - 50 < total <= ms + 50
  {
    var t := (ms + 50) / 100;
    var m := ZeroPadded(t / 600, 10, 2);
    var sec := ZeroPadded((t % 600) / 10, 10, 2);
    TwoDigits((t % 600) / 10);
    ZeroPaddedValue(t / 600, 10, 2);
    ZeroPaddedValue((t % 600) / 10, 10, 2);
    DigitCharValue(t % 10);
    var s := PositionTimestamp(ms);
    var k := |m|;
    assert s == m + ":" + sec + "." + [DigitChar(t % 10)];
    assert s[..k] == m && s[k + 1..k + 3] == sec && s[k + 4] == DigitChar(t % 10);
    var a, b, c := t / 600, (t % 600) / 10, (t % 600) % 10;
    assert t % 10 == c by {
      DivModOf(t, 10, 60 * a + b, c);
    }
    assert a * 600 + b * 10 + c == t;
  }

  /** At 999 ms the intended timestamp carries into the seconds. */
  lemma PositionTimestampCarries()
    ensures PositionTimestamp(999) == "00:01.0"
  {
    assert ToBase(0, 10) == "0";
    assert ToBase(1, 10) == "1";
    assert ZeroPadded(0, 10, 2) == "00";
    assert ZeroPadded(1, 10, 2) == "01";
  }

  /** Below 950 ms into a second both timestamps agree. */
  lemma TimestampsAgreeBelow950(ms: nat)
    requires ms % 1000 < 950
    ensures PositionTimestamp(ms) == FormatPositionTimestamp(ms)
  {
    var q, r := ms / 1000, ms % 1000;
    var d, e := (r + 50) / 100, (r + 50) % 100;
    var a, b := q / 60, q % 60;
    var t := (ms + 50) / 100;
    assert d < 10;
    assert t == 10 * q + d by {
      DivModOf(ms + 50, 100, 10 * q + d, e);
    }
    assert t / 600 == a && t % 600 == 10 * b + d by {
      DivModOf(t, 600, a, 10 * b + d);
    }
    assert (t % 600) / 10 == b by {
      DivModOf(10 * b + d, 10, b, d);
    }
    assert t % 10 == d by {
      DivModOf(t, 10, 60 * a + b, d);
    }
    assert ms / 60000 == a && ms % 60000 == 1000 * b + r by {
      DivModOf(ms, 60000, a, 1000 * b + r);
    }
    assert (ms % 60000) / 1000 == b by {
      DivModOf(1000 * b + r, 1000, b, r);
    }
    assert ToBase(d, 10) == [DigitChar(d)];
    var both := ZeroPadded(a, 10, 2) + ":" + ZeroPadded(b, 10, 2) + "." + [DigitChar(d)];
    assert PositionTimestamp(ms) == both;
    assert FormatPositionTimestamp(ms) == both;
  }

  /** Each byte as two lower-case hex digits. */
  function HexWords(data: seq<byte>): (w: seq<seq<char>>)
    ensures |w| == |data| && forall i :: 0 <= i < |data| ==> w[i] == Hex2(data[i])
  {
    seq(|data|, i requires 0 <= i < |data| => Hex2(data[i]))
  }

  /** `format_as_byte_string`: the hex words joined by single spaces. */
  function FormatAsByteString(data: seq<byte>): seq<char> {
    Join(HexWords(data), " ")
  }

  /** The byte string has length 3n - 1; byte `i` is written at 3i and reads
      back as itself, and a space follows every byte but the last. */
  lemma ByteStringLayout(data: seq<byte>)
    ensures data == [] ==> FormatAsByteString(data) == []
    ensures data != [] ==> |FormatAsByteString(data)| == 3 * |data| - 1
    ensures forall i :: 0 <= i < |data| ==> FormatAsByteString(data)[3 * i..3 * i + 2] == Hex2(data[i])
                                            && ValueIn(FormatAsByteString(data)[3 * i..3 * i + 2], 16) == data[i] as int
    ensures forall i :: 0 <= i < |data| - 1 ==> FormatAsByteString(data)[3 * i + 2] == ' '
  {
    ByteStringCells(data);
    forall i | 0 <= i < |data|
      ensures ValueIn(Hex2(data[i]), 16) == data[i] as int
    {
      Hex2Value(data[i]);
    }
  }

  /** The layout of the byte string, cell by cell. */
  lemma {:induction false} ByteStringCells(data: seq<byte>)
    ensures data == [] ==> FormatAsByteString(data) == []
    ensures data != [] ==> |FormatAsByteString(data)| == 3 * |data| - 1
    ensures forall i :: 0 <= i < |data| ==> FormatAsByteString(data)[3 * i..3 * i + 2] == Hex2(data[i])
    ensures forall i :: 0 <= i < |data| - 1 ==> FormatAsByteString(data)[3 * i + 2] == ' '
  {
    if |data| == 1 {
      assert FormatAsByteString(data) == Hex2(data[0]);
    } else if |data| > 1 {
      var rest := data[1..];
      ByteStringCells(rest);
      assert HexWords(data)[1..] == HexWords(rest);
      var s := FormatAsByteString(data);
      var r := FormatAsByteString(rest);
      var h := Hex2(data[0]) + " ";
      assert s == h + r;
      forall i | 1 <= i < |data|
        ensures s[3 * i..3 * i + 2] == Hex2(data[i])
      {
        SliceRight(h, r, 3 * i, 3 * i + 2);
        assert rest[i - 1] == data[i];
      }
      forall i | 1 <= i < |data| - 1
        ensures s[3 * i + 2] == ' '
      {
        assert s[3 * i + 2] == r[3 * (i - 1) + 2];
      }
      assert s[..2] == Hex2(data[0]);
    }
  }

  /** Each byte of a hexdump line as "xx ". */
  function HexCells(line: seq<byte>): (s: seq<char>)
    ensures |s| == 3 * |line|
  {
    if line == [] then [] else HexCells(line[..|line| - 1]) + Hex2(line[|line| - 1]) + " "
  }

  /** `k` empty cells. */
  function Blanks(k: nat): (s: seq<char>)
    ensures |s| == 3 * k && forall i :: 0 <= i < |s| ==> s[i] == ' '
  {
    if k == 0 then [] else Blanks(k - 1) + "   "
  }

  /** `is_ascii_graphic() || byte == b' '`. */
  predicate Printable(b: byte) {
    0x20 <= b <= 0x7e
  }

  /** The ASCII column: printable bytes as themselves, others as ".". */
  function AsciiColumn(line: seq<byte>): (s: seq<char>)
    ensures |s| == |line|
    ensures forall i :: 0 <= i < |line| ==> s[i] == if Printable(line[i]) then line[i] as char else '.'
  {
    if line == [] then []
    else
      var last := line[|line| - 1];
      AsciiColumn(line[..|line| - 1]) + [if Printable(last) then last as char else '.']
  }

  /** One hexdump line: indent, eight-digit offset, the hex cells padded to
      sixteen, the optional ASCII column, and a newline. */
  function HexdumpLine(line: seq<byte>, offset: nat, ascii: bool): seq<char> {
    LineHead(offset) + HexCells(line) + Padding(line) + AsciiPart(line, ascii) + "\n"
  }

  /** Indent, eight-digit hex offset, two spaces. */
  function LineHead(offset: nat): seq<char> {
    "    " + ZeroPadded(offset, 16, 8) + "  "
  }

  /** Blank cells up to sixteen. */
  function Padding(line: seq<byte>): seq<char> {
    if |line| < 16 then Blanks(16 - |line|) else []
  }

  /** The ASCII column between bars, when asked for. */
  function AsciiPart(line: seq<byte>, ascii: bool): seq<char> {
    if ascii then " |" + AsciiColumn(line) + "|" else []
  }

  /** The number of lines: one per started group of sixteen bytes. */
  function LineCount(n: nat): nat {
    (n + 15) / 16
  }

  /** The bytes of line `k`. */
  function LineBytes(buffer: seq<byte>, k: nat): (line: seq<byte>)
    requires 16 * k < |buffer|
    ensures 1 <= |line| <= 16
  {
    buffer[16 * k..if |buffer| < 16 * k + 16 then |buffer| else 16 * k + 16]
  }

  /** A line that starts inside the buffer is counted, and it is the last
      one when the buffer ends within it. */
  lemma LineCountNext(n: nat, k: nat)
    requires 16 * k < n
    ensures k + 1 <= LineCount(n)
    ensures 16 * (k + 1) >= n ==> k + 1 == LineCount(n)
  {
    DivModOf(n + 15, 16, LineCount(n), (n + 15) % 16);
  }

  /** Line `k` of the count starts inside the buffer. */
  lemma LineStartInBuffer(n: nat, k: nat)
    requires k < LineCount(n)
    ensures 16 * k < n
  {
    var q := (n + 15) / 16;
    assert 16 * q <= n + 15;
    assert 16 * k + 16 <= 16 * q;
  }

  /** The lines of a hexdump, one per started group of sixteen bytes. */
  function HexdumpLineList(buffer: seq<byte>, ascii: bool): (lines: seq<seq<char>>)
    ensures |lines| == LineCount(|buffer|)
  {
    seq(LineCount(|buffer|), k requires 0 <= k < LineCount(|buffer|) =>
      LineStartInBuffer(|buffer|, k);
      HexdumpLine(LineBytes(buffer, k), 16 * k, ascii))
  }

  /** The lines written one after the other. */
  function Flatten(lines: seq<seq<char>>): seq<char> {
    if lines == [] then [] else Flatten(lines[..|lines| - 1]) + lines[|lines| - 1]
  }

  /** `hexdump`: the loop over sixteen-byte lines, appending to the
      result. */
  method Hexdump(buffer: seq<byte>, ascii: bool) returns (result: seq<char>)
    ensures result == Flatten(HexdumpLineList(buffer, ascii))
  {
    ghost var lines := HexdumpLineList(buffer, ascii);
    var offset := 0;
    ghost var k := 0;
    result := [];
    while offset < |buffer|
      invariant offset == 16 * k && k <= |lines|
      invariant offset >= |buffer| ==> k == |lines|
      invariant result == Flatten(lines[..k])
      decreases |buffer| - offset
    {
      var end := if |buffer| < offset + 16 then |buffer| else offset + 16;
      var line := buffer[offset..end];
      HexdumpStep(buffer, ascii, k, end);
      result := AppendLine(result, line, offset, ascii);
      offset := offset + 16;
      k := k + 1;
    }
    assert lines[..k] == lines;
  }

  /** Line `k` of the loop is the next line of the list, and the loop ends
      after the last one. */
  lemma HexdumpStep(buffer: seq<byte>, ascii: bool, k: nat, end: nat)
    requires 16 * k < |buffer| && end == if |buffer| < 16 * k + 16 then |buffer| else 16 * k + 16
    ensures k + 1 <= LineCount(|buffer|)
    ensures 16 * (k + 1) >= |buffer| ==> k + 1 == LineCount(|buffer|)
    ensures Flatten(HexdumpLineList(buffer, ascii)[..k + 1])
            == Flatten(HexdumpLineList(buffer, ascii)[..k]) + HexdumpLine(buffer[16 * k..end], 16 * k, ascii)
  {
    var lines := HexdumpLineList(buffer, ascii);
    LineCountNext(|buffer|, k);
    assert buffer[16 * k..end] == LineBytes(buffer, k);
    assert lines[..k + 1][..k] == lines[..k];
  }

  /** The body of the `hexdump` loop: one line appended to `result`. */
  method AppendLine(result: seq<char>, line: seq<byte>, offset: nat, ascii: bool) returns (r: seq<char>)
    ensures r == result + HexdumpLine(line, offset, ascii)
  {
    var withCells := AppendCells(result + LineHead(offset), line);
    var padded := withCells;
    if |line| < 16 {
      padded := AppendBlanks(withCells, 16 - |line|);
    }
    assert padded == withCells + Padding(line);
    var withAscii := padded;
    if ascii {
      withAscii := AppendAscii(padded, line);
    }
    assert withAscii == padded + AsciiPart(line, ascii);
    r := withAscii + "\n";
    LineParts(result, LineHead(offset), HexCells(line), Padding(line), AsciiPart(line, ascii));
  }

  lemma LineParts(x: seq<char>, h: seq<char>, c: seq<char>, p: seq<char>, a: seq<char>)
    ensures x + h + c + p + a + "\n" == x + (h + c + p + a + "\n")
  {
  }

  /** The hex cells of a line. */
  method AppendCells(result: seq<char>, line: seq<byte>) returns (r: seq<char>)
    ensures r == result + HexCells(line)
  {
    r := result;
    for j := 0 to |line|
      invariant r == result + HexCells(line[..j])
    {
      HexCellsSnoc(line, j);
      ConcatAssoc(result, HexCells(line[..j]), Hex2(line[j]));
      ConcatAssoc(result, HexCells(line[..j]) + Hex2(line[j]), " ");
      r := r + Hex2(line[j]) + " ";
    }
    assert line[..|line|] == line;
  }

  /** `k` blank cells. */
  method AppendBlanks(result: seq<char>, k: nat) returns (r: seq<char>)
    ensures r == result + Blanks(k)
  {
    r := result;
    for j := 0 to k
      invariant r == result + Blanks(j)
    {
      ConcatAssoc(result, Blanks(j), "   ");
      r := r + "   ";
    }
  }

  /** One more byte of a line adds one cell. */
  lemma HexCellsSnoc(line: seq<byte>, j: nat)
    requires j < |line|
    ensures HexCells(line[..j + 1]) == HexCells(line[..j]) + Hex2(line[j]) + " "
  {
    assert line[..j + 1][..j] == line[..j];
  }

  /** One more byte of a line adds one column character. */
  lemma AsciiColumnSnoc(line: seq<byte>, j: nat)
    requires j < |line|
    ensures AsciiColumn(line[..j + 1]) == AsciiColumn(line[..j]) + [if Printable(line[j]) then line[j] as char else '.']
  {
    assert line[..j + 1][..j] == line[..j];
  }

  /** The ASCII column between bars. */
  method AppendAscii(result: seq<char>, line: seq<byte>) returns (r: seq<char>)
    ensures r == result + AsciiPart(line, true)
  {
    r := result + " |";
    ghost var bar := r;
    for j := 0 to |line|
      invariant r == bar + AsciiColumn(line[..j])
    {
      AsciiColumnSnoc(line, j);
      if Printable(line[j]) {
        ConcatAssoc(bar, AsciiColumn(line[..j]), [line[j] as char]);
        r := r + [line[j] as char];
      } else {
        ConcatAssoc(bar, AsciiColumn(line[..j]), ['.']);
        r := r + ['.'];
      }
    }
    assert line[..|line|] == line;
    ConcatAssoc(result, " |", AsciiColumn(line));
    ConcatAssoc(result, " |" + AsciiColumn(line), "|");
    r := r + "|";
  }

  /** Every character of a zero-padded number is a digit. */
  lemma ZeroPaddedDigits(n: nat, base: nat, width: nat)
    requires 2 <= base <= 16
    ensures forall i :: 0 <= i < |ZeroPadded(n, base, width)| ==> IsDigitIn(ZeroPadded(n, base, width)[i], base)
  {
    ToBaseDigits(n, base);
  }

  /** A hexdump line holds exactly one newline, at its end. */
  lemma LineNewlines(line: seq<byte>, offset: nat, ascii: bool)
    ensures Count(HexdumpLine(line, offset, ascii), '\n') == 1
  {
    var head, cells, pad, col := LineHead(offset), HexCells(line), Padding(line), AsciiPart(line, ascii);
    assert '\n' !in head by {
      ZeroPaddedDigits(offset, 16, 8);
    }
    CellsHaveNoNewline(line);
    assert '\n' !in pad;
    assert '\n' !in col by {
      if ascii {
        assert col == " |" + AsciiColumn(line) + "|";
      }
    }
    var body := head + cells + pad + col;
    assert '\n' !in body;
    CountAbsent(body, '\n');
    CountAppend(body, "\n", '\n');
    assert HexdumpLine(line, offset, ascii) == body + "\n";
  }

  /** Hex cells are digits and spaces. */
  lemma {:induction false} CellsHaveNoNewline(line: seq<byte>)
    ensures '\n' !in HexCells(line)
  {
    if line != [] {
      CellsHaveNoNewline(line[..|line| - 1]);
      var h := Hex2(line[|line| - 1]);
      Hex2Value(line[|line| - 1]);
      assert IsDigitIn(h[0], 16) && IsDigitIn(h[1], 16);
    }
  }

  /** A hexdump has one line per started group of sixteen bytes. */
  lemma HexdumpNewlines(buffer: seq<byte>, ascii: bool)
    ensures Count(Flatten(HexdumpLineList(buffer, ascii)), '\n') == LineCount(|buffer|)
  {
    var lines := HexdumpLineList(buffer, ascii);
    forall k | 0 <= k < |lines|
      ensures Count(lines[k], '\n') == 1
    {
      LineStartInBuffer(|buffer|, k);
      LineNewlines(LineBytes(buffer, k), 16 * k, ascii);
    }
    FlattenCount(lines, '\n');
  }

  /** Lines of one newline each flatten to as many newlines as lines. */
  lemma {:induction false} FlattenCount(lines: seq<seq<char>>, c: char)
    requires forall k :: 0 <= k < |lines| ==> Count(lines[k], c) == 1
    ensures Count(Flatten(lines), c) == |lines|
  {
    if lines != [] {
      FlattenCount(lines[..|lines| - 1], c);
      CountAppend(Flatten(lines[..|lines| - 1]), lines[|lines| - 1], c);
    }
  }

  /** Without the ASCII column every line is 63 characters wide, the short
      last one included, as long as offsets fit in eight hex digits. */
  lemma LineWidth(line: seq<byte>, offset: nat)
    requires |line| <= 16 && offset < 0x1_0000_0000
    ensures |HexdumpLine(line, offset, false)| == 63
  {
    HexOffsetWidth(offset);
  }

  /** Without the ASCII column a hexdump is 63 characters per line. */
  lemma HexdumpWidth(buffer: seq<byte>)
    requires |buffer| <= 0x1_0000_0000
    ensures |Flatten(HexdumpLineList(buffer, false))| == 63 * LineCount(|buffer|)
  {
    var lines := HexdumpLineList(buffer, false);
    forall k | 0 <= k < |lines|
      ensures |lines[k]| == 63
    {
      LineStartInBuffer(|buffer|, k);
      LineWidth(LineBytes(buffer, k), 16 * k);
    }
    FlattenLength(lines, 63);
  }

  /** Lines of equal width flatten to that width per line. */
  lemma {:induction false} FlattenLength(lines: seq<seq<char>>, w: nat)
    requires forall k :: 0 <= k < |lines| ==> |lines[k]| == w
    ensures |Flatten(lines)| == w * |lines|
  {
    if lines != [] {
      FlattenLength(lines[..|lines| - 1], w);
      assert w * |lines| == w * (|lines| - 1) + w;
    }
  }
}
