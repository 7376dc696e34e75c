/** The Serato Markers2 decoder: `Markers::parse` and the entry loaders of
    src/serato/markers.rs, and the older copy `parse_markers` in
    src/serato.rs. The frame data holds two header bytes, base64 text up
    to a NUL, and the decoded payload holds a version and a list of named
    entries. Base64 and UTF-8 decoding are parameters. */
module SeratoMarkers {
  import opened Strings
  import opened Bytes
  import opened SeratoText

  /** `str::from_utf8`: the text, or the decoder's error message. */
  type Utf8 = seq<byte> -> Result<seq<char>>

  /** `general_purpose::STANDARD.decode`: the bytes, or nothing when the
      text is not valid base64. */
  type Base64 = seq<byte> -> Option<seq<byte>>

  /** The message of the `io::Error` that `read_u8`, `read_u32` and
      `read_exact` report when the cursor runs out of data. */
  const UnexpectedEof: seq<char> := "failed to fill whole buffer"

  datatype Color = Color(r: byte, g: byte, b: byte)
  datatype BpmLock = BpmLock(enabled: bool)
  datatype Cue = Cue(index: byte, position: nat, color: Color, name: seq<char>)
  datatype Loop = Loop(index: byte, startPosition: nat, endPosition: nat, color: Color, locked: bool, name: seq<char>)

  /** `Markers`: one decoded entry. */
  datatype Marker =
    | BpmLockEntry(lock: BpmLock)
    | ColorEntry(color: Color)
    | CueEntry(cue: Cue)
    | LoopEntry(saved: Loop)

  /** The outcome of code that can panic. */
  datatype Run<T> = Panic | Done(result: T)

  // ---------------------------------------------------------------------
  // Reading NUL-terminated bytes

  /** The index of the first NUL at or after `from`, or the length. */
  function FirstNul(d: seq<byte>, from: nat): (k: nat)
    requires from <= |d|
    ensures from <= k <= |d| && (k < |d| ==> d[k] == 0)
    ensures forall i :: from <= i < k ==> d[i] != 0
    decreases |d| - from
  {
    if from == |d| || d[from] == 0 then from else FirstNul(d, from + 1)
  }

  /** Bytes without a NUL followed by a NUL: the first NUL is that one. */
  lemma FirstNulAfter(d: seq<byte>, from: nat, n: nat)
    requires from + n < |d| && d[from + n] == 0
    requires forall i :: from <= i < from + n ==> d[i] != 0
    ensures FirstNul(d, from) == from + n
  {
  }

  /** Where `read_bytes` leaves the cursor: after the NUL, or at the end. */
  function AfterNul(d: seq<byte>, from: nat): (next: nat)
    requires from <= |d|
    ensures from <= next <= |d|
  {
    var k := FirstNul(d, from);
    if k < |d| then k + 1 else k
  }

  /** `read_bytes` (src/serato/markers.rs:309-316, src/serato.rs:554-564):
      the bytes up to the next NUL or the end; the NUL is consumed and not
      returned. */
  method ReadBytes(d: seq<byte>, from: nat) returns (bytes: seq<byte>, next: nat)
    requires from <= |d|
    ensures bytes == d[from..FirstNul(d, from)] && next == AfterNul(d, from)
  {
    bytes := [];
    next := from;
    while next < |d| && d[next] != 0
      invariant from <= next <= |d| && bytes == d[from..next]
      invariant FirstNul(d, from) == FirstNul(d, next)
      decreases |d| - next
    {
      bytes := bytes + [d[next]];
      next := next + 1;
    }
    if next < |d| {
      next := next + 1;
    }
  }

  // ---------------------------------------------------------------------
  // The base64 text

  /** `Markers::parse` as written (src/serato/markers.rs:67-72, and
      src/serato.rs:506-511): the text runs from byte 2 to the first NUL of
      the whole data, so a NUL at byte 0 or 1 makes `data[2..end]` an
      inverted range, which panics. */
  function Base64SpanAsWritten(data: seq<byte>): Run<Result<seq<byte>>> {
    var k := FirstNul(data, 0);
    if k == |data| then Done(Err("No null terminator found"))
    else if k < 2 then Panic
    else Done(Ok(data[2..k]))
  }

  /** The data [0x01, 0x00, 0x41, 0x00] panics instead of returning an
      error or the text "A". */
  lemma SpanPanicsOnEarlyNul()
    ensures Base64SpanAsWritten([1, 0, 65, 0]) == Panic
  {
    assert FirstNul([1, 0, 65, 0], 1) == 1;
  }

  /** The span with the terminator searched after the two header bytes:
      the text is everything from byte 2 up to the first NUL there. */
  function Base64Span(data: seq<byte>): (r: Result<seq<byte>>)
    ensures r.Ok? <==> exists k :: 2 <= k < |data| && data[k] == 0
    ensures r.Err? ==> r.error == "No null terminator found"
    ensures r.Ok? ==> 2 + |r.value| < |data| && r.value == data[2..2 + |r.value|]
                      && data[2 + |r.value|] == 0 && 0 !in r.value
  {
    if |data| < 2 then Err("No null terminator found")
    else
      var k := FirstNul(data, 2);
      if k == |data| then Err("No null terminator found") else Ok(data[2..k])
  }

  /** Wherever the code as written does not panic it gives the same
      result as the corrected span, and it panics exactly when a NUL sits
      in one of the two header bytes. */
  lemma Base64SpanAgrees(data: seq<byte>)
    ensures Base64SpanAsWritten(data).Panic? <==> exists i :: 0 <= i < 2 && i < |data| && data[i] == 0
    ensures Base64SpanAsWritten(data).Done? ==> Base64SpanAsWritten(data).result == Base64Span(data)
  {
    var k := FirstNul(data, 0);
    if k >= 2 && k < |data| {
      FirstNulAfter(data, 2, k - 2);
    }
  }

  /** The line feeds (byte 10) removed (src/serato/markers.rs:75-76,
      src/serato.rs:514). */
  function RemoveNewlines(t: seq<byte>): (r: seq<byte>)
    ensures 10 !in r && |r| <= |t|
  {
    if t == [] then []
    else
      var rest := RemoveNewlines(t[1..]);
      if t[0] == 10 then rest else [t[0]] + rest
  }

  /** Removing line feeds works piece by piece. */
  lemma {:induction false} RemoveNewlinesAppend(a: seq<byte>, b: seq<byte>)
    ensures RemoveNewlines(a + b) == RemoveNewlines(a) + RemoveNewlines(b)
    decreases |a|
  {
    if a == [] {
      assert a + b == b;
    } else {
      assert (a + b)[0] == a[0] && (a + b)[1..] == a[1..] + b;
      RemoveNewlinesAppend(a[1..], b);
      assert [a[0]] + (RemoveNewlines(a[1..]) + RemoveNewlines(b)) == [a[0]] + RemoveNewlines(a[1..]) + RemoveNewlines(b);
    }
  }

  /** Text without line feeds is kept as it is. */
  lemma {:induction false} RemoveNewlinesKeeps(t: seq<byte>)
    requires 10 !in t
    ensures RemoveNewlines(t) == t
    decreases |t|
  {
    if t != [] {
      assert t[1..] == t[1..] && 10 !in t[1..];
      RemoveNewlinesKeeps(t[1..]);
    }
  }

  /** The padding appended for each remainder of the length modulo 4:
      "A==", "==", "=" or nothing (src/serato/markers.rs:78-83,
      src/serato.rs:517-522). */
  function Base64Padding(n: nat): seq<byte> {
    if n % 4 == 1 then [65, 61, 61]
    else if n % 4 == 2 then [61, 61]
    else if n % 4 == 3 then [61]
    else []
  }

  /** The padded text: a multiple of four long and starting with the text;
      the padding is '=' characters except for the 'A' that completes a
      single leftover character. */
  function Padded(t: seq<byte>): (r: seq<byte>)
    ensures |r| % 4 == 0 && |t| <= |r| < |t| + 4 && r[..|t|] == t
    ensures |t| % 4 == 0 ==> r == t
    ensures forall i :: |t| <= i < |r| ==> r[i] == 61 || (i == |t| && |t| % 4 == 1 && r[i] == 65)
  {
    t + Base64Padding(|t|)
  }

  // ---------------------------------------------------------------------
  // Entry loaders

  /** `Color::new`: red, green, blue. */
  function NewColor(b: seq<byte>): Color
    requires |b| == 3
  {
    Color(b[0], b[1], b[2])
  }

  /** `Color::new_argb`: the alpha byte is ignored. */
  function NewArgb(b: seq<byte>): Color
    requires |b| == 4
  {
    Color(b[1], b[2], b[3])
  }

  /** `Color::load` (src/serato/markers.rs:156-165, src/serato.rs:150-160):
      exactly four bytes, read as ARGB. */
  function LoadColor(data: seq<byte>): (r: Result<Color>)
    ensures r.Ok? <==> |data| == 4
    ensures r.Ok? ==> r.value == NewArgb(data)
    ensures r.Err? ==> r.error == "Invalid data length for Color"
  {
    if |data| != 4 then Err("Invalid data length for Color")
    else Ok(Color(data[1], data[2], data[3]))
  }

  /** Any alpha byte in front of a colour reads back as that colour. */
  lemma ColorRoundTrip(alpha: byte, c: Color)
    ensures LoadColor([alpha, c.r, c.g, c.b]) == Ok(c)
  {
  }

  /** `BpmLock::load` (src/serato/markers.rs:122-129, src/serato.rs:99-105):
      exactly one byte; any non-zero byte means locked. Only the message
      differs between the two copies. */
  function LoadBpmLock(data: seq<byte>, legacy: bool): (r: Result<BpmLock>)
    ensures r.Ok? <==> |data| == 1
    ensures r.Ok? ==> (r.value.enabled <==> data[0] != 0)
  {
    if |data| != 1 then
      Err(if legacy then "Invalid data length for BpmLockEntry" else "Invalid data length for BpmLock")
    else Ok(BpmLock(data[0] != 0))
  }

  lemma BpmLockRoundTrip(enabled: bool, legacy: bool)
    ensures LoadBpmLock([if enabled then 1 else 0], legacy) == Ok(BpmLock(enabled))
  {
  }

  predicate IsNul(c: char) { c == '\0' }

  /** A name field: the UTF-8 text with trailing NUL characters removed. */
  function NameField(bytes: seq<byte>, utf8: Utf8): (r: Result<seq<char>>)
    ensures r.Ok? <==> utf8(bytes).Ok?
    ensures r.Ok? ==> r.value == [] || r.value[|r.value| - 1] != '\0'
  {
    match utf8(bytes)
    case Err(e) => Err(e)
    case Ok(text) => Ok(TrimEndBy(text, IsNul))
  }

  /** A name followed by its NUL terminator reads back as the name. */
  lemma NameFieldTerminated(bytes: seq<byte>, name: seq<char>, utf8: Utf8)
    requires utf8(bytes) == Ok(name + ['\0']) && (name == [] || name[|name| - 1] != '\0')
    ensures NameField(bytes, utf8) == Ok(name)
  {
    var s := name + ['\0'];
    assert s[..|s| - 1] == name;
  }

  /** `Cue::load` (src/serato/markers.rs:179-207): at least 13 bytes; the
      index at 1, the position big-endian at 2..6, RGB at 7..10 and the
      name from 12, with trailing NULs and white space trimmed; an empty
      name is replaced by the timestamp of the position. */
  function LoadCue(data: seq<byte>, utf8: Utf8): (r: Result<Cue>)
    ensures |data| < 13 ==> r == Err("Invalid data length for CueEntry")
    ensures |data| >= 13 ==> (r.Ok? <==> utf8(data[12..]).Ok?)
    ensures r.Ok? ==> r.value.index == data[1] && r.value.position == U32At(data, 2)
                      && r.value.color == NewColor(data[7..10])
  {
    if |data| < 13 then Err("Invalid data length for CueEntry")
    else
      var position := U32At(data, 2);
      match NameField(data[12..], utf8)
      case Err(e) => Err(e)
      case Ok(text) =>
        var name := Trim(text);
        Ok(Cue(data[1], position, NewColor(data[7..10]), if name == [] then PositionTimestamp(position) else name))
  }

  /** A loaded cue always has a name. */
  lemma CueAlwaysNamed(data: seq<byte>, utf8: Utf8)
    requires LoadCue(data, utf8).Ok?
    ensures LoadCue(data, utf8).value.name != []
  {
    var position := U32At(data, 2);
    PositionTimestampRounds(position);
  }

  /** The documented cue layout: a zero byte, the index, the position, a
      zero byte, RGB, two zero bytes, the name and its NUL. */
  function CueBytes(c: Cue, nameBytes: seq<byte>): seq<byte>
    requires c.position < Pow256(4)
  {
    [0, c.index] + BigEndianBytes(c.position, 4) + [0, c.color.r, c.color.g, c.color.b, 0, 0] + nameBytes
  }

  /** A cue laid out as documented reads back, when its name is trimmed
      and not empty. */
  lemma CueRoundTrip(c: Cue, nameBytes: seq<byte>, utf8: Utf8)
    requires c.position < Pow256(4) && c.name != [] && IsTrimmedBy(c.name, IsSpace) && c.name[|c.name| - 1] != '\0'
    requires utf8(nameBytes + [0]) == Ok(c.name + ['\0'])
    ensures LoadCue(CueBytes(c, nameBytes + [0]), utf8) == Ok(c)
  {
    CueLayout(c, nameBytes + [0]);
    NameFieldTerminated(nameBytes + [0], c.name, utf8);
    TrimmedFixed(c.name, IsSpace);
  }

  lemma CueLayout(c: Cue, nameBytes: seq<byte>)
    requires c.position < Pow256(4)
    ensures var d := CueBytes(c, nameBytes);
            |d| == 12 + |nameBytes| && d[1] == c.index && d[7..10] == [c.color.r, c.color.g, c.color.b]
            && d[12..] == nameBytes && U32At(d, 2) == c.position
  {
    var d := CueBytes(c, nameBytes);
    var tail: seq<byte> := [0, c.color.r, c.color.g, c.color.b, 0, 0] + nameBytes;
    assert d == [0, c.index] + BigEndianBytes(c.position, 4) + tail;
    U32AtBytes([0, c.index], c.position, tail);
    assert d[6..] == tail;
  }

  /** A cue whose name is only NULs and white space shows its position. */
  lemma UnnamedCueShowsTimestamp(c: Cue, utf8: Utf8)
    requires c.position < Pow256(4)
    requires utf8([0]) == Ok(['\0'])
    ensures LoadCue(CueBytes(c, [0]), utf8) == Ok(c.(name := PositionTimestamp(c.position)))
  {
    CueLayout(c, [0]);
    assert [] + ['\0'] == ['\0'];
    NameFieldTerminated([0], [], utf8);
    assert Trim([]) == [];
  }

  /** `Cue::load` of src/serato.rs:188-211: the same fields, but the name
      keeps its white space and is not replaced when empty. */
  function LegacyLoadCue(data: seq<byte>, utf8: Utf8): (r: Result<Cue>)
    ensures |data| < 13 ==> r == Err("Invalid data length for CueEntry")
    ensures |data| >= 13 ==> (r.Ok? <==> utf8(data[12..]).Ok?)
    ensures r.Ok? ==> r.value.index == data[1] && r.value.position == U32At(data, 2)
                      && r.value.color == NewColor(data[7..10])
  {
    if |data| < 13 then Err("Invalid data length for CueEntry")
    else
      match NameField(data[12..], utf8)
      case Err(e) => Err(e)
      case Ok(name) => Ok(Cue(data[1], U32At(data, 2), NewColor(data[7..10]), name))
  }

  /** `Loop::load` (src/serato/markers.rs:223-250): fewer than 15 bytes is
      a length error and fewer than 20 runs out of data; the index at 1,
      start and end big-endian at 2..6 and 6..10, ARGB at 14..18, locked
      when byte 19 is exactly 1, and the name from 20 without trailing
      NULs. */
  function LoadLoop(data: seq<byte>, utf8: Utf8): (r: Result<Loop>)
    ensures |data| < 15 ==> r == Err("Invalid data length for Loop")
    ensures 15 <= |data| < 20 ==> r == Err(UnexpectedEof)
    ensures |data| >= 20 ==> (r.Ok? <==> utf8(data[20..]).Ok?)
    ensures r.Ok? ==> r.value.index == data[1] && r.value.startPosition == U32At(data, 2)
                      && r.value.endPosition == U32At(data, 6) && r.value.color == NewArgb(data[14..18])
                      && (r.value.locked <==> data[19] == 1)
  {
    if |data| < 15 then Err("Invalid data length for Loop")
    else if |data| < 20 then Err(UnexpectedEof)
    else
      match NameField(data[20..], utf8)
      case Err(e) => Err(e)
      case Ok(name) =>
        Ok(Loop(data[1], U32At(data, 2), U32At(data, 6), NewArgb(data[14..18]), data[19] == 1, name))
  }

  /** The documented loop layout: a zero byte, the index, start, end, four
      0xff bytes, ARGB at 0x0e, a zero byte, the locked flag at 0x13 and
      the name from 0x14. */
  function LoopBytes(l: Loop, nameBytes: seq<byte>): seq<byte>
    requires l.startPosition < Pow256(4) && l.endPosition < Pow256(4)
  {
    [0, l.index] + BigEndianBytes(l.startPosition, 4) + BigEndianBytes(l.endPosition, 4)
    + [255, 255, 255, 255, 0, l.color.r, l.color.g, l.color.b, 0, if l.locked then 1 else 0] + nameBytes
  }

  lemma LoopLayout(l: Loop, nameBytes: seq<byte>)
    requires l.startPosition < Pow256(4) && l.endPosition < Pow256(4)
    ensures var d := LoopBytes(l, nameBytes);
            |d| == 20 + |nameBytes| && d[1] == l.index && d[14..18] == [0, l.color.r, l.color.g, l.color.b]
            && d[19] == (if l.locked then 1 else 0) && d[20..] == nameBytes
            && U32At(d, 2) == l.startPosition && U32At(d, 6) == l.endPosition
  {
    var s, e := BigEndianBytes(l.startPosition, 4), BigEndianBytes(l.endPosition, 4);
    var tail: seq<byte> := [255, 255, 255, 255, 0, l.color.r, l.color.g, l.color.b, 0, if l.locked then 1 else 0] + nameBytes;
    var d := LoopBytes(l, nameBytes);
    assert d == [0, l.index] + s + (e + tail);
    U32AtBytes([0, l.index], l.startPosition, e + tail);
    assert d == [0, l.index] + s + e + tail;
    U32AtBytes([0, l.index] + s, l.endPosition, tail);
    assert d[10..] == tail;
  }

  /** A loop laid out as documented reads back. */
  lemma LoopRoundTrip(l: Loop, nameBytes: seq<byte>, utf8: Utf8)
    requires l.startPosition < Pow256(4) && l.endPosition < Pow256(4)
    requires l.name == [] || l.name[|l.name| - 1] != '\0'
    requires utf8(nameBytes + [0]) == Ok(l.name + ['\0'])
    ensures LoadLoop(LoopBytes(l, nameBytes + [0]), utf8) == Ok(l)
  {
    LoopLayout(l, nameBytes + [0]);
    NameFieldTerminated(nameBytes + [0], l.name, utf8);
  }

  /** `Loop::load` of src/serato.rs:256-284 as written: after the end
      position it skips two four-byte fields, so it takes the colour from
      18..22, the locked flag from byte 22 (any non-zero value) and the
      name from 23, and needs at least 23 bytes; its own offset table
      (src/serato.rs:230-240) puts the colour at 0x0e. */
  function LegacyLoadLoop(data: seq<byte>, utf8: Utf8): (r: Result<Loop>)
    ensures |data| < 15 ==> r == Err("Invalid data length for Loop")
    ensures 15 <= |data| < 23 ==> r == Err(UnexpectedEof)
    ensures r.Ok? ==> |data| >= 23 && r.value.color == NewArgb(data[18..22]) && (r.value.locked <==> data[22] != 0)
  {
    if |data| < 15 then Err("Invalid data length for Loop")
    else if |data| < 23 then Err(UnexpectedEof)
    else
      match NameField(data[23..], utf8)
      case Err(e) => Err(e)
      case Ok(name) =>
        Ok(Loop(data[1], U32At(data, 2), U32At(data, 6), NewArgb(data[18..22]), data[22] != 0, name))
  }

  /** Every loop laid out as documented with an empty name (21 bytes with
      its NUL) is rejected by the older loader, which the current loader
      reads back. */
  lemma LegacyLoopRejectsUnnamed(l: Loop, utf8: Utf8)
    requires l.startPosition < Pow256(4) && l.endPosition < Pow256(4) && l.name == []
    requires utf8([0]) == Ok(['\0'])
    ensures LegacyLoadLoop(LoopBytes(l, [0]), utf8) == Err(UnexpectedEof)
    ensures LoadLoop(LoopBytes(l, [0]), utf8) == Ok(l)
  {
    LoopLayout(l, [0]);
    assert [] + [0 as byte] == [0];
    assert [] + ['\0'] == ['\0'];
    LoopRoundTrip(l, [], utf8);
  }

  /** With a name, the older loader takes the colour from the bytes after
      the documented colour: the zero byte, the locked flag and the first
      two name bytes. */
  lemma LegacyLoopMisreadsColor(l: Loop, nameBytes: seq<byte>, utf8: Utf8)
    requires l.startPosition < Pow256(4) && l.endPosition < Pow256(4) && |nameBytes| >= 3
    requires LegacyLoadLoop(LoopBytes(l, nameBytes), utf8).Ok?
    ensures LegacyLoadLoop(LoopBytes(l, nameBytes), utf8).value.color
            == Color(if l.locked then 1 else 0, nameBytes[0], nameBytes[1])
  {
    LoopLayout(l, nameBytes);
    var d := LoopBytes(l, nameBytes);
    assert d[18..22] == [0, d[19], nameBytes[0], nameBytes[1]];
  }

  // ---------------------------------------------------------------------
  // Entries

  const EntryNames: seq<seq<char>> := ["BPMLOCK", "COLOR", "CUE", "LOOP"]

  /** `Markers::load` (src/serato/markers.rs:111-119, src/serato.rs:49-57):
      the loader is chosen by the untrimmed entry name; any other name is
      an error that quotes it. */
  function LoadEntry(name: seq<char>, data: seq<byte>, legacy: bool, utf8: Utf8): (r: Result<Marker>)
    ensures name !in EntryNames ==> r == Err("Unknown entry type: " + name)
    ensures r.Ok? ==> (r.value.BpmLockEntry? <==> name == "BPMLOCK") && (r.value.ColorEntry? <==> name == "COLOR")
                      && (r.value.CueEntry? <==> name == "CUE") && (r.value.LoopEntry? <==> name == "LOOP")
  {
    if name == "BPMLOCK" then
      match LoadBpmLock(data, legacy) case Err(e) => Err(e) case Ok(v) => Ok(BpmLockEntry(v))
    else if name == "COLOR" then
      match LoadColor(data) case Err(e) => Err(e) case Ok(v) => Ok(ColorEntry(v))
    else if name == "CUE" then
      match (if legacy then LegacyLoadCue(data, utf8) else LoadCue(data, utf8))
      case Err(e) => Err(e)
      case Ok(v) => Ok(CueEntry(v))
    else if name == "LOOP" then
      match (if legacy then LegacyLoadLoop(data, utf8) else LoadLoop(data, utf8))
      case Err(e) => Err(e)
      case Ok(v) => Ok(LoopEntry(v))
    else Err("Unknown entry type: " + name)
  }

  /** The loader of one entry, given its name and data. */
  type Loader = (seq<char>, seq<byte>) -> Result<Marker>

  /** `Markers::load` of the current (`legacy` false) or the older code. */
  function EntryLoader(legacy: bool, utf8: Utf8): Loader {
    (name, data) => LoadEntry(name, data, legacy, utf8)
  }

  /** An entry in front of the rest: the first error wins. */
  function Push(head: Result<Marker>, tail: Result<seq<Marker>>): Result<seq<Marker>> {
    match head
    case Err(e) => Err(e)
    case Ok(m) => match tail case Err(e) => Err(e) case Ok(ms) => Ok([m] + ms)
  }

  /** Entries already read in front of the rest. */
  function Prepend(done: seq<Marker>, rest: Result<seq<Marker>>): Result<seq<Marker>> {
    match rest case Err(e) => Err(e) case Ok(ms) => Ok(done + ms)
  }

  /** A name that is empty once trimmed: every character is white space
      (`BlankIsTrimmedAway`). */
  predicate Blank(name: seq<char>) {
    forall i :: 0 <= i < |name| ==> IsSpace(name[i])
  }

  /** Whether the loop stops at this entry name: the current code stops at
      an empty (trimmed) name only at the very end of the payload, the
      older one at any empty name. */
  predicate StopsAt(name: seq<char>, next: nat, size: nat, legacy: bool) {
    Blank(name) && (legacy || next == size)
  }

  /** The entries of the payload from `pos` on: a NUL-terminated name, a
      big-endian length, that many bytes of data, and again, until the
      loop stops. */
  function EntriesFrom(p: seq<byte>, pos: nat, legacy: bool, load: Loader, utf8: Utf8): Result<seq<Marker>>
    requires pos <= |p|
    decreases |p| - pos
  {
    var next := AfterNul(p, pos);
    match utf8(p[pos..FirstNul(p, pos)])
    case Err(e) => Err(e)
    case Ok(name) =>
      if StopsAt(name, next, |p|, legacy) then Ok([])
      else if next + 4 > |p| then Err(UnexpectedEof)
      else
        var size := U32At(p, next);
        if next + 4 + size > |p| then Err(UnexpectedEof)
        else Push(load(name, p[next + 4..next + 4 + size]), EntriesFrom(p, next + 4 + size, legacy, load, utf8))
  }

  /** The version error, with the pair printed as Rust's `{:?}` does. */
  function VersionError(a: byte, b: byte): seq<char> {
    "Invalid payload version: (" + ToBase(a as nat, 10) + ", " + ToBase(b as nat, 10) + ")"
  }

  /** The value of `Markers::parse` / `parse_markers`, with the span taken
      after the header bytes. */
  function ParsedMarkers(data: seq<byte>, legacy: bool, b64: Base64, utf8: Utf8): Result<seq<Marker>> {
    match Base64Span(data)
    case Err(e) => Err(e)
    case Ok(text) =>
      match b64(Padded(RemoveNewlines(text)))
      case None => Err("Failed to decode base64 data")
      case Some(payload) =>
        if |payload| < 2 then Err(UnexpectedEof)
        else if payload[0] != 1 || payload[1] != 1 then Err(VersionError(payload[0], payload[1]))
        else EntriesFrom(payload, 2, legacy, EntryLoader(legacy, utf8), utf8)
  }

  /** `Markers::parse` (src/serato/markers.rs:66-109) and `parse_markers`
      (src/serato.rs:505-552): the cursor advances over each entry and the
      decoded entries are pushed in order. */
  method ParseMarkers(data: seq<byte>, legacy: bool, b64: Base64, utf8: Utf8) returns (r: Result<seq<Marker>>)
    ensures r == ParsedMarkers(data, legacy, b64, utf8)
  {
    var span := Base64Span(data);
    if span.Err? {
      return Err(span.error);
    }
    var decoded := b64(Padded(RemoveNewlines(span.value)));
    if decoded.None? {
      return Err("Failed to decode base64 data");
    }
    var payload := decoded.value;
    if |payload| < 2 {
      return Err(UnexpectedEof);
    }
    if payload[0] != 1 || payload[1] != 1 {
      return Err(VersionError(payload[0], payload[1]));
    }
    r := ReadEntries(payload, legacy, EntryLoader(legacy, utf8), utf8);
  }

  /** The entry loop of `Markers::parse`, from just after the version. */
  method ReadEntries(payload: seq<byte>, legacy: bool, load: Loader, utf8: Utf8) returns (r: Result<seq<Marker>>)
    requires 2 <= |payload|
    ensures r == EntriesFrom(payload, 2, legacy, load, utf8)
  {
    var entries: seq<Marker> := [];
    var pos := 2;
    PrependEmpty(EntriesFrom(payload, 2, legacy, load, utf8));
    while true
      invariant pos <= |payload|
      invariant EntriesFrom(payload, 2, legacy, load, utf8) == Prepend(entries, EntriesFrom(payload, pos, legacy, load, utf8))
      decreases |payload| - pos
    {
      var nameBytes, next := ReadBytes(payload, pos);
      var name := utf8(nameBytes);
      if name.Err? {
        EntriesStops(payload, pos, legacy, load, utf8);
        return Err(name.error);
      }
      if StopsAt(name.value, next, |payload|, legacy) {
        EntriesStops(payload, pos, legacy, load, utf8);
        assert entries + [] == entries;
        return Ok(entries);
      }
      if next + 4 > |payload| {
        EntriesStops(payload, pos, legacy, load, utf8);
        return Err(UnexpectedEof);
      }
      var size := U32At(payload, next);
      if next + 4 + size > |payload| {
        EntriesStops(payload, pos, legacy, load, utf8);
        return Err(UnexpectedEof);
      }
      EntriesNext(payload, pos, nameBytes, next, name.value, size, legacy, load, utf8);
      var entry := load(name.value, payload[next + 4..next + 4 + size]);
      if entry.Err? {
        return Err(entry.error);
      }
      PrependPush(entries, entry.value, EntriesFrom(payload, next + 4 + size, legacy, load, utf8));
      entries := entries + [entry.value];
      pos := next + 4 + size;
    }
  }

  lemma PrependEmpty(rest: Result<seq<Marker>>)
    ensures Prepend([], rest) == rest
  {
    if rest.Ok? {
      assert [] + rest.value == rest.value;
    }
  }

  lemma PrependPush(done: seq<Marker>, m: Marker, rest: Result<seq<Marker>>)
    ensures Prepend(done, Push(Ok(m), rest)) == Prepend(done + [m], rest)
  {
    if rest.Ok? {
      assert done + ([m] + rest.value) == done + [m] + rest.value;
    }
  }

  /** The ways the entry loop ends at `pos`: the name is not UTF-8, the
      loop stops, or the length or the data run past the end. */
  lemma EntriesStops(p: seq<byte>, pos: nat, legacy: bool, load: Loader, utf8: Utf8)
    requires pos <= |p|
    ensures var name := utf8(p[pos..FirstNul(p, pos)]);
            var next := AfterNul(p, pos);
            var r := EntriesFrom(p, pos, legacy, load, utf8);
            (name.Err? ==> r == Err(name.error))
            && (name.Ok? && StopsAt(name.value, next, |p|, legacy) ==> r == Ok([]))
            && (name.Ok? && !StopsAt(name.value, next, |p|, legacy) && next + 4 > |p| ==> r == Err(UnexpectedEof))
            && (name.Ok? && !StopsAt(name.value, next, |p|, legacy) && next + 4 <= |p| && next + 4 + U32At(p, next) > |p|
                ==> r == Err(UnexpectedEof))
  {
  }

  /** One step of the entry loop in the terms `Markers::parse` reads it. */
  lemma EntriesNext(p: seq<byte>, pos: nat, nameBytes: seq<byte>, next: nat, name: seq<char>, size: nat,
                    legacy: bool, load: Loader, utf8: Utf8)
    requires pos <= |p| && nameBytes == p[pos..FirstNul(p, pos)] && next == AfterNul(p, pos)
    requires utf8(nameBytes) == Ok(name) && !StopsAt(name, next, |p|, legacy)
    requires next + 4 <= |p| && size == U32At(p, next) && next + 4 + size <= |p|
    ensures EntriesFrom(p, pos, legacy, load, utf8)
            == Push(load(name, p[next + 4..next + 4 + size]), EntriesFrom(p, next + 4 + size, legacy, load, utf8))
  {
    EntriesUnfold(p, pos, legacy, load, utf8);
  }

  /** One step of the entry loop, when the name is read, does not stop the
      loop and its data fits. */
  lemma EntriesUnfold(p: seq<byte>, pos: nat, legacy: bool, load: Loader, utf8: Utf8)
    requires pos <= |p| && utf8(p[pos..FirstNul(p, pos)]).Ok?
    requires !StopsAt(utf8(p[pos..FirstNul(p, pos)]).value, AfterNul(p, pos), |p|, legacy)
    requires AfterNul(p, pos) + 4 <= |p| && AfterNul(p, pos) + 4 + U32At(p, AfterNul(p, pos)) <= |p|
    ensures EntriesFrom(p, pos, legacy, load, utf8)
            == Push(load(utf8(p[pos..FirstNul(p, pos)]).value, p[AfterNul(p, pos) + 4..AfterNul(p, pos) + 4 + U32At(p, AfterNul(p, pos))]),
                    EntriesFrom(p, AfterNul(p, pos) + 4 + U32At(p, AfterNul(p, pos)), legacy, load, utf8))
  {
  }

  // ---------------------------------------------------------------------
  // Properties of the entry loop

  /** One entry as it is stored: the name, a NUL, the big-endian length
      and the data. */
  function EntryBytes(nameBytes: seq<byte>, body: seq<byte>): seq<byte>
    requires |body| < Pow256(4)
  {
    nameBytes + [0] + BigEndianBytes(|body|, 4) + body
  }

  /** A well-formed entry: a name without NUL that decodes to a non-blank
      text, and data whose length fits the length field. */
  predicate WellFormed(nameBytes: seq<byte>, body: seq<byte>, utf8: Utf8) {
    0 !in nameBytes && |body| < Pow256(4) && utf8(nameBytes).Ok? && !Blank(utf8(nameBytes).value)
  }

  /** Reading one stored entry: its loader's result in front of the
      entries that follow it. */
  lemma EntryStep(p: seq<byte>, pos: nat, end: nat, nameBytes: seq<byte>, body: seq<byte>, legacy: bool, load: Loader, utf8: Utf8)
    requires WellFormed(nameBytes, body, utf8)
    requires pos <= |p| && p[pos..FirstNul(p, pos)] == nameBytes && AfterNul(p, pos) + 4 <= |p|
    requires end == AfterNul(p, pos) + 4 + U32At(p, AfterNul(p, pos)) <= |p|
    requires p[AfterNul(p, pos) + 4..end] == body
    ensures EntriesFrom(p, pos, legacy, load, utf8) == Push(load(utf8(nameBytes).value, body), EntriesFrom(p, end, legacy, load, utf8))
  {
    var name := utf8(nameBytes).value;
    assert utf8(p[pos..FirstNul(p, pos)]) == Ok(name);
    assert !StopsAt(name, AfterNul(p, pos), |p|, legacy);
    EntriesUnfold(p, pos, legacy, load, utf8);
  }

  /** Where the parts of a stored entry sit. */
  lemma EntryLayout(pre: seq<byte>, nameBytes: seq<byte>, body: seq<byte>, rest: seq<byte>)
    requires 0 !in nameBytes && |body| < Pow256(4)
    ensures var p := pre + EntryBytes(nameBytes, body) + rest;
            var end := |pre| + |EntryBytes(nameBytes, body)|;
            var next := AfterNul(p, |pre|);
            p[|pre|..FirstNul(p, |pre|)] == nameBytes && next + 4 <= |p|
            && end == next + 4 + U32At(p, next) <= |p| && p[next + 4..end] == body
  {
    var p := pre + EntryBytes(nameBytes, body) + rest;
    var pos := |pre|;
    var n := |nameBytes|;
    var len := BigEndianBytes(|body|, 4);
    assert p == pre + nameBytes + [0] + len + (body + rest);
    assert p[pos..pos + n] == nameBytes;
    assert p[pos + n] == 0;
    forall i | pos <= i < pos + n ensures p[i] != 0 {
      assert p[i] == nameBytes[i - pos];
    }
    FirstNulAfter(p, pos, n);
    assert AfterNul(p, pos) == pos + n + 1;
    U32AtBytes(pre + nameBytes + [0], |body|, body + rest);
    var next := pos + n + 1;
    assert p[next + 4..next + 4 + |body|] == body;
  }

  /** The whole list of entries, stored one after the other. */
  function Serialize(es: seq<(seq<byte>, seq<byte>)>): seq<byte>
    requires forall i :: 0 <= i < |es| ==> |es[i].1| < Pow256(4)
  {
    if es == [] then [] else EntryBytes(es[0].0, es[0].1) + Serialize(es[1..])
  }

  /** The loaders' results for the list, the first error winning. */
  function LoadAll(es: seq<(seq<byte>, seq<byte>)>, load: Loader, utf8: Utf8): Result<seq<Marker>>
    requires forall i :: 0 <= i < |es| ==> WellFormed(es[i].0, es[i].1, utf8)
  {
    if es == [] then Ok([])
    else
      assert WellFormed(es[0].0, es[0].1, utf8);
      Push(load(utf8(es[0].0).value, es[0].1), LoadAll(es[1..], load, utf8))
  }

  /** At the end of the payload the empty name stops both loops. */
  lemma EntriesAtEnd(p: seq<byte>, legacy: bool, load: Loader, utf8: Utf8)
    requires utf8([]) == Ok([])
    ensures EntriesFrom(p, |p|, legacy, load, utf8) == Ok([])
  {
  }

  /** Round trip: stored well-formed entries are read back in order, each
      as its loader decodes it. */
  lemma {:induction false} EntriesRoundTrip(pre: seq<byte>, es: seq<(seq<byte>, seq<byte>)>, legacy: bool, load: Loader, utf8: Utf8)
    requires utf8([]) == Ok([])
    requires forall i :: 0 <= i < |es| ==> |es[i].1| < Pow256(4)
    requires forall i :: 0 <= i < |es| ==> WellFormed(es[i].0, es[i].1, utf8)
    ensures EntriesFrom(pre + Serialize(es), |pre|, legacy, load, utf8) == LoadAll(es, load, utf8)
    decreases |es|
  {
    if es == [] {
      assert pre + [] == pre;
      EntriesAtEnd(pre, legacy, load, utf8);
    } else {
      var e := EntryBytes(es[0].0, es[0].1);
      var tail := Serialize(es[1..]);
      assert pre + Serialize(es) == pre + e + tail;
      assert WellFormed(es[0].0, es[0].1, utf8);
      FirstEntryRoundTrip(pre, es[0].0, es[0].1, tail, legacy, load, utf8);
      EntriesRoundTrip(pre + e, es[1..], legacy, load, utf8);
    }
  }

  /** A stored entry is read back in front of what follows it. */
  lemma FirstEntryRoundTrip(pre: seq<byte>, nameBytes: seq<byte>, body: seq<byte>, tail: seq<byte>,
                            legacy: bool, load: Loader, utf8: Utf8)
    requires WellFormed(nameBytes, body, utf8)
    ensures var p := pre + EntryBytes(nameBytes, body) + tail;
            EntriesFrom(p, |pre|, legacy, load, utf8)
            == Push(load(utf8(nameBytes).value, body), EntriesFrom(p, |pre + EntryBytes(nameBytes, body)|, legacy, load, utf8))
  {
    var e := EntryBytes(nameBytes, body);
    EntryLayout(pre, nameBytes, body, tail);
    EntryStep(pre + e + tail, |pre|, |pre + e|, nameBytes, body, legacy, load, utf8);
  }

  /** The current loop does not stop at a blank name before the end: the
      entry is read and rejected as unknown, if the data does not run out
      first. */
  lemma BlankNameBeforeEndFails(p: seq<byte>, pos: nat, utf8: Utf8)
    requires pos <= |p| && AfterNul(p, pos) < |p|
    requires utf8(p[pos..FirstNul(p, pos)]).Ok? && Blank(utf8(p[pos..FirstNul(p, pos)]).value)
    ensures EntriesFrom(p, pos, false, EntryLoader(false, utf8), utf8).Err?
  {
    var name := utf8(p[pos..FirstNul(p, pos)]).value;
    var next := AfterNul(p, pos);
    var load := EntryLoader(false, utf8);
    EntriesStops(p, pos, false, load, utf8);
    assert !StopsAt(name, next, |p|, false);
    if next + 4 <= |p| && next + 4 + U32At(p, next) <= |p| {
      var body := p[next + 4..next + 4 + U32At(p, next)];
      BlankIsNoEntryName(name);
      assert load(name, body).Err?;
      EntriesUnfold(p, pos, false, load, utf8);
    }
  }

  /** A blank name is none of the four entry names, which start with a
      capital letter. */
  lemma BlankIsNoEntryName(name: seq<char>)
    requires Blank(name)
    ensures name !in EntryNames
  {
    assert name == [] || IsSpace(name[0]);
  }

  /** Being blank is being empty once trimmed. */
  lemma BlankIsTrimmedAway(s: seq<char>)
    ensures Blank(s) <==> Trim(s) == []
  {
    if Trim(s) == [] {
      TrimBlankAllSpace(s);
    }
    if Blank(s) {
      var e := TrimEndBy(s, IsSpace);
      assert |e| == 0 || (e[|e| - 1] == s[|e| - 1] && IsSpace(s[|e| - 1]));
    }
  }

  /** A text that trims to nothing is all white space. */
  lemma TrimBlankAllSpace(s: seq<char>)
    requires Trim(s) == []
    ensures forall i :: 0 <= i < |s| ==> IsSpace(s[i])
  {
    var e := TrimEndBy(s, IsSpace);
    forall i | 0 <= i < |s| ensures IsSpace(s[i]) {
      if i < |e| {
        assert s[i] == e[i];
      }
    }
  }

  /** The older loop stops at the first name that trims to nothing, empty
      or white space only, even with data after it. */
  lemma LegacyStopsAtBlankName(p: seq<byte>, pos: nat, load: Loader, utf8: Utf8, name: seq<char>)
    requires pos <= |p| && utf8(p[pos..FirstNul(p, pos)]) == Ok(name) && Trim(name) == []
    ensures EntriesFrom(p, pos, true, load, utf8) == Ok([])
  {
    BlankIsTrimmedAway(name);
  }

  /** Round trip through the whole decoder: two header bytes, base64 text
      that decodes to the version and the stored entries, and the NUL. */
  lemma ParseRoundTrip(h0: byte, h1: byte, text: seq<byte>, tail: seq<byte>, es: seq<(seq<byte>, seq<byte>)>,
                       legacy: bool, b64: Base64, utf8: Utf8)
    requires 0 !in text && 10 !in text && |text| % 4 == 0
    requires utf8([]) == Ok([])
    requires forall i :: 0 <= i < |es| ==> |es[i].1| < Pow256(4)
    requires forall i :: 0 <= i < |es| ==> WellFormed(es[i].0, es[i].1, utf8)
    requires b64(text) == Some([1, 1] + Serialize(es))
    ensures ParsedMarkers([h0, h1] + text + [0] + tail, legacy, b64, utf8) == LoadAll(es, EntryLoader(legacy, utf8), utf8)
  {
    SpanOfFrame(h0, h1, text, tail);
    RemoveNewlinesKeeps(text);
    EntriesRoundTrip([1, 1], es, legacy, EntryLoader(legacy, utf8), utf8);
  }

  /** The span of a frame is its base64 text. */
  lemma SpanOfFrame(h0: byte, h1: byte, text: seq<byte>, tail: seq<byte>)
    requires 0 !in text
    ensures Base64Span([h0, h1] + text + [0] + tail) == Ok(text)
  {
    var data := [h0, h1] + text + [0] + tail;
    forall i | 2 <= i < 2 + |text| ensures data[i] != 0 {
      assert data[i] == text[i - 2];
    }
    FirstNulAfter(data, 2, |text|);
    assert data[2..2 + |text|] == text;
  }
}
