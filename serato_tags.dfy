/** The fixed-layout Serato frames (src/serato/mod.rs, analysis.rs,
    overview.rs, beatgrid.rs; the older src/serato.rs has the same tag
    names, analysis and beatgrid decoders). */
module SeratoTags {
  import opened Strings
  import opened Bytes

  /** `SeratoTag`: the kinds of Serato frame. */
  datatype SeratoTag = Analysis | Autotags | BeatGrid | Markers | Overview

  /** The frame description that names each kind. */
  function Description(t: SeratoTag): seq<char> {
    match t
    case Analysis => "Serato Analysis"
    case Autotags => "Serato Autotags"
    case BeatGrid => "Serato BeatGrid"
    case Markers => "Serato Markers2"
    case Overview => "Serato Overview"
  }

  /** `SeratoTag::from_str`: exactly the five descriptions are accepted;
      anything else is an error that quotes the text. */
  function ParseSeratoTag(s: seq<char>): (r: Result<SeratoTag>)
    ensures r.Ok? ==> Description(r.value) == s
    ensures r.Err? ==> (forall t: SeratoTag :: Description(t) != s) && r.error == "Unknown tag description: " + s
  {
    if s == "Serato Analysis" then Ok(Analysis)
    else if s == "Serato Autotags" then Ok(Autotags)
    else if s == "Serato BeatGrid" then Ok(BeatGrid)
    else if s == "Serato Markers2" then Ok(Markers)
    else if s == "Serato Overview" then Ok(Overview)
    else Err("Unknown tag description: " + s)
  }

  /** Every description reads back as its kind. */
  lemma DescriptionParses(t: SeratoTag)
    ensures ParseSeratoTag(Description(t)) == Ok(t)
  {
  }

  /** `Display for SeratoTag`. */
  function TagName(t: SeratoTag): seq<char> {
    match t
    case Analysis => "SeratoAnalysis"
    case Autotags => "SeratoAutotags"
    case BeatGrid => "SeratoBeatGrid"
    case Markers => "SeratoMarkers"
    case Overview => "SeratoOverview"
  }

  /** The five display names are distinct, but none of them is accepted by
      `from_str`: display is not the inverse of parsing. */
  lemma TagNamesDistinctNotParsed(t: SeratoTag, u: SeratoTag)
    ensures t != u ==> TagName(t) != TagName(u)
    ensures ParseSeratoTag(TagName(t)).Err?
  {
    assert |TagName(t)| != 15;
  }

  /** `AnalysisVersion`. */
  datatype AnalysisVersion = AnalysisVersion(major: byte, minor: byte)

  /** `AnalysisVersion::parse` / `parse_analysis_data`: the first two bytes,
      or an error when there are fewer. */
  function ParseAnalysis(data: seq<byte>): (r: Result<AnalysisVersion>)
    ensures r.Ok? <==> |data| >= 2
    ensures r.Ok? ==> r.value.major == data[0] && r.value.minor == data[1]
    ensures r.Err? ==> r.error == "Data is too short to contain version information"
  {
    if |data| >= 2 then Ok(AnalysisVersion(data[0], data[1]))
    else Err("Data is too short to contain version information")
  }

  /** Bytes after the first two are ignored. */
  lemma AnalysisIgnoresRest(data: seq<byte>, rest: seq<byte>)
    ensures |data| >= 2 ==> ParseAnalysis(data + rest) == ParseAnalysis(data)
    ensures |data| >= 2 ==> ParseAnalysis(data) == ParseAnalysis(data[..2])
  {
  }

  /** `Display for AnalysisVersion`: "Version: {major}.{minor}". */
  function AnalysisText(v: AnalysisVersion): seq<char> {
    "Version: " + ToBase(v.major as nat, 10) + "." + ToBase(v.minor as nat, 10)
  }

  /** The text reads back: after "Version: " come the decimal major, a dot
      and the decimal minor. */
  lemma AnalysisTextReadsBack(v: AnalysisVersion)
    ensures var s := AnalysisText(v);
            var k := 9 + |ToBase(v.major as nat, 10)|;
            k < |s| && s[..9] == "Version: " && s[k] == '.' && '.' !in s[9..k] && '.' !in s[k + 1..]
            && ValueIn(s[9..k], 10) == v.major as int && ValueIn(s[k + 1..], 10) == v.minor as int
  {
    var a, b := ToBase(v.major as nat, 10), ToBase(v.minor as nat, 10);
    var s := AnalysisText(v);
    var k := 9 + |a|;
    assert s == "Version: " + a + "." + b;
    assert s[..9] == "Version: " && s[9..k] == a && s[k] == '.' && s[k + 1..] == b;
    DecimalHasNoDot(v.major as nat);
    DecimalHasNoDot(v.minor as nat);
    ToBaseValue(v.major as nat, 10);
    ToBaseValue(v.minor as nat, 10);
  }

  /** Decimal digits hold no '.'. */
  lemma DecimalHasNoDot(n: nat)
    ensures '.' !in ToBase(n, 10)
  {
    var a := ToBase(n, 10);
    ToBaseDigits(n, 10);
    forall i | 0 <= i < |a| ensures a[i] != '.' {
      assert IsDigitIn(a[i], 10);
    }
  }

  /** `Overview::parse`: after the two header bytes, every whole 16-byte
      block in order; a trailing partial block is dropped. */
  method ParseOverview(data: seq<byte>) returns (r: Result<seq<seq<byte>>>)
    ensures r.Err? <==> |data| < 2
    ensures r.Err? ==> r.error == "Data too short to contain initial bytes"
    ensures r.Ok? ==> |r.value| == (|data| - 2) / 16
    ensures r.Ok? ==> forall i :: 0 <= i < |r.value| ==> 2 + 16 * i + 16 <= |data| && r.value[i] == data[2 + 16 * i..2 + 16 * i + 16]
  {
    if |data| < 2 {
      return Err("Data too short to contain initial bytes");
    }
    var blocks: seq<seq<byte>> := [];
    var offset := 2;
    while offset + 16 <= |data|
      invariant offset == 2 + 16 * |blocks| && offset <= |data|
      invariant forall i :: 0 <= i < |blocks| ==> blocks[i] == data[2 + 16 * i..2 + 16 * i + 16]
      decreases |data| - offset
    {
      blocks := blocks + [data[offset..offset + 16]];
      offset := offset + 16;
    }
    assert |blocks| == (|data| - 2) / 16;
    return Ok(blocks);
  }

  /** `BeatGridMarker`; positions and tempos are `f32` and kept here as
      their four raw bytes. */
  datatype BeatGridMarker =
    | Terminal(position: seq<byte>, bpm: seq<byte>)
    | NonTerminal(position: seq<byte>, beatsTillNext: nat)

  /** `BeatGrid`. */
  datatype BeatGridData = BeatGridData(numMarkers: nat, markers: seq<BeatGridMarker>)

  /** Marker `i` as the decoder reads it: eight bytes from 6 + 8i; it is the
      terminal one exactly when it ends at the footer byte. */
  predicate MarkerAt(data: seq<byte>, i: nat, m: BeatGridMarker) {
    var o := 6 + 8 * i;
    o + 8 <= |data|
    && if o + 8 == |data| - 1 then m == Terminal(data[o..o + 4], data[o + 4..o + 8])
       else m == NonTerminal(data[o..o + 4], U32At(data, o + 4))
  }

  /** `parse_beatgrid_data`: fewer than 11 bytes is an error; the count is
      the big-endian word at 2; every marker must fit in the data. */
  method ParseBeatgrid(data: seq<byte>) returns (r: Result<BeatGridData>)
    ensures |data| < 11 ==> r == Err("Data is too short to contain valid beatgrid information")
    ensures |data| >= 11 ==> (r.Ok? <==> 6 + 8 * U32At(data, 2) <= |data|)
    ensures |data| >= 11 && r.Err? ==> r.error == "Data is too short to contain all beatgrid markers"
    ensures r.Ok? ==> r.value.numMarkers == U32At(data, 2) && |r.value.markers| == r.value.numMarkers
    ensures r.Ok? ==> forall i :: 0 <= i < |r.value.markers| ==> MarkerAt(data, i, r.value.markers[i])
  {
    if |data| < 11 {
      return Err("Data is too short to contain valid beatgrid information");
    }
    var numMarkers := U32At(data, 2);
    var markers: seq<BeatGridMarker> := [];
    var offset := 6;
    for k := 0 to numMarkers
      invariant offset == 6 + 8 * k && |markers| == k
      invariant k > 0 ==> offset <= |data|
      invariant forall i :: 0 <= i < k ==> MarkerAt(data, i, markers[i])
    {
      if offset + 8 > |data| {
        return Err("Data is too short to contain all beatgrid markers");
      }
      var position := data[offset..offset + 4];
      var next := data[offset + 4..offset + 8];
      var marker;
      if offset + 8 == |data| - 1 {
        marker := Terminal(position, next);
      } else {
        marker := NonTerminal(position, U32At(data, offset + 4));
      }
      markers := markers + [marker];
      offset := offset + 8;
    }
    return Ok(BeatGridData(numMarkers, markers));
  }

  /** Only the last marker can be terminal, and it is exactly when the data
      ends one footer byte after it. */
  lemma TerminalOnlyLast(data: seq<byte>, markers: seq<BeatGridMarker>)
    requires forall i :: 0 <= i < |markers| ==> MarkerAt(data, i, markers[i])
    ensures forall i :: 0 <= i < |markers| && markers[i].Terminal? ==> i == |markers| - 1
    ensures markers != [] ==> (markers[|markers| - 1].Terminal? <==> |data| == 6 + 8 * |markers| + 1)
  {
    forall i | 0 <= i < |markers| && markers[i].Terminal?
      ensures i == |markers| - 1
    {
      assert MarkerAt(data, i, markers[i]);
      assert MarkerAt(data, |markers| - 1, markers[|markers| - 1]);
    }
    if markers != [] {
      assert MarkerAt(data, |markers| - 1, markers[|markers| - 1]);
    }
  }
}
