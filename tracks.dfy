/** The supported audio formats (src/file_format.rs, and the older copy
    src/fileformat.rs that the Rust `Track` uses). */
module FileFormats {
  import opened Strings

  /** `FileFormat`; its `Default` is `Mp3`. */
  datatype FileFormat = Mp3 | Aif

  const DefaultFileFormat: FileFormat := Mp3

  /** `FileFormat::from_str`: the text is lower-cased and must then be
      "mp3", "aif" or "aiff"; anything else is refused with a message that
      quotes the text as given. */
  function ParseFileFormat(s: seq<char>): (r: Result<FileFormat>)
    ensures r == Ok(Mp3) <==> Lower(s) == "mp3"
    ensures r == Ok(Aif) <==> Lower(s) == "aif" || Lower(s) == "aiff"
    ensures r.Err? <==> Lower(s) !in {"mp3", "aif", "aiff"}
    ensures r.Err? ==> r.error == "Unsupported file format: " + s
  {
    var l := Lower(s);
    if l == "mp3" then Ok(Mp3)
    else if l == "aif" || l == "aiff" then Ok(Aif)
    else Err("Unsupported file format: " + s)
  }

  /** `Display for FileFormat`. */
  function FormatName(f: FileFormat): seq<char> {
    match f
    case Mp3 => "mp3"
    case Aif => "aif"
  }

  /** Displaying a format and parsing the text back gives the format. */
  lemma ParseFormatName(f: FileFormat)
    ensures ParseFileFormat(FormatName(f)) == Ok(f)
    ensures Lower(FormatName(f)) == FormatName(f)
  {
    assert Lower("mp3") == "mp3";
    assert Lower("aif") == "aif";
  }

  /** The other direction does not hold: "aiff" is read as `Aif`, which is
      displayed as "aif". */
  lemma AiffDisplaysAsAif()
    ensures ParseFileFormat("aiff") == Ok(Aif)
    ensures FormatName(ParseFileFormat("aiff").value) != "aiff"
  {
    assert Lower("aiff") == "aiff";
  }

  /** Case does not matter: the upper- and lower-case spellings of a text
      are accepted exactly when it is, as the same format. */
  lemma ParseIgnoresCase(s: seq<char>)
    ensures ParseFileFormat(Upper(s)).Ok? <==> ParseFileFormat(s).Ok?
    ensures ParseFileFormat(Lower(s)).Ok? <==> ParseFileFormat(s).Ok?
    ensures ParseFileFormat(s).Ok? ==> ParseFileFormat(Upper(s)) == ParseFileFormat(s) == ParseFileFormat(Lower(s))
  {
    LowerUpper(s);
    LowerLower(s);
  }

  /** Lower-casing the upper-cased text is lower-casing the text. */
  lemma {:induction false} LowerUpper(s: seq<char>)
    ensures Lower(Upper(s)) == Lower(s)
  {
    if s != [] {
      LowerUpper(s[1..]);
      assert Upper(s) == [UpperChar(s[0])] + Upper(s[1..]);
      assert Lower(s) == [LowerChar(s[0])] + Lower(s[1..]);
    }
  }

  /** Lower-casing is idempotent. */
  lemma {:induction false} LowerLower(s: seq<char>)
    ensures Lower(Lower(s)) == Lower(s)
  {
    if s != [] {
      LowerLower(s[1..]);
      assert Lower(s) == [LowerChar(s[0])] + Lower(s[1..]);
    }
  }

  /** The default format is the one "mp3" names. */
  lemma DefaultIsMp3()
    ensures ParseFileFormat(FormatName(DefaultFileFormat)) == Ok(DefaultFileFormat)
    ensures FormatName(DefaultFileFormat) == "mp3"
  {
    ParseFormatName(DefaultFileFormat);
  }

  /** Formats outside the list are refused. */
  lemma OtherFormatsRefused()
    ensures ParseFileFormat("wav").Err? && ParseFileFormat("m4a").Err? && ParseFileFormat("flac").Err?
  {
    assert Lower("wav") == "wav";
    assert Lower("m4a") == "m4a";
    assert Lower("flac") == "flac";
  }
}

/** The tag values of one track (src/tags.rs). */
module TrackTags {
  import opened Strings
  import FileNames

  /** `Tags`: the values read from the file and the formatted ones. */
  datatype Tags = Tags(
    currentArtist: seq<char>, currentTitle: seq<char>, currentAlbum: seq<char>, currentGenre: seq<char>,
    formattedArtist: seq<char>, formattedTitle: seq<char>, formattedAlbum: seq<char>, formattedGenre: seq<char>)

  /** `Tags::new`: the read values, with the formatted fields left at the
      empty default. */
  function NewTags(artist: seq<char>, title: seq<char>, album: seq<char>, genre: seq<char>): (t: Tags)
    ensures t.currentArtist == artist && t.currentTitle == title && t.currentAlbum == album && t.currentGenre == genre
    ensures t.formattedArtist == [] && t.formattedTitle == [] && t.formattedAlbum == [] && t.formattedGenre == []
  {
    Tags(artist, title, album, genre, [], [], [], [])
  }

  /** `current_name`: "artist - title". */
  function CurrentName(t: Tags): seq<char> {
    t.currentArtist + FileNames.Separator + t.currentTitle
  }

  /** `formatted_name`. */
  function FormattedName(t: Tags): seq<char> {
    t.formattedArtist + FileNames.Separator + t.formattedTitle
  }

  /** `changed`: some formatted field differs from its current value. */
  predicate Changed(t: Tags) {
    t.currentArtist != t.formattedArtist || t.currentTitle != t.formattedTitle
    || t.currentAlbum != t.formattedAlbum || t.currentGenre != t.formattedGenre
  }

  /** `changed` is false exactly when the formatted tags are the current
      tags; then the two names agree as well. */
  lemma UnchangedMeansSameTags(t: Tags)
    ensures !Changed(t) <==> NewTags(t.currentArtist, t.currentTitle, t.currentAlbum, t.currentGenre).(
                formattedArtist := t.currentArtist, formattedTitle := t.currentTitle,
                formattedAlbum := t.currentAlbum, formattedGenre := t.currentGenre) == t.(
                currentArtist := t.formattedArtist, currentTitle := t.formattedTitle,
                currentAlbum := t.formattedAlbum, currentGenre := t.formattedGenre)
    ensures !Changed(t) ==> CurrentName(t) == FormattedName(t)
  {
  }

  /** Fresh tags count as changed unless every read value is empty. */
  lemma NewTagsChanged(artist: seq<char>, title: seq<char>, album: seq<char>, genre: seq<char>)
    ensures Changed(NewTags(artist, title, album, genre)) <==> artist != [] || title != [] || album != [] || genre != []
  {
  }

  /** Equal names do not make the tags unchanged: the separator can move
      between artist and title. */
  lemma SameNameYetChanged()
    ensures var t := Tags("A - B", "C", "", "", "A", "B - C", "", "");
            CurrentName(t) == FormattedName(t) && Changed(t)
  {
    var t := Tags("A - B", "C", "", "", "A", "B - C", "", "");
    assert CurrentName(t) == "A - B - C";
    assert FormattedName(t) == "A - B - C";
    assert t.currentArtist != t.formattedArtist by {
      assert |t.currentArtist| == 5 && |t.formattedArtist| == 1;
    }
  }

  /** The name of a track reads back, as file name text, as its artist and
      title when the artist has no separator of its own and is not
      "Various Artists". */
  lemma CurrentNameReadsBack(t: Tags)
    requires t.currentArtist != [] && t.currentTitle != []
    requires IsTrimmedBy(t.currentArtist, IsSpace) && IsTrimmedBy(t.currentTitle, IsSpace)
    requires !Contains(t.currentArtist, FileNames.Separator) && !EndsWith(t.currentArtist, " -")
    requires t.currentArtist != "Various Artists"
    ensures FileNames.GetTagsFromFilename(CurrentName(t), s => s) == Some((t.currentArtist, t.currentTitle))
  {
    FileNames.GetTagsRoundTrip(t.currentArtist, t.currentTitle);
  }
}

/** The part of `std::path::Path` that `Track` relies on. */
module Paths {
  import opened Strings

  /** A path as a root flag and its components, "." components already
      dropped as `components()` does; ".." stays a component. */
  datatype Path = Path(absolute: bool, parts: seq<seq<char>>)

  /** `file_name`: the last component, unless there is none or it is "..". */
  function FileName(p: Path): (r: Option<seq<char>>)
    ensures r.Some? <==> p.parts != [] && p.parts[|p.parts| - 1] != ".."
    ensures r.Some? ==> r.value == p.parts[|p.parts| - 1]
  {
    if p.parts == [] || p.parts[|p.parts| - 1] == ".." then None else Some(p.parts[|p.parts| - 1])
  }

  /** `parent`: the path without its last component; the root and the empty
      path have none. */
  function Parent(p: Path): (r: Option<Path>)
    ensures r.Some? <==> p.parts != []
    ensures r.Some? ==> r.value.absolute == p.absolute && r.value.parts + [p.parts[|p.parts| - 1]] == p.parts
  {
    if p.parts == [] then None else Some(Path(p.absolute, p.parts[..|p.parts| - 1]))
  }

  /** `path / name`. */
  function Join(p: Path, name: seq<char>): Path {
    Path(p.absolute, p.parts + [name])
  }

  /** Where a file name splits into stem and extension: at its last ".",
      unless that dot is the first character (".bashrc" has no extension)
      or there is none. */
  function ExtensionDot(name: seq<char>): (r: Option<nat>)
    ensures r.Some? ==> 0 < r.value < |name| && name[r.value] == '.' && '.' !in name[r.value + 1..]
    ensures r.None? ==> forall i :: 0 < i < |name| ==> name[i] != '.'
  {
    match LastIndexOf(name, '.')
    case None => None
    case Some(i) => if i == 0 then None else Some(i)
  }

  /** `file_stem`. */
  function FileStem(p: Path): Option<seq<char>> {
    match FileName(p)
    case None => None
    case Some(name) =>
      match ExtensionDot(name)
      case None => Some(name)
      case Some(i) => Some(name[..i])
  }

  /** `extension`: possibly empty, as for "song.". */
  function Extension(p: Path): Option<seq<char>> {
    match FileName(p)
    case None => None
    case Some(name) =>
      match ExtensionDot(name)
      case None => None
      case Some(i) => Some(name[i + 1..])
  }

  /** Stem and extension split the file name at a dot, and the extension
      holds no dot; without an extension the stem is the whole name. */
  lemma StemAndExtension(p: Path)
    ensures FileStem(p).Some? <==> FileName(p).Some?
    ensures Extension(p).Some? ==> FileStem(p).Some? && FileName(p).value == FileStem(p).value + "." + Extension(p).value
    ensures Extension(p).Some? ==> '.' !in Extension(p).value && FileStem(p).value != []
    ensures FileName(p).Some? && Extension(p).None? ==> FileStem(p) == FileName(p)
  {
    if Extension(p).Some? {
      var name := FileName(p).value;
      var i := ExtensionDot(name).value;
      assert name == name[..i] + "." + name[i + 1..];
    }
  }
}

/** A music file of the Rust renamer (src/track.rs). */
module Tracks {
  import opened Strings
  import opened FileFormats
  import opened Paths

  /** `Track`: the stem, the extension as found, the format, the directory
      and the full path, and three progress flags. */
  class Track {
    var name: seq<char>
    var extension: seq<char>
    var format: FileFormat
    var root: Path
    var path: Path
    var tagsUpdated: bool
    var renamed: bool
    var printed: bool

    /** The field values of `new` and `new_with_extension`: all flags off. */
    constructor (name: seq<char>, extension: seq<char>, format: FileFormat, root: Path, path: Path)
      ensures this.name == name && this.extension == extension && this.format == format
      ensures this.root == root && this.path == path
      ensures !tagsUpdated && !renamed && !printed
    {
      this.name, this.extension, this.format := name, extension, format;
      this.root, this.path := root, path;
      tagsUpdated, renamed, printed := false, false, false;
    }

    /** `show`: the first call marks the track printed (the console line it
        writes is left out); later calls change nothing. */
    method Show(number: nat, total: nat)
      modifies this
      ensures printed
      ensures name == old(name) && extension == old(extension) && format == old(format)
      ensures root == old(root) && path == old(path)
      ensures tagsUpdated == old(tagsUpdated) && renamed == old(renamed)
    {
      if !printed {
        printed := true;
      }
    }

    /** `filename`: stem, dot, extension. */
    function Filename(): seq<char>
      reads this
    {
      name + "." + extension
    }
  }

  /** The values `new` derives from a path, each step with its error. */
  function TrackFields(path: Path): (r: Result<(seq<char>, seq<char>, FileFormat, Path)>)
    ensures r.Ok? ==> FileName(path).Some? && FileName(path).value == r.value.0 + "." + r.value.1
    ensures r.Ok? ==> ParseFileFormat(r.value.1) == Ok(r.value.2) && Parent(path) == Some(r.value.3)
    ensures r.Err? ==> r.error == "Failed to get file stem" || r.error == "Failed to get file extension"
                       || r.error == "Failed to get file root" || (Extension(path).Some? && r.error == "Unsupported file format: " + Extension(path).value)
  {
    StemAndExtension(path);
    match FileStem(path)
    case None => Err("Failed to get file stem")
    case Some(name) =>
      match Extension(path)
      case None => Err("Failed to get file extension")
      case Some(ext) =>
        match ParseFileFormat(ext)
        case Err(e) => Err(e)
        case Ok(format) =>
          match Parent(path)
          case None => Err("Failed to get file root")
          case Some(root) => Ok((name, ext, format, root))
  }

  /** `Track::new`. */
  method NewTrack(path: Path) returns (r: Result<Track>)
    ensures r.Ok? <==> TrackFields(path).Ok?
    ensures r.Err? ==> r.error == TrackFields(path).error
    ensures r.Ok? ==> fresh(r.value) && !r.value.printed && !r.value.renamed && !r.value.tagsUpdated
    ensures r.Ok? ==> (r.value.name, r.value.extension, r.value.format, r.value.root) == TrackFields(path).value
                      && r.value.path == path
  {
    match TrackFields(path)
    case Err(e) =>
      return Err(e);
    case Ok((name, ext, format, root)) =>
      var t := new Track(name, ext, format, root, path);
      return Ok(t);
  }

  /** `Track::new_with_extension`: extension and format come from the
      caller; only stem and parent are taken from the path. */
  method NewTrackWithExtension(path: Path, extension: seq<char>, format: FileFormat) returns (r: Result<Track>)
    ensures r.Ok? <==> FileStem(path).Some? && Parent(path).Some?
    ensures r.Err? && FileStem(path).None? ==> r.error == "Failed to get file stem"
    ensures r.Err? && FileStem(path).Some? ==> r.error == "Failed to get file root"
    ensures r.Ok? ==> fresh(r.value) && !r.value.printed && !r.value.renamed && !r.value.tagsUpdated
    ensures r.Ok? ==> r.value.name == FileStem(path).value && r.value.extension == extension
                      && r.value.format == format && Some(r.value.root) == Parent(path) && r.value.path == path
  {
    match FileStem(path)
    case None =>
      return Err("Failed to get file stem");
    case Some(name) =>
      match Parent(path)
      case None =>
        return Err("Failed to get file root");
      case Some(root) =>
        var t := new Track(name, extension, format, root, path);
        return Ok(t);
  }

  /** The extension `try_from_path` works with: trimmed, empty when absent. */
  function TrimmedExtension(path: Path): (e: seq<char>)
    ensures IsTrimmedBy(e, IsSpace)
  {
    var x := match Extension(path) case None => [] case Some(x) => x;
    TrimIsTrimmed(x);
    Trim(x)
  }

  /** `Track::try_from_path`: a track for every path whose trimmed extension
      names a supported format; nothing otherwise (the messages it prints
      are left out). */
  method TryFromPath(path: Path) returns (r: Option<Track>)
    ensures r.Some? <==> TrimmedExtension(path) != [] && ParseFileFormat(TrimmedExtension(path)).Ok?
    ensures r.Some? ==> fresh(r.value) && !r.value.printed && r.value.path == path
    ensures r.Some? ==> r.value.extension == TrimmedExtension(path)
                        && r.value.format == ParseFileFormat(TrimmedExtension(path)).value
                        && Some(r.value.name) == FileStem(path) && Some(r.value.root) == Parent(path)
  {
    var ext := TrimmedExtension(path);
    if ext == [] {
      return None;
    }
    match ParseFileFormat(ext)
    case Err(_) =>
      return None;
    case Ok(format) =>
      ExtensionFound(path);
      var t := NewTrackWithExtension(path, ext, format);
      if t.Ok? {
        return Some(t.value);
      } else {
        assert false;
        return None;
      }
  }

  /** A non-empty trimmed extension means the path has a stem and a parent. */
  lemma ExtensionFound(path: Path)
    requires TrimmedExtension(path) != []
    ensures FileStem(path).Some? && Parent(path).Some?
  {
    StemAndExtension(path);
  }

  /** `eq`: tracks are equal when their stems are. */
  predicate SameTrack(a: Track, b: Track)
    reads a, b
  {
    a.name == b.name
  }

  /** `cmp`: tracks order by stem. */
  function CompareTracks(a: Track, b: Track): Ordering
    reads a, b
  {
    CompareStrings(a.name, b.name)
  }

  /** The order agrees with equality and is antisymmetric. */
  lemma CompareAgreesWithEq(a: Track, b: Track)
    ensures CompareTracks(a, b) == Equal <==> SameTrack(a, b)
    ensures CompareTracks(a, b) == Less <==> CompareTracks(b, a) == Greater
  {
    CompareStringsFlip(a.name, b.name);
  }

  /** `filename` gives back the file name of the path the track was read
      from. */
  lemma FilenameIsFileName(path: Path, t: Track)
    requires TrackFields(path).Ok?
    requires t.name == TrackFields(path).value.0 && t.extension == TrackFields(path).value.1
    ensures Some(t.Filename()) == FileName(path)
  {
  }

  /** Two tracks with the same stem in different folders and formats are
      equal. */
  lemma SameStemElsewhereIsEqual(a: Track, b: Track)
    requires a.name == b.name && a.root != b.root && a.format != b.format
    ensures SameTrack(a, b) && CompareTracks(a, b) == Equal
  {
  }

  /** The first Rust test: "/users/test/test_song.mp3". */
  lemma NewTrackExample()
    ensures TrackFields(Path(true, ["users", "test", "test_song.mp3"]))
            == Ok(("test_song", "mp3", Mp3, Path(true, ["users", "test"])))
  {
    var p := Path(true, ["users", "test", "test_song.mp3"]);
    var n: seq<char> := "test_song.mp3";
    assert FileName(p) == Some(n);
    assert n[9] == '.' && n[10] != '.' && n[11] != '.' && n[12] != '.';
    LastIndexOfAt(n, '.', 9);
    assert ExtensionDot(n) == Some(9);
    assert n[..9] == "test_song" && n[10..] == "mp3";
    assert FileStem(p) == Some("test_song");
    assert Extension(p) == Some("mp3");
    assert Lower("mp3") == "mp3";
    assert ParseFileFormat("mp3") == Ok(Mp3);
    assert p.parts[..2] == ["users", "test"];
  }
}

/** A music file of the Python renamer (rename/track.py). */
module PyTracks {
  import opened Strings

  /** `Track`: stem, extension with its dot, and the folder (a `pathlib`
      path, here its parts). */
  datatype PyTrack = PyTrack(name: seq<char>, extension: seq<char>, path: seq<seq<char>>)

  /** The right operand of a comparison: another track or a string. */
  datatype Operand = TrackOperand(track: PyTrack) | TextOperand(text: seq<char>)

  /** `Track.__init__`: a "." is put in front of an extension that lacks it. */
  function NewPyTrack(name: seq<char>, extension: seq<char>, path: seq<seq<char>>): (t: PyTrack)
    ensures t.name == name && t.path == path
    ensures StartsWith(t.extension, ".")
    ensures StartsWith(extension, ".") ==> t.extension == extension
    ensures !StartsWith(extension, ".") ==> t.extension == "." + extension
  {
    if StartsWith(extension, ".") then PyTrack(name, extension, path)
    else PyTrack(name, "." + extension, path)
  }

  /** `is_mp3`. */
  predicate IsMp3(t: PyTrack) {
    t.extension == ".mp3"
  }

  /** `filename`. */
  function PyFilename(t: PyTrack): seq<char> {
    t.name + t.extension
  }

  /** `full_path`. */
  function FullPath(t: PyTrack): seq<seq<char>> {
    t.path + [PyFilename(t)]
  }

  /** `full_path_without_extension`, the value `__hash__` hashes. */
  function HashKey(t: PyTrack): seq<seq<char>> {
    t.path + [t.name]
  }

  /** Building a track again from its own parts changes nothing, and an
      extension given with or without its dot ends up the same. */
  lemma NewPyTrackNormalises(name: seq<char>, ext: seq<char>, path: seq<seq<char>>)
    ensures var t := NewPyTrack(name, ext, path); NewPyTrack(t.name, t.extension, t.path) == t
    ensures !StartsWith(ext, ".") ==> NewPyTrack(name, ext, path) == NewPyTrack(name, "." + ext, path)
    ensures IsMp3(NewPyTrack(name, "mp3", path)) && IsMp3(NewPyTrack(name, ".mp3", path))
  {
    assert StartsWith("." + ext, ".");
    var m: seq<char> := "mp3";
    assert m[..1][0] == 'm';
    assert StartsWith(".mp3", ".");
  }

  /** `__eq__`: a track equals a track in the same folder with the same
      stem, and a string equal to its stem. */
  predicate PyEq(a: PyTrack, o: Operand) {
    match o
    case TrackOperand(b) => a.path == b.path && a.name == b.name
    case TextOperand(s) => a.name == s
  }

  /** `__ne__`. */
  predicate PyNe(a: PyTrack, o: Operand) {
    !PyEq(a, o)
  }

  /** The stem of the right operand. */
  function OperandName(o: Operand): seq<char> {
    match o
    case TrackOperand(b) => b.name
    case TextOperand(s) => s
  }

  /** `__lt__`: by stem only. */
  predicate PyLt(a: PyTrack, o: Operand) {
    CompareStrings(a.name, OperandName(o)) == Less
  }

  /** `__le__`: less, or equal as `__eq__` says. */
  predicate PyLe(a: PyTrack, o: Operand) {
    PyLt(a, o) || PyEq(a, o)
  }

  /** `__gt__`: not `__le__`. */
  predicate PyGt(a: PyTrack, o: Operand) {
    !PyLe(a, o)
  }

  /** `__ge__`: not `__lt__`. */
  predicate PyGe(a: PyTrack, o: Operand) {
    !PyLt(a, o)
  }

  /** Equal tracks hash alike, as Python requires of `__hash__`. */
  lemma EqualTracksHashAlike(a: PyTrack, b: PyTrack)
    requires PyEq(a, TrackOperand(b))
    ensures HashKey(a) == HashKey(b)
  {
  }

  /** Against a string the operators form the order of the stems. */
  lemma TextComparisons(a: PyTrack, s: seq<char>)
    ensures PyEq(a, TextOperand(s)) <==> CompareStrings(a.name, s) == Equal
    ensures PyGt(a, TextOperand(s)) <==> CompareStrings(a.name, s) == Greater
    ensures PyGe(a, TextOperand(s)) <==> PyGt(a, TextOperand(s)) || PyEq(a, TextOperand(s))
    ensures PyNe(a, TextOperand(s)) <==> PyLt(a, TextOperand(s)) || PyGt(a, TextOperand(s))
  {
  }

  /** Two tracks with the same stem in different folders are not equal, and
      each is greater than the other: `__gt__` is not the converse of
      `__lt__` once the folders differ. */
  lemma SameStemOtherFolder(a: PyTrack, b: PyTrack)
    requires a.name == b.name && a.path != b.path
    ensures PyNe(a, TrackOperand(b)) && PyNe(b, TrackOperand(a))
    ensures PyGt(a, TrackOperand(b)) && PyGt(b, TrackOperand(a))
    ensures !PyLt(a, TrackOperand(b)) && !PyLt(b, TrackOperand(a))
  {
  }

  /** In one folder the operators between tracks are a total order on
      stems: exactly one of less, equal, greater holds. */
  lemma SameFolderOrder(a: PyTrack, b: PyTrack)
    requires a.path == b.path
    ensures PyLt(a, TrackOperand(b)) <==> PyGt(b, TrackOperand(a))
    ensures PyEq(a, TrackOperand(b)) <==> PyEq(b, TrackOperand(a))
    ensures PyLt(a, TrackOperand(b)) || PyEq(a, TrackOperand(b)) || PyGt(a, TrackOperand(b))
    ensures !(PyLt(a, TrackOperand(b)) && PyGt(a, TrackOperand(b)))
  {
    CompareStringsFlip(a.name, b.name);
    CompareStringsFlip(b.name, a.name);
  }
}
