/** Reading artist and title back out of a file name "artist - title", the
    duplicate marker of the Python renamer, and path containment of the
    Rust renamer. */
module FileNames {
  import opened Strings

  const Separator: seq<char> := " - "

  /** The first " - " of `a + " - " + t` is the one after `a`, as long as
      `a` holds no " - ", does not end with a space and does not end with
      " -" (for "x -" the first separator is the one inside "x - -"). */
  lemma SeparatorAfterArtist(a: seq<char>, t: seq<char>)
    requires !Contains(a, Separator) && !EndsWith(a, " -")
    requires a == [] || a[|a| - 1] != ' '
    ensures Find(a + Separator + t, Separator) == Some(|a|)
  {
    var s := a + Separator + t;
    assert s[|a|..|a| + 3] == Separator;
    forall j | 0 <= j < |a| ensures !OccursAt(s, Separator, j) {
      NoSeparatorInArtist(a, t, j);
    }
    assert OccursAt(s, Separator, |a|);
  }

  lemma NoSeparatorInArtist(a: seq<char>, t: seq<char>, j: nat)
    requires !Contains(a, Separator) && !EndsWith(a, " -")
    requires a == [] || a[|a| - 1] != ' '
    requires j < |a|
    ensures !OccursAt(a + Separator + t, Separator, j)
  {
    var s := a + Separator + t;
    if j + 3 <= |a| {
      assert s[j..j + 3] == a[j..j + 3];
      if OccursAt(s, Separator, j) {
        ContainsAt(a, Separator, j);
      }
    } else if j == |a| - 1 {
      assert s[j..j + 3][0] == a[j] != ' ';
    } else {
      assert |a| >= 2 && a[|a| - 2..] != " -";
      assert s[j..j + 3][..2] == a[|a| - 2..];
    }
  }

  // ---------------------------------------------------------------------
  // rename/renamer.py

  /** `Renamer.get_tags_from_filename` (rename/renamer.py:248-258): split at
      the first " - " and strip both sides; a name without the separator
      gives two empty fields. */
  function PyGetTagsFromFilename(filename: seq<char>): (r: (seq<char>, seq<char>))
    ensures !Contains(filename, Separator) ==> r == ([], [])
    ensures IsTrimmedBy(r.0, IsPySpace) && IsTrimmedBy(r.1, IsPySpace)
  {
    PyStripIsTrimmed(filename);
    match SplitOnce(filename, Separator)
    case None => ([], [])
    case Some((a, t)) =>
      PyStripIsTrimmed(a);
      PyStripIsTrimmed(t);
      (PyStrip(a), PyStrip(t))
  }

  /** Round trip: the fields of "artist - title" come back, and any later
      " - " stays in the title. */
  lemma PyTagsRoundTrip(a: seq<char>, t: seq<char>)
    requires IsTrimmedBy(a, IsPySpace) && !Contains(a, Separator) && !EndsWith(a, " -")
    ensures PyGetTagsFromFilename(a + Separator + t) == (a, PyStrip(t))
  {
    SeparatorAfterArtist(a, t);
    var s := a + Separator + t;
    assert s[..|a|] == a && s[|a| + 3..] == t;
    TrimmedFixed(a, IsPySpace);
  }

  /** With a trimmed title too, both fields come back unchanged. */
  lemma PyTagsRoundTripTrimmed(a: seq<char>, t: seq<char>)
    requires IsTrimmedBy(a, IsPySpace) && !Contains(a, Separator) && !EndsWith(a, " -")
    requires IsTrimmedBy(t, IsPySpace)
    ensures PyGetTagsFromFilename(a + Separator + t) == (a, t)
  {
    PyTagsRoundTrip(a, t);
    TrimmedFixed(t, IsPySpace);
  }

  /** An artist ending in " -" does not survive the round trip: "x -" with
      title `t` reads back as ("x", "- " + t). */
  lemma PyTagsArtistEndingInDash(t: seq<char>)
    requires t != [] && IsTrimmedBy(t, IsPySpace)
    ensures PyGetTagsFromFilename("x -" + Separator + t) == ("x", "- " + t)
  {
    var x: seq<char> := "x";
    assert "x -" + Separator + t == x + Separator + ("- " + t);
    assert !Contains(x, Separator);
    PyTagsRoundTrip(x, "- " + t);
    assert IsTrimmedBy("- " + t, IsPySpace);
    TrimmedFixed("- " + t, IsPySpace);
  }

  /** A Python `pathlib.Path`, as far as the duplicate marker needs it: the
      directory and the final component. */
  datatype PyPath = PyPath(parent: seq<char>, name: seq<char>)

  /** Where `PurePath.suffix` starts: the last "." when it is neither the
      first nor the last character of the name. */
  function SuffixStart(name: seq<char>): (r: Option<nat>)
    ensures r.Some? ==> 0 < r.value < |name| - 1 && name[r.value] == '.'
    ensures r.Some? ==> forall j :: r.value < j < |name| ==> name[j] != '.'
  {
    match LastIndexOf(name, '.')
    case Some(i) => if 0 < i < |name| - 1 then Some(i) else None
    case None => None
  }

  /** `PurePath.stem` and `PurePath.suffix`. */
  function Stem(name: seq<char>): (r: seq<char>)
    ensures r + Suffix(name) == name
  {
    match SuffixStart(name)
    case Some(i) => name[..i]
    case None => name
  }

  function Suffix(name: seq<char>): seq<char> {
    match SuffixStart(name)
    case Some(i) => name[i..]
    case None => []
  }

  /** `re.search(r"(Duplicate-[A-Za-z0-9]+)", stem)`: the parentheses are a
      group of the regex, so the marker may stand anywhere, bracketed or not. */
  predicate HasDuplicateTag(stem: seq<char>) {
    exists i :: 0 <= i < |stem| - 10 && OccursAt(stem, "Duplicate-", i) && IsAlnum(stem[i + 10])
  }

  /** `hash_digest[:8]`. */
  function ShortDigest(digest: seq<char>): (r: seq<char>)
    ensures |r| <= 8 && |r| <= |digest| && r == digest[..|r|]
    ensures |digest| >= 8 ==> |r| == 8
  {
    if |digest| <= 8 then digest else digest[..8]
  }

  /** `Renamer.append_duplicate_tag_to_name` (rename/renamer.py:261-274). The
      hex digest of the time stamp is a parameter. A stem that already has
      a marker is returned unchanged; otherwise " (Duplicate-<8 hex>)" goes
      between stem and suffix, in the same directory. */
  function AppendDuplicateTag(path: PyPath, digest: seq<char>): (r: PyPath)
    ensures HasDuplicateTag(Stem(path.name)) ==> r == path
    ensures !HasDuplicateTag(Stem(path.name)) ==>
      r.parent == path.parent && Stem(path.name) + Suffix(path.name) == path.name
      && r.name == Stem(path.name) + Marker(ShortDigest(digest)) + Suffix(path.name)
  {
    if HasDuplicateTag(Stem(path.name)) then path
    else PyPath(path.parent, Stem(path.name) + Marker(ShortDigest(digest)) + Suffix(path.name))
  }

  /** " (Duplicate-<digest>)". */
  function Marker(d: seq<char>): seq<char> {
    " (Duplicate-" + d + ")"
  }

  /** The marker text with an alphanumeric digest holds no ".". */
  lemma MarkerHasNoDot(d: seq<char>)
    requires forall k :: 0 <= k < |d| ==> IsAlnum(d[k])
    ensures '.' !in Marker(d)
  {
    var m := Marker(d);
    forall k | 0 <= k < |m| ensures m[k] != '.' {
      if 12 <= k < 12 + |d| {
        assert m[k] == d[k - 12];
      }
    }
  }

  /** A name made of a non-empty `x` and a suffix-shaped `y` (a ".", then at
      least one character, none of them ".") has stem `x`. */
  lemma StemOfJoin(x: seq<char>, y: seq<char>)
    requires x != [] && |y| >= 2 && y[0] == '.'
    requires forall j :: 0 < j < |y| ==> y[j] != '.'
    ensures Stem(x + y) == x
  {
    var n := x + y;
    forall j | |x| < j < |n| ensures n[j] != '.' {
      assert n[j] == y[j - |x|];
    }
    LastIndexOfAt(n, '.', |x|);
    assert n[..|x|] == x;
  }

  /** A name whose only "." is its first character, or that has none, is
      its own stem. */
  lemma StemWithoutSuffix(n: seq<char>)
    requires forall j :: 0 < j < |n| ==> n[j] != '.'
    ensures Stem(n) == n
  {
    if n != [] && n[0] == '.' {
      LastIndexOfAt(n, '.', 0);
    } else {
      assert '.' !in n;
    }
  }

  /** Without a suffix, and not ending in ".", a name has no "." after its
      first character. */
  lemma NoDotAfterFirst(name: seq<char>)
    requires SuffixStart(name).None? && LastIndexOf(name, '.') != Some(|name| - 1)
    ensures forall j :: 0 < j < |name| ==> name[j] != '.'
  {
    match LastIndexOf(name, '.')
    case None =>
    case Some(l) =>
      assert l == 0;
  }

  /** The stem after tagging still ends with the marker. */
  lemma TaggedStem(name: seq<char>, d: seq<char>)
    requires forall k :: 0 <= k < |d| ==> IsAlnum(d[k])
    requires LastIndexOf(name, '.') != Some(|name| - 1)
    ensures Stem(Stem(name) + Marker(d) + Suffix(name)) == Stem(name) + Marker(d)
  {
    MarkerHasNoDot(d);
    if SuffixStart(name).Some? {
      TaggedStemWithSuffix(name, Marker(d));
    } else {
      TaggedStemNoSuffix(name, Marker(d));
    }
  }

  lemma TaggedStemWithSuffix(name: seq<char>, m: seq<char>)
    requires SuffixStart(name).Some? && m != []
    ensures Stem(Stem(name) + m + Suffix(name)) == Stem(name) + m
  {
    var i := SuffixStart(name).value;
    var y := name[i..];
    assert Suffix(name) == y;
    forall j | 0 < j < |y| ensures y[j] != '.' {
      assert y[j] == name[i + j];
    }
    StemOfJoin(Stem(name) + m, y);
  }

  lemma TaggedStemNoSuffix(name: seq<char>, m: seq<char>)
    requires SuffixStart(name).None? && LastIndexOf(name, '.') != Some(|name| - 1)
    requires '.' !in m
    ensures Stem(Stem(name) + m + Suffix(name)) == Stem(name) + m
  {
    assert Stem(name) == name && Suffix(name) == [];
    var n := name + m;
    assert Stem(name) + m + Suffix(name) == n;
    NoDotAfterFirst(name);
    forall j | 0 < j < |n| ensures n[j] != '.' {
      if j >= |name| {
        assert n[j] == m[j - |name|];
      } else {
        assert n[j] == name[j];
      }
    }
    StemWithoutSuffix(n);
  }

  /** A marker with an alphanumeric first digit is recognised. */
  lemma MarkerIsTag(x: seq<char>, d: seq<char>)
    requires d != [] && IsAlnum(d[0])
    ensures HasDuplicateTag(x + Marker(d))
  {
    var pre: seq<char> := " (Duplicate-";
    var st := x + pre + d + ")";
    assert st == x + Marker(d);
    var i := |x| + 2;
    assert st[i..i + 10] == pre[2..] == "Duplicate-";
    assert OccursAt(st, "Duplicate-", i);
    assert st[i + 10] == d[0];
  }

  /** The marker guard makes tagging idempotent: tagging a tagged path
      again returns it unchanged. The digest is hex, so alphanumeric, and
      the name must not end in "." (then the marker would land in the
      suffix of the new name). */
  lemma AppendDuplicateTagIdempotent(path: PyPath, d1: seq<char>, d2: seq<char>)
    requires d1 != [] && forall k :: 0 <= k < |d1| ==> IsAlnum(d1[k])
    requires LastIndexOf(path.name, '.') != Some(|path.name| - 1)
    ensures AppendDuplicateTag(AppendDuplicateTag(path, d1), d2) == AppendDuplicateTag(path, d1)
  {
    if !HasDuplicateTag(Stem(path.name)) {
      var d := ShortDigest(d1);
      assert forall k :: 0 <= k < |d| ==> IsAlnum(d[k]) by {
        forall k | 0 <= k < |d| ensures IsAlnum(d[k]) { assert d[k] == d1[k]; }
      }
      TaggedStem(path.name, d);
      MarkerIsTag(Stem(path.name), d);
    }
  }

  // ---------------------------------------------------------------------
  // src/utils.rs

  const VariousArtists: seq<char> := "Various Artists - "

  /** `get_tags_from_filename` (src/utils.rs:172-192). Without " - " an empty
      name gives nothing and any other name is all title. Otherwise every
      leading "Various Artists - " is removed, the rest trimmed and split at
      its first " - "; when no separator is left there is nothing. Both
      parts are trimmed and then NFC-normalised by `nfc`, a parameter. */
  function GetTagsFromFilename(filename: seq<char>, nfc: seq<char> -> seq<char>): (r: Option<(seq<char>, seq<char>)>)
    ensures !Contains(filename, Separator) ==> r == (if filename == [] then None else Some(([], filename)))
  {
    if !Contains(filename, Separator) then
      if filename == [] then None else Some(([], filename))
    else
      match SplitOnce(Trim(TrimStartMatches(filename, VariousArtists)), Separator)
      case None => None
      case Some((a, t)) => Some((nfc(Trim(a)), nfc(Trim(t))))
  }

  /** With the separator present the result has trimmed fields (NFC keeps
      whitespace at the ends as it is, so `nfc` is the identity here). */
  lemma GetTagsTrimmed(filename: seq<char>)
    requires Contains(filename, Separator)
    ensures var r := GetTagsFromFilename(filename, s => s);
      r.Some? ==> IsTrimmedBy(r.value.0, IsSpace) && IsTrimmedBy(r.value.1, IsSpace)
  {
    match SplitOnce(Trim(TrimStartMatches(filename, VariousArtists)), Separator)
    case None =>
    case Some((a, t)) =>
      TrimIsTrimmed(a);
      TrimIsTrimmed(t);
  }

  /** Every leading "Various Artists - " is removed: one more in front
      makes no difference once the rest has a separator of its own. */
  lemma GetTagsDropsVariousArtists(f: seq<char>, nfc: seq<char> -> seq<char>)
    requires Contains(f, Separator)
    ensures GetTagsFromFilename(VariousArtists + f, nfc) == GetTagsFromFilename(f, nfc)
  {
    var g := VariousArtists + f;
    assert g[15..18] == Separator;
    ContainsAt(g, Separator, 15);
    assert g[..18] == VariousArtists && g[18..] == f;
    assert TrimStartMatches(g, VariousArtists) == TrimStartMatches(f, VariousArtists);
  }

  /** "Various Artists - " followed by a title with no separator of its own
      gives nothing. */
  lemma GetTagsVariousArtistsOnly(t: seq<char>, nfc: seq<char> -> seq<char>)
    requires !Contains(t, Separator)
    ensures GetTagsFromFilename(VariousArtists + t, nfc) == None
  {
    var f := VariousArtists + t;
    assert Contains(f, Separator) by {
      assert f[15..18] == Separator;
      ContainsAt(f, Separator, 15);
    }
    VariousArtistsStripped(t);
    TrimNoSeparator(t);
  }

  /** Without a separator of its own the title cannot start with another
      "Various Artists - ", so exactly one is stripped. */
  lemma VariousArtistsStripped(t: seq<char>)
    requires !Contains(t, Separator)
    ensures TrimStartMatches(VariousArtists + t, VariousArtists) == t
  {
    var f := VariousArtists + t;
    assert StartsWith(f, VariousArtists);
    assert f[18..] == t;
    if StartsWith(t, VariousArtists) {
      assert t[15..18] == Separator;
      ContainsAt(t, Separator, 15);
    }
  }

  lemma TrimNoSeparator(t: seq<char>)
    requires !Contains(t, Separator)
    ensures !Contains(Trim(t), Separator)
  {
    TrimIsSlice(t, IsSpace);
    var k, m :| 0 <= k <= m <= |t| && Trim(t) == t[k..m];
    SliceNotContains(t, k, m, Separator);
  }

  /** Round trip for the Rust reader: a non-empty trimmed artist without
      " - " (and not ending in " -", and not "Various Artists") and a
      non-empty trimmed title come back as they were. */
  lemma GetTagsRoundTrip(a: seq<char>, t: seq<char>)
    requires a != [] && IsTrimmedBy(a, IsSpace) && !Contains(a, Separator) && !EndsWith(a, " -")
    requires a != "Various Artists"
    requires t != [] && IsTrimmedBy(t, IsSpace)
    ensures GetTagsFromFilename(a + Separator + t, s => s) == Some((a, t))
  {
    var f := a + Separator + t;
    SeparatorAfterArtist(a, t);
    assert Contains(f, Separator);
    NotVariousArtists(a, t);
    assert TrimStartMatches(f, VariousArtists) == f;
    assert f[0] == a[0] && f[|f| - 1] == t[|t| - 1];
    TrimmedFixed(f, IsSpace);
    assert f[..|a|] == a && f[|a| + 3..] == t;
    TrimmedFixed(a, IsSpace);
    TrimmedFixed(t, IsSpace);
  }

  /** Such an artist does not make the name start with "Various Artists - ". */
  lemma NotVariousArtists(a: seq<char>, t: seq<char>)
    requires a != [] && IsTrimmedBy(a, IsSpace) && !Contains(a, Separator) && !EndsWith(a, " -")
    requires a != "Various Artists"
    ensures !StartsWith(a + Separator + t, VariousArtists)
  {
    var f := a + Separator + t;
    var va := VariousArtists;
    if |f| >= 18 {
      var k: int;
      if |a| < 15 {
        k := |a| + 1;
        assert f[k] == Separator[1] == '-';
        assert va[k] != '-';
      } else if |a| == 15 {
        assert a != va[..15];
        k :| 0 <= k < 15 && a[k] != va[..15][k];
      } else if |a| == 16 {
        k := 15;
        assert a[15] != ' ';
      } else if |a| == 17 {
        assert va[15..17] == " -";
        assert a[|a| - 2..] == a[15..];
        k :| 15 <= k < 17 && a[k] != va[k];
      } else {
        if a[15..18] == va[15..18] {
          ContainsAt(a, Separator, 15);
        }
        k :| 15 <= k < 18 && a[k] != va[k];
      }
      assert f[..18][k] != va[k];
    }
  }

  /** `contains_subpath` (src/utils.rs:110-134) over the components of both
      paths. False when the subpath is longer or empty; otherwise true at the
      first index where a main component equals the first sub component and
      `zip` finds the overlapping components equal. `zip` stops at the
      shorter side, so a subpath whose head matches the tail of the main
      path also counts. */
  function ContainsSubpath<T(==)>(main: seq<T>, sub: seq<T>): (r: bool)
    ensures r <==> 0 < |sub| <= |main| && exists i :: 0 <= i < |main| && ZipEqualAt(main, sub, i)
  {
    if |sub| > |main| || sub == [] then false else ScanFrom(main, sub, 0)
  }

  /** `main[i..].iter().zip(sub).all(==)`, started where the first components
      agree. */
  predicate ZipEqualAt<T(==)>(main: seq<T>, sub: seq<T>, i: int)
    requires 0 <= i <= |main|
  {
    forall k :: 0 <= k < |sub| && i + k < |main| ==> main[i + k] == sub[k]
  }

  function ScanFrom<T(==)>(main: seq<T>, sub: seq<T>, i: nat): (r: bool)
    requires sub != [] && i <= |main|
    ensures r <==> exists j :: i <= j < |main| && ZipEqualAt(main, sub, j)
    decreases |main| - i
  {
    if i == |main| then false
    else if main[i] == sub[0] && ZipEqualAt(main, sub, i) then true
    else ScanFrom(main, sub, i + 1)
  }

  /** A contiguous occurrence is found. */
  lemma ContainsSubpathOccurrence<T>(main: seq<T>, sub: seq<T>, i: nat)
    requires sub != [] && i + |sub| <= |main| && main[i..i + |sub|] == sub
    ensures ContainsSubpath(main, sub)
  {
    forall k | 0 <= k < |sub| ensures main[i + k] == sub[k] {
      assert main[i..i + |sub|][k] == main[i + k];
    }
    assert ZipEqualAt(main, sub, i);
  }

  /** The overlap case: main "a/b", sub "b/c" reads as contained, though
      "b/c" is not part of "a/b". */
  lemma ContainsSubpathTailOverlap()
    ensures ContainsSubpath(["a", "b"], ["b", "c"])
    ensures !ContainsSubpathExact(["a", "b"], ["b", "c"])
  {
    var main: seq<seq<char>> := ["a", "b"];
    var sub: seq<seq<char>> := ["b", "c"];
    assert ZipEqualAt(main, sub, 1);
    assert !SliceAt(main, sub, 0) by { assert main[0] != sub[0]; }
  }

  /** The evidently intended check: `sub` occurs contiguously in `main`. */
  function ContainsSubpathExact<T(==)>(main: seq<T>, sub: seq<T>): (r: bool)
    ensures r <==> sub != [] && exists i :: SliceAt(main, sub, i)
  {
    sub != [] && ScanWhole(main, sub, 0)
  }

  /** `sub` occurs in `main` starting at `i`. */
  predicate SliceAt<T(==)>(main: seq<T>, sub: seq<T>, i: int) {
    0 <= i && i + |sub| <= |main| && main[i..i + |sub|] == sub
  }

  function ScanWhole<T(==)>(main: seq<T>, sub: seq<T>, i: nat): (r: bool)
    requires i <= |main|
    ensures r <==> exists j :: i <= j && SliceAt(main, sub, j)
    decreases |main| - i
  {
    if i + |sub| > |main| then false
    else if main[i..i + |sub|] == sub then assert SliceAt(main, sub, i); true
    else ScanWhole(main, sub, i + 1)
  }
}
