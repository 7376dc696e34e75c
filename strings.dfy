/** Character classes and literal string operations shared by every formatter
    model: whitespace as Rust and Python define it, literal search and
    replacement, trimming, splitting and joining. Strings are `seq<char>`;
    indices are character indices. */
module Strings {

  datatype Option<T> = None | Some(value: T)

  /** A value or an error message. */
  datatype Result<T> = Ok(value: T) | Err(error: seq<char>)

  datatype Ordering = Less | Equal | Greater

  /** Unicode White_Space: Rust's `char::is_whitespace`, `str::trim` and the
      regex class `\s`. */
  predicate IsSpace(c: char) {
    ('\t' <= c <= '\r') || c == ' ' || c == '\U{85}' || c == '\U{A0}' || c == '\U{1680}'
    || ('\U{2000}' <= c <= '\U{200A}') || c == '\U{2028}' || c == '\U{2029}'
    || c == '\U{202F}' || c == '\U{205F}' || c == '\U{3000}'
  }

  /** Python's `str.isspace`, behind `str.strip`, `str.split()` and `re`'s `\s`
      on text: Unicode White_Space plus the separators U+001C..U+001F. */
  predicate IsPySpace(c: char) {
    IsSpace(c) || ('\U{1C}' <= c <= '\U{1F}')
  }

  predicate IsDigit(c: char) { '0' <= c <= '9' }
  predicate IsAlpha(c: char) { ('a' <= c <= 'z') || ('A' <= c <= 'Z') }
  predicate IsAlnum(c: char) { IsDigit(c) || IsAlpha(c) }

  /** A regex word character (ASCII part of `\w`). */
  predicate IsWord(c: char) { IsAlnum(c) || c == '_' }

  function LowerChar(c: char): char {
    if 'A' <= c <= 'Z' then (c as int + 32) as char else c
  }

  function UpperChar(c: char): char {
    if 'a' <= c <= 'z' then (c as int - 32) as char else c
  }

  /** ASCII upper-casing, applied character by character. */
  function Upper(s: seq<char>): seq<char> {
    seq(|s|, i requires 0 <= i < |s| => UpperChar(s[i]))
  }

  /** ASCII lower-casing, applied character by character. */
  function Lower(s: seq<char>): seq<char> {
    seq(|s|, i requires 0 <= i < |s| => LowerChar(s[i]))
  }

  predicate StartsWith(s: seq<char>, p: seq<char>) {
    |p| <= |s| && s[..|p|] == p
  }

  predicate EndsWith(s: seq<char>, p: seq<char>) {
    |p| <= |s| && s[|s| - |p|..] == p
  }

  lemma EndsWithAppended(s: seq<char>, p: seq<char>)
    ensures EndsWith(s + p, p)
  {
    assert (s + p)[|s|..] == p;
  }

  lemma EndsWithJoined(s: seq<char>, a: seq<char>, b: seq<char>, c: seq<char>)
    requires s == a + b + c
    ensures EndsWith(s, b + c)
  {
    assert s == a + (b + c);
    EndsWithAppended(a, b + c);
  }

  predicate OccursAt(s: seq<char>, pat: seq<char>, i: int) {
    0 <= i && i + |pat| <= |s| && s[i..i + |pat|] == pat
  }

  /** The first index at or after `from` where `pat` occurs. */
  function FindFrom(s: seq<char>, pat: seq<char>, from: nat): Option<nat>
    decreases |s| - from
  {
    if from + |pat| > |s| then None
    else if s[from..from + |pat|] == pat then Some(from)
    else FindFrom(s, pat, from + 1)
  }

  /** The index found is an occurrence, and the first one from `from`. */
  lemma {:induction false} FindFromSpec(s: seq<char>, pat: seq<char>, from: nat)
    ensures var r := FindFrom(s, pat, from);
      && (r.Some? ==> from <= r.value && OccursAt(s, pat, r.value))
      && (r.Some? ==> forall j :: from <= j < r.value ==> !OccursAt(s, pat, j))
      && (r.None? ==> forall j :: from <= j ==> !OccursAt(s, pat, j))
    decreases |s| - from
  {
    if from + |pat| <= |s| && s[from..from + |pat|] != pat {
      FindFromSpec(s, pat, from + 1);
    }
  }

  /** The search from `from` finds `k` when `k` is the first occurrence. */
  lemma {:induction false} FindFromIs(s: seq<char>, pat: seq<char>, from: nat, k: nat)
    requires from <= k && OccursAt(s, pat, k)
    requires forall j :: from <= j < k ==> !OccursAt(s, pat, j)
    ensures FindFrom(s, pat, from) == Some(k)
    decreases k - from
  {
    if from < k {
      assert !OccursAt(s, pat, from);
      FindFromIs(s, pat, from + 1, k);
    }
  }

  /** The search from `from` finds nothing when nothing occurs from there. */
  lemma FindFromNone(s: seq<char>, pat: seq<char>, from: nat)
    requires forall j :: from <= j ==> !OccursAt(s, pat, j)
    ensures FindFrom(s, pat, from) == None
  {
    FindFromSpec(s, pat, from);
  }

  /** `str::find` / `str.find`: the first occurrence of `pat`. */
  function Find(s: seq<char>, pat: seq<char>): (r: Option<nat>)
    ensures r.Some? ==> OccursAt(s, pat, r.value)
    ensures r.Some? ==> forall j :: 0 <= j < r.value ==> !OccursAt(s, pat, j)
    ensures r.None? ==> forall j :: 0 <= j ==> !OccursAt(s, pat, j)
  {
    FindFromSpec(s, pat, 0);
    FindFrom(s, pat, 0)
  }

  /** Searching `p + q` from the end of `p` is searching `q`. */
  lemma {:induction false} FindFromShift(p: seq<char>, q: seq<char>, pat: seq<char>, from: nat)
    requires |p| <= from
    ensures FindFrom(q, pat, from - |p|).None? ==> FindFrom(p + q, pat, from).None?
    ensures FindFrom(q, pat, from - |p|).Some? ==> FindFrom(p + q, pat, from) == Some(FindFrom(q, pat, from - |p|).value + |p|)
    decreases |p| + |q| - from
  {
    var f := from - |p|;
    if from + |pat| <= |p| + |q| {
      SliceRight(p, q, from, from + |pat|);
      if (p + q)[from..from + |pat|] == pat {
        assert FindFrom(p + q, pat, from) == Some(from);
        assert FindFrom(q, pat, f) == Some(f);
      } else {
        FindFromShift(p, q, pat, from + 1);
        assert FindFrom(p + q, pat, from) == FindFrom(p + q, pat, from + 1);
        assert FindFrom(q, pat, f) == FindFrom(q, pat, f + 1);
      }
    } else {
      assert FindFrom(p + q, pat, from) == None;
      assert FindFrom(q, pat, f) == None;
    }
  }

  /** The middle part of a concatenation of three. */
  lemma SliceMiddle(d: seq<char>, pat: seq<char>, e: seq<char>)
    ensures (d + pat + e)[|d|..|d| + |pat|] == pat
  {
    var x := (d + pat + e)[|d|..|d| + |pat|];
    forall k | 0 <= k < |pat|
      ensures x[k] == pat[k]
    {
    }
  }

  /** A slice that lies in the right part of a concatenation. */
  lemma SliceRight(p: seq<char>, q: seq<char>, a: nat, b: nat)
    requires |p| <= a <= b <= |p| + |q|
    ensures (p + q)[a..b] == q[a - |p|..b - |p|]
  {
    var x, y := (p + q)[a..b], q[a - |p|..b - |p|];
    forall k | 0 <= k < b - a
      ensures x[k] == y[k]
    {
    }
  }

  /** `find` of one character: its first index, or absent. */
  lemma FindChar(s: seq<char>, c: char)
    ensures Find(s, [c]).Some? ==> var v := Find(s, [c]).value;
      v < |s| && s[v] == c && forall j :: 0 <= j < v ==> s[j] != c
    ensures Find(s, [c]).None? <==> c !in s
  {
    forall j | 0 <= j < |s| ensures OccursAt(s, [c], j) <==> s[j] == c {
      assert s[j..j + 1] == [s[j]];
    }
  }

  predicate Contains(s: seq<char>, pat: seq<char>) {
    Find(s, pat).Some?
  }

  lemma ContainsAt(s: seq<char>, pat: seq<char>, i: int)
    requires OccursAt(s, pat, i)
    ensures Contains(s, pat)
  {
  }

  /** `str::rfind` for one character: its last index. */
  function LastIndexOf(s: seq<char>, c: char): (r: Option<nat>)
    ensures r.Some? ==> r.value < |s| && s[r.value] == c
    ensures r.Some? ==> forall j :: r.value < j < |s| ==> s[j] != c
    ensures r.None? ==> c !in s
  {
    if s == [] then None
    else if s[|s| - 1] == c then Some(|s| - 1)
    else LastIndexOf(s[..|s| - 1], c)
  }

  /** The last `c` is at `p` when `c` is at `p` and nowhere after it. */
  lemma LastIndexOfAt(s: seq<char>, c: char, p: nat)
    requires p < |s| && s[p] == c
    requires forall j :: p < j < |s| ==> s[j] != c
    ensures LastIndexOf(s, c) == Some(p)
  {
  }

  /** `str::replace` / `str.replace`: every non-overlapping occurrence of
      `pat`, scanning left to right, becomes `rep`. */
  function ReplaceAll(s: seq<char>, pat: seq<char>, rep: seq<char>): seq<char>
    requires |pat| > 0
    decreases |s|
  {
    if |s| < |pat| then s
    else if s[..|pat|] == pat then rep + ReplaceAll(s[|pat|..], pat, rep)
    else [s[0]] + ReplaceAll(s[1..], pat, rep)
  }

  /** A replacement leaves text where the pattern occurs nowhere unchanged. */
  lemma ReplaceAllNone(t: seq<char>, pat: seq<char>, rep: seq<char>)
    requires |pat| > 0 && forall j :: 0 <= j < |t| ==> !OccursAt(t, pat, j)
    ensures ReplaceAll(t, pat, rep) == t
  {
    ReplaceAllAbsent(t, pat, rep);
  }

  /** A prefix where no occurrence of the pattern starts passes through a
      replacement unchanged. */
  lemma {:induction false} ReplaceAllKeep(x: seq<char>, y: seq<char>, pat: seq<char>, rep: seq<char>)
    requires |pat| > 0 && forall j :: 0 <= j < |x| ==> !OccursAt(x + y, pat, j)
    ensures ReplaceAll(x + y, pat, rep) == x + ReplaceAll(y, pat, rep)
    decreases |x|
  {
    if x != [] {
      var s := x + y;
      var t := s[1..];
      assert t == x[1..] + y;
      assert !OccursAt(s, pat, 0);
      assert ReplaceAll(s, pat, rep) == [s[0]] + ReplaceAll(t, pat, rep);
      forall j | 0 <= j < |x| - 1
        ensures !OccursAt(t, pat, j)
      {
        assert !OccursAt(s, pat, j + 1);
        if j + |pat| <= |t| {
          SliceOfSlice(s, 1, |s|, j, |pat|);
          assert s[1..|s|] == t;
        }
      }
      ReplaceAllKeep(x[1..], y, pat, rep);
      ConcatAssoc([s[0]], x[1..], ReplaceAll(y, pat, rep));
      assert [s[0]] + x[1..] == x;
    } else {
      assert x + y == y;
    }
  }

  /** A stretch without the pattern's first character passes through a
      replacement unchanged. */
  lemma ReplaceAllSkip(x: seq<char>, y: seq<char>, pat: seq<char>, rep: seq<char>)
    requires |pat| > 0 && pat[0] !in x
    ensures ReplaceAll(x + y, pat, rep) == x + ReplaceAll(y, pat, rep)
  {
    forall j | 0 <= j < |x| ensures !OccursAt(x + y, pat, j) {
      assert (x + y)[j] == x[j];
    }
    ReplaceAllKeep(x, y, pat, rep);
  }

  /** A stretch without the pattern's second character, followed by text
      that does not start with it, passes through a replacement unchanged. */
  lemma ReplaceAllSkipSecond(x: seq<char>, y: seq<char>, pat: seq<char>, rep: seq<char>)
    requires |pat| > 1 && pat[1] !in x && (y == [] || y[0] != pat[1])
    ensures ReplaceAll(x + y, pat, rep) == x + ReplaceAll(y, pat, rep)
  {
    forall j | 0 <= j < |x| ensures !OccursAt(x + y, pat, j) {
      if j + 1 < |x| {
        assert (x + y)[j + 1] == x[j + 1];
      }
    }
    ReplaceAllKeep(x, y, pat, rep);
  }

  /** A replacement steps over a character where the pattern fails to match
      at offset `k`. */
  lemma ReplaceAllStep(s: seq<char>, pat: seq<char>, rep: seq<char>, k: nat)
    requires |pat| > 0 && |s| > 0 && k < |pat| && (k < |s| ==> s[k] != pat[k])
    ensures ReplaceAll(s, pat, rep) == [s[0]] + ReplaceAll(s[1..], pat, rep)
  {
    if |s| >= |pat| {
      assert s[..|pat|][k] != pat[k];
    }
  }

  /** A one-character pattern: the first character is replaced or kept. */
  lemma ReplaceCharStep(s: seq<char>, c: char, rep: seq<char>)
    requires |s| > 0
    ensures ReplaceAll(s, [c], rep) == (if s[0] == c then rep else [s[0]]) + ReplaceAll(s[1..], [c], rep)
  {
    assert s[..1][0] == s[0];
    if s[0] == c {
      assert s[..1] == [c];
    }
  }

  /** A pattern whose first character is absent occurs nowhere. */
  lemma FirstCharAbsent(s: seq<char>, pat: seq<char>)
    requires |pat| > 0 && pat[0] !in s
    ensures !Contains(s, pat)
  {
    forall j | 0 <= j && j + |pat| <= |s|
      ensures !OccursAt(s, pat, j)
    {
      assert s[j..j + |pat|][0] == s[j];
    }
  }

  /** A character that does not occur is not replaced. */
  lemma ReplaceCharAbsent(s: seq<char>, c: char, rep: seq<char>)
    requires c !in s
    ensures ReplaceAll(s, [c], rep) == s
  {
    FirstCharAbsent(s, [c]);
    ReplaceAllAbsent(s, [c], rep);
  }

  /** A character that occurs once is replaced there, and only there. */
  lemma ReplaceCharOnce(x: seq<char>, c: char, y: seq<char>, rep: seq<char>)
    requires c !in x && c !in y
    ensures ReplaceAll(x + [c] + y, [c], rep) == x + rep + y
  {
    assert x + [c] + y == x + ([c] + y);
    ReplaceAllSkip(x, [c] + y, [c], rep);
    ReplaceAllHere([c], y, rep);
    ReplaceCharAbsent(y, c, rep);
  }

  /** A replacement at the front of the text. */
  lemma ReplaceAllHere(pat: seq<char>, y: seq<char>, rep: seq<char>)
    requires |pat| > 0
    ensures ReplaceAll(pat + y, pat, rep) == rep + ReplaceAll(y, pat, rep)
  {
    assert (pat + y)[..|pat|] == pat;
    assert (pat + y)[|pat|..] == y;
  }

  /** `str::replacen(pat, rep, 1)` / `str.replace(pat, rep, 1)`. */
  function ReplaceFirst(s: seq<char>, pat: seq<char>, rep: seq<char>): seq<char> {
    match Find(s, pat)
    case None => s
    case Some(i) => s[..i] + rep + s[i + |pat|..]
  }

  /** Replacing the first occurrence found at `i`. */
  lemma ReplaceFirstAt(s: seq<char>, pat: seq<char>, rep: seq<char>, i: nat)
    requires Find(s, pat) == Some(i)
    ensures ReplaceFirst(s, pat, rep) == s[..i] + rep + s[i + |pat|..]
  {
  }

  /** No `a` immediately followed by `b`. */
  predicate NoPair(s: seq<char>, a: char, b: char) {
    forall i :: 0 <= i < |s| - 1 ==> !(s[i] == a && s[i + 1] == b)
  }

  /** Without the pair anywhere, the two-character text is not found. */
  lemma NoPairNotContains(s: seq<char>, a: char, b: char)
    requires NoPair(s, a, b)
    ensures !Contains(s, [a, b])
  {
    forall j | 0 <= j ensures !OccursAt(s, [a, b], j) {
      if j + 2 <= |s| {
        assert s[j..j + 2] == [s[j], s[j + 1]];
      }
    }
    FindFromNone(s, [a, b], 0);
  }

  /** The tail of a text without the pair has none either. */
  lemma NoPairTail(s: seq<char>, k: nat, a: char, b: char)
    requires NoPair(s, a, b) && k <= |s|
    ensures NoPair(s[k..], a, b)
  {
    var t := s[k..];
    forall i | 0 <= i < |t| - 1 ensures !(t[i] == a && t[i + 1] == b) {
      assert t[i] == s[k + i] && t[i + 1] == s[k + i + 1];
    }
  }

  /** Replacing `ab` by `b` (as " )" by ")") leaves no `ab` behind when no
      two `a`s were adjacent: the `b` that a deletion brings forward cannot
      follow an `a`, and a kept `a` is never followed by a `b`. */
  lemma {:induction false} ReplacePairBySecond(s: seq<char>, a: char, b: char)
    requires a != b && NoPair(s, a, a)
    ensures var r := ReplaceAll(s, [a, b], [b]);
      && NoPair(r, a, b)
      && (|s| > 0 ==> |r| > 0 && r[0] == if |s| >= 2 && s[0] == a && s[1] == b then b else s[0])
    decreases |s|
  {
    var r := ReplaceAll(s, [a, b], [b]);
    if |s| >= 2 {
      assert s[..2] == [s[0], s[1]];
      if s[..2] == [a, b] {
        var t := s[2..];
        NoPairTail(s, 2, a, a);
        ReplacePairBySecond(t, a, b);
        var rt := ReplaceAll(t, [a, b], [b]);
        assert r == [b] + rt;
        forall i | 0 <= i < |r| - 1 ensures !(r[i] == a && r[i + 1] == b) {
          if i > 0 {
            assert r[i] == rt[i - 1] && r[i + 1] == rt[i];
          }
        }
      } else {
        var t := s[1..];
        NoPairTail(s, 1, a, a);
        ReplacePairBySecond(t, a, b);
        var rt := ReplaceAll(t, [a, b], [b]);
        assert r == [s[0]] + rt;
        assert rt[0] == t[0] || (t[0] == a && rt[0] == b);
        forall i | 0 <= i < |r| - 1 ensures !(r[i] == a && r[i + 1] == b) {
          if i > 0 {
            assert r[i] == rt[i - 1] && r[i + 1] == rt[i];
          } else {
            assert r[0] == s[0] && r[1] == rt[0] && t[0] == s[1];
          }
        }
      }
    }
  }

  /** Replacing `ab` by `a` (as "( " by "(") keeps the first character, and
      leaves no `ab` behind when no two `b`s were adjacent. */
  lemma {:induction false} ReplacePairByFirst(s: seq<char>, a: char, b: char)
    requires a != b && NoPair(s, b, b)
    ensures var r := ReplaceAll(s, [a, b], [a]);
      NoPair(r, a, b) && (|s| > 0 ==> |r| > 0 && r[0] == s[0])
    decreases |s|
  {
    var r := ReplaceAll(s, [a, b], [a]);
    if |s| >= 2 {
      assert s[..2] == [s[0], s[1]];
      if s[..2] == [a, b] {
        var t := s[2..];
        NoPairTail(s, 2, b, b);
        ReplacePairByFirst(t, a, b);
        var rt := ReplaceAll(t, [a, b], [a]);
        assert r == [a] + rt;
        forall i | 0 <= i < |r| - 1 ensures !(r[i] == a && r[i + 1] == b) {
          if i > 0 {
            assert r[i] == rt[i - 1] && r[i + 1] == rt[i];
          } else {
            assert r[1] == t[0] == s[2];
          }
        }
      } else {
        var t := s[1..];
        NoPairTail(s, 1, b, b);
        ReplacePairByFirst(t, a, b);
        var rt := ReplaceAll(t, [a, b], [a]);
        assert r == [s[0]] + rt;
        forall i | 0 <= i < |r| - 1 ensures !(r[i] == a && r[i + 1] == b) {
          if i > 0 {
            assert r[i] == rt[i - 1] && r[i + 1] == rt[i];
          } else {
            assert r[1] == t[0] == s[1];
          }
        }
      }
    }
  }

  /** Replacing `ab` by `a` creates no pair `cd` with `c` other than `a`:
      the only new neighbours are an `a` and what followed the `b`. */
  lemma {:induction false} ReplacePairByFirstKeeps(s: seq<char>, a: char, b: char, c: char, d: char)
    requires c != a && NoPair(s, c, d)
    ensures var r := ReplaceAll(s, [a, b], [a]);
      NoPair(r, c, d) && (|s| > 0 ==> |r| > 0 && r[0] == s[0])
    decreases |s|
  {
    var r := ReplaceAll(s, [a, b], [a]);
    if |s| >= 2 {
      assert s[..2] == [s[0], s[1]];
      var k := if s[..2] == [a, b] then 2 else 1;
      var t := s[k..];
      NoPairTail(s, k, c, d);
      ReplacePairByFirstKeeps(t, a, b, c, d);
      var rt := ReplaceAll(t, [a, b], [a]);
      assert r == [s[0]] + rt;
      forall i | 0 <= i < |r| - 1 ensures !(r[i] == c && r[i + 1] == d) {
        if i > 0 {
          assert r[i] == rt[i - 1] && r[i + 1] == rt[i];
        } else if k == 1 {
          assert r[1] == t[0] == s[1];
        }
      }
    }
  }

  lemma {:induction false} ReplaceAllAbsent(s: seq<char>, pat: seq<char>, rep: seq<char>)
    requires |pat| > 0 && !Contains(s, pat)
    ensures ReplaceAll(s, pat, rep) == s
    decreases |s|
  {
    if |s| >= |pat| {
      assert !OccursAt(s, pat, 0);
      forall j | 0 <= j ensures !OccursAt(s[1..], pat, j) {
        if j + |pat| <= |s| - 1 {
          assert s[1..][j..j + |pat|] == s[j + 1..j + 1 + |pat|];
        }
        assert !OccursAt(s, pat, j + 1);
      }
      ReplaceAllAbsent(s[1..], pat, rep);
    }
  }

  /** Replacing a one-character pattern by text without that character leaves
      none of it behind. */
  lemma {:induction false} ReplaceAllRemovesChar(s: seq<char>, c: char, rep: seq<char>)
    requires c !in rep
    ensures c !in ReplaceAll(s, [c], rep)
    decreases |s|
  {
    if |s| >= 1 {
      ReplaceAllRemovesChar(s[1..], c, rep);
    }
  }

  /** A replacement keeps a character that neither the pattern nor the
      replacement contains out of the result if it was absent. */
  lemma {:induction false} ReplaceAllKeepsAbsent(s: seq<char>, pat: seq<char>, rep: seq<char>, c: char)
    requires |pat| > 0 && c !in s && c !in rep
    ensures c !in ReplaceAll(s, pat, rep)
    decreases |s|
  {
    if |s| >= |pat| {
      if s[..|pat|] == pat {
        ReplaceAllKeepsAbsent(s[|pat|..], pat, rep, c);
      } else {
        ReplaceAllKeepsAbsent(s[1..], pat, rep, c);
      }
    }
  }

  /** Deleting every occurrence of a pattern never lengthens the text, and
      shortens it by at least the pattern's length when it occurs. */
  lemma ReplaceAllDeleteLength(s: seq<char>, pat: seq<char>)
    requires |pat| > 0
    ensures |ReplaceAll(s, pat, [])| <= |s|
    ensures Contains(s, pat) ==> |ReplaceAll(s, pat, [])| <= |s| - |pat|
  {
    ReplaceAllDeleteShorter(s, pat);
    if Contains(s, pat) {
      ReplaceAllDeleteAt(s, pat, Find(s, pat).value);
    }
  }

  lemma {:induction false} ReplaceAllDeleteShorter(s: seq<char>, pat: seq<char>)
    requires |pat| > 0
    ensures |ReplaceAll(s, pat, [])| <= |s|
    decreases |s|
  {
    if |s| >= |pat| {
      if s[..|pat|] == pat {
        ReplaceAllDeleteShorter(s[|pat|..], pat);
      } else {
        ReplaceAllDeleteShorter(s[1..], pat);
      }
    }
  }

  lemma {:induction false} ReplaceAllDeleteAt(s: seq<char>, pat: seq<char>, i: nat)
    requires |pat| > 0 && OccursAt(s, pat, i)
    ensures |ReplaceAll(s, pat, [])| <= |s| - |pat|
    decreases |s|
  {
    if s[..|pat|] == pat {
      var t := s[|pat|..];
      ReplaceAllDeleteShorter(t, pat);
      assert ReplaceAll(s, pat, []) == ReplaceAll(t, pat, []);
    } else {
      assert i != 0;
      var t := s[1..];
      assert t[i - 1..i - 1 + |pat|] == s[i..i + |pat|];
      ReplaceAllDeleteAt(t, pat, i - 1);
      assert ReplaceAll(s, pat, []) == [s[0]] + ReplaceAll(t, pat, []);
    }
  }

  /** `str::contains` of a pattern holds of a text that contains the
      pattern surrounded by more text. */
  lemma ContainsInner(s: seq<char>, d: seq<char>, pat: seq<char>, e: seq<char>)
    requires Contains(s, d + pat + e)
    ensures Contains(s, pat)
  {
    var w := d + pat + e;
    var i := Find(s, w).value;
    assert s[i..i + |w|] == w;
    SliceMiddle(d, pat, e);
    SliceOfSlice(s, i, i + |w|, |d|, |pat|);
    ContainsAt(s, pat, i + |d|);
  }

  lemma ConcatAssoc(a: seq<char>, b: seq<char>, c: seq<char>)
    ensures a + b + c == a + (b + c)
  {
  }

  /** A slice cut at four inner points. */
  lemma SliceParts(s: seq<char>, a: nat, b: nat, c: nat, d: nat, f: nat, g: nat)
    requires a <= b <= c <= d <= f <= g <= |s|
    ensures s[a..g] == s[a..b] + s[b..c] + s[c..d] + s[d..f] + s[f..g]
  {
    assert s[a..c] == s[a..b] + s[b..c];
    assert s[a..d] == s[a..c] + s[c..d];
    assert s[a..f] == s[a..d] + s[d..f];
    assert s[a..g] == s[a..f] + s[f..g];
  }

  /** A common first character can be cancelled. */
  lemma ConsCancel(c: char, a: seq<char>, b: seq<char>)
    ensures [c] + a == [c] + b <==> a == b
  {
    if [c] + a == [c] + b {
      assert a == ([c] + a)[1..];
    }
  }

  /** A text contains its own suffix. */
  lemma ContainsSuffix(s: seq<char>, pat: seq<char>)
    ensures Contains(s + pat, pat)
  {
    assert (s + pat)[|s|..|s| + |pat|] == pat;
    ContainsAt(s + pat, pat, |s|);
  }

  function TrimStartBy(s: seq<char>, p: char -> bool): (r: seq<char>)
    ensures |r| <= |s| && r == s[|s| - |r|..]
    ensures r == [] || !p(r[0])
    ensures forall i :: 0 <= i < |s| - |r| ==> p(s[i])
  {
    if s == [] || !p(s[0]) then s else TrimStartBy(s[1..], p)
  }

  function TrimEndBy(s: seq<char>, p: char -> bool): (r: seq<char>)
    ensures |r| <= |s| && r == s[..|r|]
    ensures r == [] || !p(r[|r| - 1])
    ensures forall i :: |r| <= i < |s| ==> p(s[i])
  {
    if s == [] || !p(s[|s| - 1]) then s else TrimEndBy(s[..|s| - 1], p)
  }

  /** Rust's `str::trim`. */
  function Trim(s: seq<char>): seq<char> {
    TrimStartBy(TrimEndBy(s, IsSpace), IsSpace)
  }

  /** Python's `str.strip()`. */
  function PyStrip(s: seq<char>): seq<char> {
    TrimStartBy(TrimEndBy(s, IsPySpace), IsPySpace)
  }

  predicate IsTrimmedBy(s: seq<char>, p: char -> bool) {
    s == [] || (!p(s[0]) && !p(s[|s| - 1]))
  }

  lemma TrimIsTrimmed(s: seq<char>)
    ensures IsTrimmedBy(Trim(s), IsSpace)
  {
    TrimEndStaysTrimmed(TrimEndBy(s, IsSpace), IsSpace);
  }

  lemma PyStripIsTrimmed(s: seq<char>)
    ensures IsTrimmedBy(PyStrip(s), IsPySpace)
  {
    TrimEndStaysTrimmed(TrimEndBy(s, IsPySpace), IsPySpace);
  }

  /** Trimming the front of a text whose end is trimmed trims both ends. */
  lemma TrimEndStaysTrimmed(e: seq<char>, p: char -> bool)
    requires e == [] || !p(e[|e| - 1])
    ensures IsTrimmedBy(TrimStartBy(e, p), p)
  {
    var r := TrimStartBy(e, p);
    if r != [] {
      assert r[|r| - 1] == e[|e| - 1];
    }
  }

  /** Trimming text that is already trimmed changes nothing. */
  lemma TrimmedFixed(s: seq<char>, p: char -> bool)
    requires IsTrimmedBy(s, p)
    ensures TrimStartBy(TrimEndBy(s, p), p) == s
  {
  }

  /** Every piece of a trimmed text is a slice of it. */
  lemma TrimIsSlice(s: seq<char>, p: char -> bool)
    ensures exists k, m :: 0 <= k <= m <= |s| && TrimStartBy(TrimEndBy(s, p), p) == s[k..m]
  {
    var e := TrimEndBy(s, p);
    var r := TrimStartBy(e, p);
    assert r == s[|e| - |r|..|e|];
  }

  /** A slice of a slice is a slice of the whole. */
  lemma SliceOfSlice(s: seq<char>, k: nat, m: nat, j: nat, n: nat)
    requires k <= m <= |s| && j + n <= m - k
    ensures s[k..m][j..j + n] == s[k + j..k + j + n]
  {
    var a, b := s[k..m][j..j + n], s[k + j..k + j + n];
    forall x | 0 <= x < n
      ensures a[x] == b[x]
    {
    }
  }

  /** A text that does not contain `pat` has no slice that does. */
  lemma SliceNotContains(s: seq<char>, k: nat, m: nat, pat: seq<char>)
    requires k <= m <= |s| && !Contains(s, pat)
    ensures !Contains(s[k..m], pat)
  {
    var t := s[k..m];
    assert Find(s, pat).None?;
    forall j: nat | j + |pat| <= |t|
      ensures !OccursAt(t, pat, j)
    {
      SliceOfSlice(s, k, m, j, |pat|);
      assert !OccursAt(s, pat, k + j);
    }
  }

  /** `str::trim_start_matches(pat)`: removes `pat` from the front as often as
      it is there. */
  function TrimStartMatches(s: seq<char>, pat: seq<char>): (r: seq<char>)
    requires |pat| > 0
    ensures !StartsWith(r, pat)
    decreases |s|
  {
    if StartsWith(s, pat) then TrimStartMatches(s[|pat|..], pat) else s
  }

  /** `splitn(2, pat)` / `split(pat, 1)`: the text before and after the first
      occurrence of `pat`. */
  function SplitOnce(s: seq<char>, pat: seq<char>): Option<(seq<char>, seq<char>)> {
    match Find(s, pat)
    case None => None
    case Some(i) => Some((s[..i], s[i + |pat|..]))
  }

  /** `str::split(pred)`: the pieces between separator characters, empty
      pieces included. */
  function SplitBy(s: seq<char>, sep: char -> bool): (r: seq<seq<char>>)
    ensures |r| >= 1
    decreases |s|
  {
    if s == [] then [[]]
    else
      var rest := SplitBy(s[1..], sep);
      if sep(s[0]) then [[]] + rest else [[s[0]] + rest[0]] + rest[1..]
  }

  /** Text without a separator is one piece. */
  lemma {:induction false} SplitByNone(s: seq<char>, sep: char -> bool)
    requires forall i :: 0 <= i < |s| ==> !sep(s[i])
    ensures SplitBy(s, sep) == [s]
    decreases |s|
  {
    if s != [] {
      SplitByNone(s[1..], sep);
      assert [s[0]] + s[1..] == s;
    }
  }

  /** Python's `str.split()` with no argument: the non-empty runs between
      whitespace. */
  function SplitWhitespace(s: seq<char>): seq<seq<char>>
    decreases |s|
  {
    var t := TrimStartBy(s, IsPySpace);
    if t == [] then []
    else
      var word := TakeWhileNot(t);
      [word] + SplitWhitespace(t[|word|..])
  }

  /** The longest prefix holding no Python whitespace. */
  function TakeWhileNot(s: seq<char>): (r: seq<char>)
    ensures |r| <= |s| && r == s[..|r|]
    ensures s != [] && !IsPySpace(s[0]) ==> |r| > 0
    ensures forall i :: 0 <= i < |r| ==> !IsPySpace(r[i])
  {
    if s == [] || IsPySpace(s[0]) then [] else [s[0]] + TakeWhileNot(s[1..])
  }

  function Join(parts: seq<seq<char>>, sep: seq<char>): seq<char> {
    if parts == [] then []
    else if |parts| == 1 then parts[0]
    else parts[0] + sep + Join(parts[1..], sep)
  }

  function Reverse(s: seq<char>): (r: seq<char>)
    ensures |r| == |s|
    ensures forall i :: 0 <= i < |s| ==> r[i] == s[|s| - 1 - i]
  {
    if s == [] then [] else Reverse(s[1..]) + [s[0]]
  }

  lemma ReverseReverse(s: seq<char>)
    ensures Reverse(Reverse(s)) == s
  {
  }

  function Repeat(c: char, n: nat): (r: seq<char>)
    ensures |r| == n && forall i :: 0 <= i < n ==> r[i] == c
  {
    if n == 0 then [] else [c] + Repeat(c, n - 1)
  }

  /** Number of occurrences of `c` (`str::matches(c).count()`, `str.count(c)`). */
  function Count(s: seq<char>, c: char): nat {
    if s == [] then 0 else Count(s[..|s| - 1], c) + (if s[|s| - 1] == c then 1 else 0)
  }

  lemma {:induction false} CountAppend(a: seq<char>, b: seq<char>, c: char)
    ensures Count(a + b, c) == Count(a, c) + Count(b, c)
    decreases |b|
  {
    if b != [] {
      assert (a + b)[..|a + b| - 1] == a + b[..|b| - 1];
      CountAppend(a, b[..|b| - 1], c);
    } else {
      assert a + b == a;
    }
  }

  lemma {:induction false} CountAbsent(s: seq<char>, c: char)
    requires c !in s
    ensures Count(s, c) == 0
    decreases |s|
  {
    if s != [] {
      CountAbsent(s[..|s| - 1], c);
    }
  }

  lemma {:induction false} CountRepeat(c: char, n: nat, d: char)
    ensures Count(Repeat(c, n), d) == if c == d then n else 0
    decreases n
  {
    if n > 0 {
      assert Repeat(c, n) == Repeat(c, n - 1) + [c];
      CountAppend(Repeat(c, n - 1), [c], d);
      CountRepeat(c, n - 1, d);
      assert [c][..0] == [];
    }
  }

  /** Lexicographic order by code point: Rust's `str::cmp` and Python's
      string comparison. */
  function CompareStrings(a: seq<char>, b: seq<char>): (r: Ordering)
    ensures r == Equal <==> a == b
    decreases |a|
  {
    if a == [] then (if b == [] then Equal else Less)
    else if b == [] then Greater
    else if a[0] < b[0] then Less
    else if a[0] > b[0] then Greater
    else
      var r := CompareStrings(a[1..], b[1..]);
      assert a == [a[0]] + a[1..] && b == [b[0]] + b[1..];
      r
  }

  /** Swapping the operands swaps Less and Greater. */
  lemma {:induction false} CompareStringsFlip(a: seq<char>, b: seq<char>)
    ensures CompareStrings(a, b) == Less <==> CompareStrings(b, a) == Greater
    decreases |a|
  {
    if a != [] && b != [] && a[0] == b[0] {
      CompareStringsFlip(a[1..], b[1..]);
    }
  }
}
