/** The handful of regular expressions whose behaviour the properties depend
    on, written out by hand: runs of a character class (`\s+`, `\s{2,}`,
    `[<>|!]+`), single-character classes (`[\\/<>|:*?]`) and the
    whitespace-collapsing helpers built on them. A regex `replace_all` scans
    left to right and replaces leftmost, greedy, non-overlapping matches; for
    a pattern that is a run of one character class, those matches are exactly
    the maximal runs. */
module Patterns {
  import opened Strings

  /** Length of the run of `p`-characters at the front of `s`. */
  function RunLen(s: seq<char>, p: char -> bool): (n: nat)
    ensures n <= |s|
    ensures forall i :: 0 <= i < n ==> p(s[i])
    ensures n < |s| ==> !p(s[n])
    decreases |s|
  {
    if s == [] || !p(s[0]) then 0 else 1 + RunLen(s[1..], p)
  }

  /** `regex.replace_all(s, rep)` for the pattern "a run of at least `min`
      characters of class `p`" (greedy): every maximal run that long becomes
      `rep`, shorter runs stay. */
  function ReplaceRuns(s: seq<char>, p: char -> bool, min: nat, rep: seq<char>): seq<char>
    requires min >= 1
    decreases |s|
  {
    if s == [] then []
    else if !p(s[0]) then [s[0]] + ReplaceRuns(s[1..], p, min, rep)
    else
      var n := RunLen(s, p);
      (if n >= min then rep else s[..n]) + ReplaceRuns(s[n..], p, min, rep)
  }

  /** `regex.replace_all(s, f(c))` for a single-character class: each
      character is replaced on its own. */
  function MapChars(s: seq<char>, f: char -> seq<char>): (r: seq<char>)
    decreases |s|
  {
    if s == [] then [] else f(s[0]) + MapChars(s[1..], f)
  }

  /** No two adjacent characters of class `p`. */
  predicate NoAdjacent(s: seq<char>, p: char -> bool) {
    forall i :: 0 <= i < |s| - 1 ==> !(p(s[i]) && p(s[i + 1]))
  }

  /** Every character of class `p` in `s` is `c`. */
  predicate OnlyAs(s: seq<char>, p: char -> bool, c: char) {
    forall i :: 0 <= i < |s| && p(s[i]) ==> s[i] == c
  }

  lemma NoAdjacentCons(c: char, s: seq<char>, p: char -> bool)
    requires NoAdjacent(s, p) && (s == [] || !p(c) || !p(s[0]))
    ensures NoAdjacent([c] + s, p)
  {
    assert forall i :: 1 <= i < |[c] + s| ==> ([c] + s)[i] == s[i - 1];
  }

  lemma NoAdjacentAppend(a: seq<char>, s: seq<char>, p: char -> bool)
    requires NoAdjacent(a, p) && NoAdjacent(s, p)
    requires a == [] || s == [] || !p(a[|a| - 1]) || !p(s[0])
    ensures NoAdjacent(a + s, p)
  {
    forall i | 0 <= i < |a + s| - 1
      ensures !(p((a + s)[i]) && p((a + s)[i + 1]))
    {
      if i + 1 < |a| {
        assert (a + s)[i] == a[i] && (a + s)[i + 1] == a[i + 1];
      } else if i >= |a| {
        assert (a + s)[i] == s[i - |a|] && (a + s)[i + 1] == s[i + 1 - |a|];
      }
    }
  }

  /** Replacing the runs keeps a leading character outside the class. */
  lemma ReplaceRunsHead(s: seq<char>, p: char -> bool, min: nat, rep: seq<char>)
    requires min >= 1 && s != [] && !p(s[0])
    ensures ReplaceRuns(s, p, min, rep) != [] && ReplaceRuns(s, p, min, rep)[0] == s[0]
  {
  }

  /** After replacing every run of two or more with a single character of
      the class, no two class characters are adjacent: a run of one stays a
      run of one, and a longer run becomes one character followed by a
      character outside the class (the run was maximal). */
  lemma {:induction false} ReplaceRunsNoAdjacent(s: seq<char>, p: char -> bool, min: nat, rep: seq<char>)
    requires 1 <= min <= 2 && |rep| <= 1 && NoAdjacent(rep, p)
    ensures NoAdjacent(ReplaceRuns(s, p, min, rep), p)
    decreases |s|
  {
    if s != [] {
      if !p(s[0]) {
        ReplaceRunsNoAdjacent(s[1..], p, min, rep);
        NoAdjacentCons(s[0], ReplaceRuns(s[1..], p, min, rep), p);
      } else {
        var n := RunLen(s, p);
        var head := if n >= min then rep else s[..n];
        var tail := ReplaceRuns(s[n..], p, min, rep);
        ReplaceRunsNoAdjacent(s[n..], p, min, rep);
        if n < |s| {
          ReplaceRunsHead(s[n..], p, min, rep);
        }
        assert |head| <= 1;
        NoAdjacentAppend(head, tail, p);
      }
    }
  }

  /** After replacing every run with `rep`, the only class characters left
      are those of `rep`. */
  lemma {:induction false} ReplaceRunsOnly(s: seq<char>, p: char -> bool, rep: seq<char>, c: char)
    requires OnlyAs(rep, p, c)
    ensures OnlyAs(ReplaceRuns(s, p, 1, rep), p, c)
    decreases |s|
  {
    if s != [] {
      var n := if p(s[0]) then RunLen(s, p) else 1;
      var head := if p(s[0]) then rep else [s[0]];
      ReplaceRunsOnly(s[n..], p, rep, c);
      assert ReplaceRuns(s, p, 1, rep) == head + ReplaceRuns(s[n..], p, 1, rep);
    }
  }

  /** Replacing every run by text with no class character leaves none. */
  lemma {:induction false} ReplaceRunsRemoves(s: seq<char>, p: char -> bool, rep: seq<char>)
    requires forall i :: 0 <= i < |rep| ==> !p(rep[i])
    ensures forall i :: 0 <= i < |ReplaceRuns(s, p, 1, rep)| ==> !p(ReplaceRuns(s, p, 1, rep)[i])
    decreases |s|
  {
    if s != [] {
      var n := if p(s[0]) then RunLen(s, p) else 1;
      var head := if p(s[0]) then rep else [s[0]];
      ReplaceRunsRemoves(s[n..], p, rep);
      assert ReplaceRuns(s, p, 1, rep) == head + ReplaceRuns(s[n..], p, 1, rep);
    }
  }

  /** A character outside the class and outside `rep` stays out. */
  lemma {:induction false} ReplaceRunsKeepsAbsent(s: seq<char>, p: char -> bool, min: nat, rep: seq<char>, c: char)
    requires min >= 1 && c !in s && c !in rep
    ensures c !in ReplaceRuns(s, p, min, rep)
    decreases |s|
  {
    if s != [] {
      if !p(s[0]) {
        ReplaceRunsKeepsAbsent(s[1..], p, min, rep, c);
      } else {
        var n := RunLen(s, p);
        assert c !in s[..n];
        ReplaceRunsKeepsAbsent(s[n..], p, min, rep, c);
      }
    }
  }

  lemma {:induction false} MapCharsLength(s: seq<char>, f: char -> seq<char>)
    requires forall c :: |f(c)| == 1
    ensures |MapChars(s, f)| == |s|
    ensures forall i :: 0 <= i < |s| ==> MapChars(s, f)[i] == f(s[i])[0]
    decreases |s|
  {
    if s != [] {
      MapCharsLength(s[1..], f);
    }
  }

  /** A character no image contains is absent from the result. */
  lemma {:induction false} MapCharsAbsent(s: seq<char>, f: char -> seq<char>, c: char)
    requires forall d :: c !in f(d)
    ensures c !in MapChars(s, f)
    decreases |s|
  {
    if s != [] {
      MapCharsAbsent(s[1..], f, c);
    }
  }

  /** Trimming keeps the two properties the collapse establishes. */
  lemma TrimKeepsNoAdjacent(s: seq<char>, p: char -> bool, q: char -> bool)
    requires NoAdjacent(s, p)
    ensures NoAdjacent(TrimStartBy(TrimEndBy(s, q), q), p)
  {
    var e := TrimEndBy(s, q);
    var t := TrimStartBy(e, q);
    assert e == s[..|e|];
    assert t == e[|e| - |t|..];
    forall i | 0 <= i < |t| - 1 ensures !(p(t[i]) && p(t[i + 1])) {
      assert t[i] == s[|e| - |t| + i] && t[i + 1] == s[|e| - |t| + i + 1];
    }
  }

  lemma TrimKeepsOnlyAs(s: seq<char>, p: char -> bool, c: char, q: char -> bool)
    requires OnlyAs(s, p, c)
    ensures OnlyAs(TrimStartBy(TrimEndBy(s, q), q), p, c)
  {
    var e := TrimEndBy(s, q);
    var t := TrimStartBy(e, q);
    assert e == s[..|e|];
    assert t == e[|e| - |t|..];
    forall i | 0 <= i < |t| && p(t[i]) ensures t[i] == c {
      assert t[i] == s[|e| - |t| + i];
    }
  }

  lemma TrimKeepsAbsent(s: seq<char>, c: char, q: char -> bool)
    requires c !in s
    ensures c !in TrimStartBy(TrimEndBy(s, q), q)
  {
    var e := TrimEndBy(s, q);
    assert e == s[..|e|];
    var t := TrimStartBy(e, q);
    assert t == e[|e| - |t|..];
  }

  /** `fix_whitespace` (src/formatting.rs:480-482): runs of two or more
      whitespace characters become one space, then the text is trimmed. */
  function FixWhitespace(text: seq<char>): (r: seq<char>)
    ensures NoAdjacent(r, IsSpace)
    ensures IsTrimmedBy(r, IsSpace)
  {
    var collapsed := ReplaceRuns(text, IsSpace, 2, " ");
    ReplaceRunsNoAdjacent(text, IsSpace, 2, " ");
    TrimKeepsNoAdjacent(collapsed, IsSpace, IsSpace);
    TrimIsTrimmed(collapsed);
    Trim(collapsed)
  }

  /** `\s+` replaced by a single space: no whitespace run survives and the
      only whitespace left is the space character. */
  lemma CollapseSpaces(s: seq<char>)
    ensures NoAdjacent(ReplaceRuns(s, IsSpace, 1, " "), IsSpace)
    ensures OnlyAs(ReplaceRuns(s, IsSpace, 1, " "), IsSpace, ' ')
  {
    ReplaceRunsNoAdjacent(s, IsSpace, 1, " ");
    ReplaceRunsOnly(s, IsSpace, " ", ' ');
  }

  /** Text with no two adjacent class characters has no run of two to
      replace. */
  lemma {:induction false} ReplaceRunsNoRun(s: seq<char>, p: char -> bool, rep: seq<char>)
    requires NoAdjacent(s, p)
    ensures ReplaceRuns(s, p, 2, rep) == s
    decreases |s|
  {
    if s != [] {
      assert NoAdjacent(s[1..], p) by {
        forall i | 0 <= i < |s[1..]| - 1 ensures !(p(s[1..][i]) && p(s[1..][i + 1])) {
          assert s[1..][i] == s[i + 1] && s[1..][i + 1] == s[i + 2];
        }
      }
      ReplaceRunsNoRun(s[1..], p, rep);
      if p(s[0]) {
        assert RunLen(s, p) == 1 by {
          if |s| > 1 {
            assert !p(s[1]);
          }
        }
        assert s[..1] + s[1..] == s;
      }
    }
  }

  /** Trimming text that is already trimmed changes nothing. */
  lemma TrimTrimmed(s: seq<char>)
    requires IsTrimmedBy(s, IsSpace)
    ensures Trim(s) == s
  {
  }

  /** Fixing the white space twice is fixing it once. */
  lemma FixWhitespaceIdempotent(text: seq<char>)
    ensures FixWhitespace(FixWhitespace(text)) == FixWhitespace(text)
  {
    var once := FixWhitespace(text);
    ReplaceRunsNoRun(once, IsSpace, " ");
    TrimTrimmed(once);
  }

  // ---------------------------------------------------------------------
  // Bracket patterns shared by the regex tables

  predicate IsOpenBracket(c: char) { c == '[' || c == '{' }
  predicate IsCloseBracket(c: char) { c == ']' || c == '}' }

  /** `\(\s*?\)` replaced by "": a "(" with nothing but white space before
      the next ")" is deleted together with it. Nothing is added. */
  function DropEmptyGroups(s: seq<char>, space: char -> bool): (r: seq<char>)
    ensures |r| <= |s|
    ensures forall i :: 0 <= i < |r| ==> r[i] in s
    decreases |s|
  {
    if s == [] then []
    else
      var n := RunLen(s[1..], space);
      if s[0] == '(' && 1 + n < |s| && s[1 + n] == ')' then
        var r := DropEmptyGroups(s[n + 2..], space);
        assert forall i :: 0 <= i < |r| ==> r[i] in s by {
          forall i | 0 <= i < |r| ensures r[i] in s {
            var j :| 0 <= j < |s[n + 2..]| && s[n + 2..][j] == r[i];
            assert s[n + 2 + j] == r[i];
          }
        }
        r
      else
        var r := DropEmptyGroups(s[1..], space);
        assert forall i :: 0 <= i < |r| ==> r[i] in s by {
          forall i | 0 <= i < |r| ensures r[i] in s {
            var j :| 0 <= j < |s[1..]| && s[1..][j] == r[i];
            assert s[1 + j] == r[i];
          }
        }
        [s[0]] + r
  }

  /** `(\S)\(` replaced by `\1 (`: a space goes in between a character that
      is not white space and a "(" right after it. Only spaces are added. */
  function SpaceBeforeOpen(s: seq<char>, space: char -> bool): (r: seq<char>)
    ensures |r| >= |s|
    ensures forall i :: 0 <= i < |r| ==> r[i] in s || r[i] == ' '
    decreases |s|
  {
    if s == [] then []
    else if |s| >= 2 && !space(s[0]) && s[1] == '(' then
      var r := SpaceBeforeOpen(s[2..], space);
      assert forall i :: 0 <= i < |r| ==> r[i] in s || r[i] == ' ' by {
        forall i | 0 <= i < |r| && r[i] != ' ' ensures r[i] in s {
          var j :| 0 <= j < |s[2..]| && s[2..][j] == r[i];
          assert s[2 + j] == r[i];
        }
      }
      [s[0], ' ', '('] + r
    else
      var r := SpaceBeforeOpen(s[1..], space);
      assert forall i :: 0 <= i < |r| ==> r[i] in s || r[i] == ' ' by {
        forall i | 0 <= i < |r| && r[i] != ' ' ensures r[i] in s {
          var j :| 0 <= j < |s[1..]| && s[1..][j] == r[i];
          assert s[1 + j] == r[i];
        }
      }
      [s[0]] + r
  }

  /** No character of `s` is in class `q`. */
  predicate NoneOf(s: seq<char>, q: char -> bool) {
    forall i :: 0 <= i < |s| ==> !q(s[i])
  }

  /** A front free of the class passes through unchanged. */
  lemma {:induction false} ReplaceRunsAfter(a: seq<char>, b: seq<char>, p: char -> bool, min: nat, rep: seq<char>)
    requires min >= 1 && NoneOf(a, p)
    ensures ReplaceRuns(a + b, p, min, rep) == a + ReplaceRuns(b, p, min, rep)
    decreases |a|
  {
    if a != [] {
      var ab := a + b;
      assert ab[0] == a[0] && !p(ab[0]);
      assert ab[1..] == a[1..] + b;
      assert NoneOf(a[1..], p);
      ReplaceRunsAfter(a[1..], b, p, min, rep);
      assert ReplaceRuns(ab, p, min, rep) == [a[0]] + ReplaceRuns(ab[1..], p, min, rep);
      assert [a[0]] + (a[1..] + ReplaceRuns(b, p, min, rep)) == a + ReplaceRuns(b, p, min, rep);
    } else {
      assert a + b == b;
    }
  }

  /** Replacing runs keeps a class out when the replacement holds none of it. */
  lemma ReplaceRunsKeepsNone(s: seq<char>, p: char -> bool, min: nat, rep: seq<char>, q: char -> bool)
    requires min >= 1 && NoneOf(s, q) && NoneOf(rep, q)
    ensures NoneOf(ReplaceRuns(s, p, min, rep), q)
  {
    var r := ReplaceRuns(s, p, min, rep);
    forall i | 0 <= i < |r| ensures !q(r[i]) {
      if q(r[i]) {
        ReplaceRunsKeepsAbsent(s, p, min, rep, r[i]);
      }
    }
  }

  /** Text with no character of the class is left alone. */
  lemma {:induction false} ReplaceRunsNone(s: seq<char>, p: char -> bool, min: nat, rep: seq<char>)
    requires min >= 1 && NoneOf(s, p)
    ensures ReplaceRuns(s, p, min, rep) == s
    decreases |s|
  {
    if s != [] {
      ReplaceRunsNone(s[1..], p, min, rep);
    }
  }

  /** The run at the front is exactly `m` long when `m` characters of the
      class are followed by the end or by one outside it. */
  lemma {:induction false} RunLenIs(s: seq<char>, p: char -> bool, m: nat)
    requires m <= |s| && (forall k :: 0 <= k < m ==> p(s[k])) && (m < |s| ==> !p(s[m]))
    ensures RunLen(s, p) == m
    decreases m
  {
    if m > 0 {
      RunLenIs(s[1..], p, m - 1);
    }
  }

  /** A group `\(\s*?\)`: a "(" at `i`, a ")" at `j` and only white space
      in between. */
  predicate EmptyGroupAt(s: seq<char>, space: char -> bool, i: int, j: int) {
    0 <= i < j < |s| && s[i] == '(' && s[j] == ')' && forall k :: i < k < j ==> space(s[k])
  }

  /** A group at the front is the one the pass sees there. */
  lemma GroupRunLen(s: seq<char>, space: char -> bool, j: int)
    requires EmptyGroupAt(s, space, 0, j) && !space(')')
    ensures RunLen(s[1..], space) == j - 1
  {
    RunLenIs(s[1..], space, j - 1);
  }

  /** Text without an empty group is left as it is. */
  lemma {:induction false} DropEmptyGroupsNone(s: seq<char>, space: char -> bool)
    requires forall i, j :: !EmptyGroupAt(s, space, i, j)
    ensures DropEmptyGroups(s, space) == s
    decreases |s|
  {
    if s != [] {
      var n := RunLen(s[1..], space);
      assert !EmptyGroupAt(s, space, 0, 1 + n);
      var t := s[1..];
      forall i, j ensures !EmptyGroupAt(t, space, i, j) {
        assert !EmptyGroupAt(s, space, i + 1, j + 1);
        if 0 <= i < j < |t| {
          assert forall k :: i < k < j ==> t[k] == s[k + 1];
        }
      }
      DropEmptyGroupsNone(t, space);
    }
  }

  /** An empty group anywhere is deleted, so the text gets shorter. */
  lemma {:induction false} DropEmptyGroupsShrinks(s: seq<char>, space: char -> bool, i: int, j: int)
    requires EmptyGroupAt(s, space, i, j) && !space(')')
    ensures |DropEmptyGroups(s, space)| < |s|
    decreases |s|
  {
    if i == 0 {
      GroupRunLen(s, space, j);
    } else {
      var t := s[1..];
      assert EmptyGroupAt(t, space, i - 1, j - 1) by {
        assert forall k :: i - 1 < k < j - 1 ==> t[k] == s[k + 1];
      }
      DropEmptyGroupsShrinks(t, space, i - 1, j - 1);
    }
  }

  /** The pass changes the text exactly when it holds an empty group. */
  lemma DropEmptyGroupsUnchanged(s: seq<char>, space: char -> bool)
    requires !space(')')
    ensures DropEmptyGroups(s, space) == s <==> forall i, j :: !EmptyGroupAt(s, space, i, j)
  {
    if forall i, j :: !EmptyGroupAt(s, space, i, j) {
      DropEmptyGroupsNone(s, space);
    } else {
      var i, j :| EmptyGroupAt(s, space, i, j);
      DropEmptyGroupsShrinks(s, space, i, j);
    }
  }

  /** A group holds one "(", one ")" and otherwise white space. */
  lemma GroupCounts(g: seq<char>, space: char -> bool, c: char)
    requires EmptyGroupAt(g, space, 0, |g| - 1) && !space('(') && !space(')')
    ensures Count(g, '(') == 1 && Count(g, ')') == 1
    ensures c != '(' && c != ')' && !space(c) ==> Count(g, c) == 0
  {
    var mid := g[1..|g| - 1];
    assert g == ['('] + mid + [')'];
    assert forall k :: 0 <= k < |mid| ==> space(mid[k]) by {
      assert forall k :: 0 <= k < |mid| ==> mid[k] == g[k + 1];
    }
    CountAppend(['('] + mid, [')'], c);
    CountAppend(['('], mid, c);
    CountAppend(['('] + mid, [')'], '(');
    CountAppend(['('], mid, '(');
    CountAppend(['('] + mid, [')'], ')');
    CountAppend(['('], mid, ')');
    CountAbsent(mid, '(');
    CountAbsent(mid, ')');
    if c != '(' && c != ')' && !space(c) {
      CountAbsent(mid, c);
    }
  }

  /** Only whole groups are deleted: every character other than "(", ")"
      and white space is kept as often as it occurs, and as many "(" as ")"
      go. */
  lemma {:induction false} DropEmptyGroupsCounts(s: seq<char>, space: char -> bool, c: char)
    requires !space('(') && !space(')')
    ensures var r := DropEmptyGroups(s, space);
      && (c != '(' && c != ')' && !space(c) ==> Count(r, c) == Count(s, c))
      && Count(s, '(') - Count(r, '(') == Count(s, ')') - Count(r, ')')
    decreases |s|
  {
    if s != [] {
      var n := RunLen(s[1..], space);
      var r := DropEmptyGroups(s, space);
      if s[0] == '(' && 1 + n < |s| && s[1 + n] == ')' {
        var g, t := s[..n + 2], s[n + 2..];
        assert s == g + t;
        assert EmptyGroupAt(g, space, 0, |g| - 1) by {
          assert forall k :: 0 < k < n + 1 ==> g[k] == s[1..][k - 1];
        }
        assert r == DropEmptyGroups(t, space);
        GroupCounts(g, space, c);
        DropEmptyGroupsCounts(t, space, c);
        CountAppend(g, t, c);
        CountAppend(g, t, '(');
        CountAppend(g, t, ')');
      } else {
        var t := s[1..];
        assert s == [s[0]] + t;
        DropEmptyGroupsCounts(t, space, c);
        var rt := DropEmptyGroups(t, space);
        assert r == [s[0]] + rt;
        CountAppend([s[0]], t, c);
        CountAppend([s[0]], t, '(');
        CountAppend([s[0]], t, ')');
        CountAppend([s[0]], rt, c);
        CountAppend([s[0]], rt, '(');
        CountAppend([s[0]], rt, ')');
      }
    }
  }

  /** A "(" right after a character that is not white space: where `(\S)\(`
      can match. */
  predicate OpenAfterNonSpace(s: seq<char>, space: char -> bool, i: int) {
    0 <= i < |s| - 1 && !space(s[i]) && s[i + 1] == '('
  }

  /** Text where every "(" starts it or follows white space is left as it
      is. */
  lemma {:induction false} SpaceBeforeOpenNone(s: seq<char>, space: char -> bool)
    requires forall i :: !OpenAfterNonSpace(s, space, i)
    ensures SpaceBeforeOpen(s, space) == s
    decreases |s|
  {
    if s != [] {
      assert !OpenAfterNonSpace(s, space, 0);
      var t := s[1..];
      forall i ensures !OpenAfterNonSpace(t, space, i) {
        assert !OpenAfterNonSpace(s, space, i + 1);
      }
      SpaceBeforeOpenNone(t, space);
    }
  }

  /** A "(" after a character that is not white space makes the text grow. */
  lemma {:induction false} SpaceBeforeOpenGrows(s: seq<char>, space: char -> bool, i: int)
    requires OpenAfterNonSpace(s, space, i)
    ensures |SpaceBeforeOpen(s, space)| > |s|
    decreases |s|
  {
    if i > 0 && !(!space(s[0]) && s[1] == '(') {
      SpaceBeforeOpenGrows(s[1..], space, i - 1);
    }
  }

  /** The pass changes the text exactly when some "(" follows a character
      that is not white space. */
  lemma SpaceBeforeOpenUnchanged(s: seq<char>, space: char -> bool)
    ensures SpaceBeforeOpen(s, space) == s <==> forall i :: !OpenAfterNonSpace(s, space, i)
  {
    if forall i :: !OpenAfterNonSpace(s, space, i) {
      SpaceBeforeOpenNone(s, space);
    } else {
      var i :| OpenAfterNonSpace(s, space, i);
      SpaceBeforeOpenGrows(s, space, i);
    }
  }

  /** Only spaces are inserted: every other character occurs as often as
      before. */
  lemma {:induction false} SpaceBeforeOpenCounts(s: seq<char>, space: char -> bool, c: char)
    requires c != ' '
    ensures Count(SpaceBeforeOpen(s, space), c) == Count(s, c)
    decreases |s|
  {
    if s != [] {
      var r := SpaceBeforeOpen(s, space);
      if |s| >= 2 && !space(s[0]) && s[1] == '(' {
        var t := s[2..];
        SpaceBeforeOpenCounts(t, space, c);
        assert s == [s[0], '('] + t;
        CountAppend([s[0], '('], t, c);
        CountAppend([s[0], ' ', '('], SpaceBeforeOpen(t, space), c);
        assert Count([s[0], ' ', '('], c) == Count([s[0], '('], c) by {
          assert [s[0], ' ', '('] == [s[0], ' '] + ['('];
          assert [s[0], '('] == [s[0]] + ['('];
          assert [s[0], ' '] == [s[0]] + [' '];
          CountAppend([s[0], ' '], ['('], c);
          CountAppend([s[0]], ['('], c);
          CountAppend([s[0]], [' '], c);
        }
      } else {
        var t := s[1..];
        SpaceBeforeOpenCounts(t, space, c);
        assert s == [s[0]] + t;
        CountAppend([s[0]], t, c);
        CountAppend([s[0]], SpaceBeforeOpen(t, space), c);
      }
    }
  }
}
