/** The three character-scanning passes that repair parentheses in a title:
    the closing pass, its mirror image the opening pass, and the nested-group
    flattener. src/formatting.rs and src/formatter.rs contain the same code
    for all three; rename/formatter.py and renamer.py have their own variants,
    which differ only where the members below take a parameter.

    Each scan is specified over prefixes: `...At(s, i)` is the state after
    the first `i` characters of `s`. A pass's output is also described as a
    list of pieces: every input character (`Orig`) in order, with the text the
    pass inserts (`Ins`) between them. Rendering the pieces gives the output
    string; keeping only the `Orig` pieces gives back the input. */
module Parens {
  import opened Strings

  datatype Piece = Orig(c: char) | Ins(text: seq<char>)

  function PieceText(p: Piece): seq<char> {
    match p
    case Orig(c) => [c]
    case Ins(t) => t
  }

  /** The output string the pieces spell. */
  function Render(ps: seq<Piece>): seq<char> {
    if ps == [] then [] else Render(ps[..|ps| - 1]) + PieceText(ps[|ps| - 1])
  }

  /** The input characters among the pieces, in order. */
  function Originals(ps: seq<Piece>): seq<char> {
    if ps == [] then []
    else Originals(ps[..|ps| - 1]) + (if ps[|ps| - 1].Orig? then [ps[|ps| - 1].c] else [])
  }

  /** The pieces in reverse order, as Python's `reversed` treats a list. */
  function RevPieces(ps: seq<Piece>): (r: seq<Piece>)
    ensures |r| == |ps|
    ensures forall k :: 0 <= k < |ps| ==> r[k] == ps[|ps| - 1 - k]
  {
    if ps == [] then [] else [ps[|ps| - 1]] + RevPieces(ps[..|ps| - 1])
  }

  /** Each piece's text reversed character by character. */
  function FlipPiece(p: Piece): Piece {
    match p
    case Orig(c) => Orig(c)
    case Ins(t) => Ins(Reverse(t))
  }

  function FlipPieces(ps: seq<Piece>): (r: seq<Piece>)
    ensures |r| == |ps|
    ensures forall k :: 0 <= k < |ps| ==> r[k] == FlipPiece(ps[k])
  {
    if ps == [] then [] else FlipPieces(ps[..|ps| - 1]) + [FlipPiece(ps[|ps| - 1])]
  }

  lemma RenderSnoc(ps: seq<Piece>, p: Piece)
    ensures Render(ps + [p]) == Render(ps) + PieceText(p)
  {
    assert (ps + [p])[..|ps + [p]| - 1] == ps;
  }

  lemma OriginalsSnoc(ps: seq<Piece>, p: Piece)
    ensures Originals(ps + [p]) == Originals(ps) + (if p.Orig? then [p.c] else [])
  {
    assert (ps + [p])[..|ps + [p]| - 1] == ps;
  }

  lemma {:induction false} RenderAppend(a: seq<Piece>, b: seq<Piece>)
    ensures Render(a + b) == Render(a) + Render(b)
    decreases |b|
  {
    if b == [] {
      assert a + b == a;
    } else {
      var b' := b[..|b| - 1];
      assert a + b == (a + b') + [b[|b| - 1]];
      RenderSnoc(a + b', b[|b| - 1]);
      RenderAppend(a, b');
      RenderSnoc(b', b[|b| - 1]);
      assert b' + [b[|b| - 1]] == b;
    }
  }

  lemma {:induction false} OriginalsAppend(a: seq<Piece>, b: seq<Piece>)
    ensures Originals(a + b) == Originals(a) + Originals(b)
    decreases |b|
  {
    if b == [] {
      assert a + b == a;
    } else {
      var b' := b[..|b| - 1];
      assert a + b == (a + b') + [b[|b| - 1]];
      OriginalsSnoc(a + b', b[|b| - 1]);
      OriginalsAppend(a, b');
      OriginalsSnoc(b', b[|b| - 1]);
      assert b' + [b[|b| - 1]] == b;
    }
  }

  lemma ReverseAppend(a: seq<char>, b: seq<char>)
    ensures Reverse(a + b) == Reverse(b) + Reverse(a)
  {
  }

  lemma RenderCons(p: Piece, ps: seq<Piece>)
    ensures Render([p] + ps) == PieceText(p) + Render(ps)
  {
    RenderAppend([p], ps);
    RenderSnoc([], p);
    assert [] + [p] == [p];
  }

  lemma FlipPieceText(p: Piece)
    ensures PieceText(FlipPiece(p)) == Reverse(PieceText(p))
  {
    match p
    case Orig(c) =>
      assert Reverse([c]) == [c];
    case Ins(t) =>
  }

  /** Reversing the rendered text is rendering the reversed list of flipped
      pieces: reversing a string character by character turns an inserted
      " (" into "( ". */
  lemma {:induction false} ReverseRender(ps: seq<Piece>)
    ensures Reverse(Render(ps)) == Render(RevPieces(FlipPieces(ps)))
    decreases |ps|
  {
    if ps != [] {
      var init := ps[..|ps| - 1];
      var p := ps[|ps| - 1];
      var rest := RevPieces(FlipPieces(init));
      ReverseRender(init);
      assert Render(ps) == Render(init) + PieceText(p);
      ReverseAppend(Render(init), PieceText(p));
      FlipPieceText(p);
      assert Reverse(Render(ps)) == PieceText(FlipPiece(p)) + Render(rest);
      assert FlipPieces(ps) == FlipPieces(init) + [FlipPiece(p)];
      assert FlipPieces(ps)[..|ps| - 1] == FlipPieces(init);
      assert RevPieces(FlipPieces(ps)) == [FlipPiece(p)] + rest;
      RenderCons(FlipPiece(p), rest);
    }
  }

  lemma {:induction false} OriginalsRev(ps: seq<Piece>)
    ensures Originals(RevPieces(ps)) == Reverse(Originals(ps))
    decreases |ps|
  {
    if ps != [] {
      var init := ps[..|ps| - 1];
      var p := ps[|ps| - 1];
      OriginalsRev(init);
      assert RevPieces(ps) == [p] + RevPieces(init);
      OriginalsAppend([p], RevPieces(init));
      OriginalsSnoc([], p);
      assert [] + [p] == [p];
      ReverseAppend(Originals(init), if p.Orig? then [p.c] else []);
    }
  }

  // ---------------------------------------------------------------------
  // The counter of the closing and opening passes

  /** One step of the counter: an opener closes a pending group or opens
      one, a closer closes one, never going below zero. */
  function Step(open: nat, c: char, opener: char, closer: char): nat {
    if c == opener then (if open > 0 then open - 1 else open + 1)
    else if c == closer then (if open > 0 then open - 1 else 0)
    else open
  }

  /** The counter after scanning `s[..i]`. */
  function CounterAt(s: seq<char>, i: nat, opener: char, closer: char): nat
    requires i <= |s|
  {
    if i == 0 then 0 else Step(CounterAt(s, i - 1, opener, closer), s[i - 1], opener, closer)
  }

  /** Whether the pass puts its token in front of `s[i]`: an opener met while
      a group is open. */
  predicate InsertsAt(s: seq<char>, i: nat, opener: char, closer: char)
    requires i < |s|
  {
    s[i] == opener && CounterAt(s, i, opener, closer) > 0
  }

  /** The pieces pushed while scanning `s[..i]`. */
  function PiecesAt(s: seq<char>, i: nat, opener: char, closer: char, token: seq<char>): seq<Piece>
    requires i <= |s|
  {
    if i == 0 then []
    else
      PiecesAt(s, i - 1, opener, closer, token)
      + (if InsertsAt(s, i - 1, opener, closer) then [Ins(token)] else [])
      + [Orig(s[i - 1])]
  }

  /** The buffer after scanning `s[..i]`. */
  function OutAt(s: seq<char>, i: nat, opener: char, closer: char, token: seq<char>): seq<char>
    requires i <= |s|
  {
    if i == 0 then []
    else
      OutAt(s, i - 1, opener, closer, token)
      + (if InsertsAt(s, i - 1, opener, closer) then token else [])
      + [s[i - 1]]
  }

  /** The counter never leaves {0, 1}. */
  lemma {:induction false} CounterAtMostOne(s: seq<char>, i: nat, opener: char, closer: char)
    requires i <= |s|
    ensures CounterAt(s, i, opener, closer) <= 1
  {
    if i > 0 {
      CounterAtMostOne(s, i - 1, opener, closer);
    }
  }

  lemma {:induction false} OutAtRender(s: seq<char>, i: nat, opener: char, closer: char, token: seq<char>)
    requires i <= |s|
    ensures OutAt(s, i, opener, closer, token) == Render(PiecesAt(s, i, opener, closer, token))
  {
    if i > 0 {
      OutAtRender(s, i - 1, opener, closer, token);
      var pre := PiecesAt(s, i - 1, opener, closer, token);
      var out := OutAt(s, i - 1, opener, closer, token);
      var c := s[i - 1];
      var next := PiecesAt(s, i, opener, closer, token);
      if InsertsAt(s, i - 1, opener, closer) {
        assert next == pre + [Ins(token)] + [Orig(c)];
        assert OutAt(s, i, opener, closer, token) == out + token + [c];
        assert Render(next) == Render(pre) + token + [c] by {
          RenderSnoc(pre, Ins(token));
          RenderSnoc(pre + [Ins(token)], Orig(c));
        }
      } else {
        assert next == pre + [Orig(c)] by {
          assert pre + [] == pre;
        }
        assert OutAt(s, i, opener, closer, token) == out + [c] by {
          assert out + [] == out;
        }
        assert Render(next) == Render(pre) + [c] by {
          RenderSnoc(pre, Orig(c));
        }
      }
    }
  }

  /** Keeping the original pieces of the scan gives back the scanned prefix. */
  lemma {:induction false} PiecesAtOriginals(s: seq<char>, i: nat, opener: char, closer: char, token: seq<char>)
    requires i <= |s|
    ensures Originals(PiecesAt(s, i, opener, closer, token)) == s[..i]
  {
    if i > 0 {
      PiecesAtOriginals(s, i - 1, opener, closer, token);
      var pre := PiecesAt(s, i - 1, opener, closer, token);
      if InsertsAt(s, i - 1, opener, closer) {
        OriginalsSnoc(pre, Ins(token));
        OriginalsSnoc(pre + [Ins(token)], Orig(s[i - 1]));
      } else {
        assert pre + [] == pre;
        OriginalsSnoc(pre, Orig(s[i - 1]));
      }
      assert s[..i] == s[..i - 1] + [s[i - 1]];
    }
  }

  /** Every inserted piece of the scan is `token`, directly followed by the
      opener it was inserted for. */
  lemma {:induction false} PiecesAtInsertBeforeOpener(s: seq<char>, i: nat, opener: char, closer: char, token: seq<char>, k: nat)
    requires i <= |s|
    requires k < |PiecesAt(s, i, opener, closer, token)| && PiecesAt(s, i, opener, closer, token)[k].Ins?
    ensures k + 1 < |PiecesAt(s, i, opener, closer, token)|
    ensures PiecesAt(s, i, opener, closer, token)[k] == Ins(token)
    ensures PiecesAt(s, i, opener, closer, token)[k + 1] == Orig(opener)
  {
    var pre := PiecesAt(s, i - 1, opener, closer, token);
    if k < |pre| {
      PiecesAtInsertBeforeOpener(s, i - 1, opener, closer, token, k);
    }
  }

  /** Flipping the scan's pieces is scanning with the flipped token. */
  lemma {:induction false} FlipPiecesAt(s: seq<char>, i: nat, opener: char, closer: char, token: seq<char>)
    requires i <= |s|
    ensures FlipPieces(PiecesAt(s, i, opener, closer, token)) == PiecesAt(s, i, opener, closer, Reverse(token))
  {
    if i > 0 {
      FlipPiecesAt(s, i - 1, opener, closer, token);
    }
  }

  // ---------------------------------------------------------------------
  // Closing pass (src/formatting.rs:538-565; the same code at
  // src/formatter.rs:222-249; rename/formatter.py:268-289 and, with the
  // token ")", renamer.py:228-249)

  /** The pieces of the closing pass: the scan, then the `)` characters that
      close the groups still open. */
  function ClosePieces(s: seq<char>, token: seq<char>): seq<Piece> {
    var n := CounterAt(s, |s|, '(', ')');
    PiecesAt(s, |s|, '(', ')', token) + (if n > 0 then [Ins(Repeat(')', n))] else [])
  }

  /** The closing pass: a `(` met while a group is open gets `token` in front
      of it, and the groups still open at the end are closed. */
  method AddMissingClosing(text: seq<char>, token: seq<char>) returns (r: seq<char>)
    ensures r == Render(ClosePieces(text, token))
    ensures Originals(ClosePieces(text, token)) == text
  {
    var open: nat := 0;
    r := [];
    var i := 0;
    while i < |text|
      invariant 0 <= i <= |text|
      invariant open == CounterAt(text, i, '(', ')')
      invariant r == OutAt(text, i, '(', ')', token)
    {
      var c := text[i];
      if c == '(' {
        if open > 0 {
          r := r + token;
          open := open - 1;
        } else {
          open := open + 1;
        }
      } else if c == ')' {
        open := if open > 0 then open - 1 else 0;
      }
      r := r + [c];
      i := i + 1;
    }
    r := r + Repeat(')', open);
    ClosingShape(text, token);
  }

  lemma ClosePiecesRender(s: seq<char>, token: seq<char>)
    ensures Render(ClosePieces(s, token)) == OutAt(s, |s|, '(', ')', token) + Repeat(')', CounterAt(s, |s|, '(', ')'))
  {
    var scan := PiecesAt(s, |s|, '(', ')', token);
    var n := CounterAt(s, |s|, '(', ')');
    OutAtRender(s, |s|, '(', ')', token);
    if n > 0 {
      RenderSnoc(scan, Ins(Repeat(')', n)));
    } else {
      assert scan + [] == scan;
    }
  }

  /** The closing pass appends at most one `)`, keeps every input character
      in order, and puts every other insertion directly before a `(`. */
  lemma ClosingShape(s: seq<char>, token: seq<char>)
    ensures CounterAt(s, |s|, '(', ')') <= 1
    ensures Render(ClosePieces(s, token)) == OutAt(s, |s|, '(', ')', token) + Repeat(')', CounterAt(s, |s|, '(', ')'))
    ensures Originals(ClosePieces(s, token)) == s
    ensures forall k :: 0 <= k < |PiecesAt(s, |s|, '(', ')', token)| && PiecesAt(s, |s|, '(', ')', token)[k].Ins? ==>
              k + 1 < |PiecesAt(s, |s|, '(', ')', token)| && PiecesAt(s, |s|, '(', ')', token)[k] == Ins(token)
              && PiecesAt(s, |s|, '(', ')', token)[k + 1] == Orig('(')
  {
    CounterAtMostOne(s, |s|, '(', ')');
    ClosePiecesRender(s, token);
    var scan := PiecesAt(s, |s|, '(', ')', token);
    var n := CounterAt(s, |s|, '(', ')');
    PiecesAtOriginals(s, |s|, '(', ')', token);
    assert s[..|s|] == s;
    if n > 0 {
      OriginalsSnoc(scan, Ins(Repeat(')', n)));
    } else {
      assert scan + [] == scan;
    }
    forall k | 0 <= k < |scan| && scan[k].Ins?
      ensures k + 1 < |scan| && scan[k] == Ins(token) && scan[k + 1] == Orig('(')
    {
      PiecesAtInsertBeforeOpener(s, |s|, '(', ')', token, k);
    }
  }

  /** Rendering keeps the count of a character that no inserted text holds. */
  lemma {:induction false} RenderCount(ps: seq<Piece>, c: char)
    requires forall k :: 0 <= k < |ps| && ps[k].Ins? ==> c !in ps[k].text
    ensures Count(Render(ps), c) == Count(Originals(ps), c)
  {
    if ps != [] {
      var init := ps[..|ps| - 1];
      RenderCount(init, c);
      var p := ps[|ps| - 1];
      CountAppend(Render(init), PieceText(p), c);
      CountAppend(Originals(init), if p.Orig? then [p.c] else [], c);
      match p
      case Orig(d) =>
        assert [d][..0] == [];
      case Ins(t) =>
        CountAbsent(t, c);
        assert Count([], c) == 0;
    }
  }

  /** With a token holding no `(`, the closing pass adds no `(`: deleting its
      insertions gives back the input. */
  lemma ClosingKeepsOpenCount(s: seq<char>, token: seq<char>)
    requires '(' !in token
    ensures Count(Render(ClosePieces(s, token)), '(') == Count(s, '(')
  {
    ClosingShape(s, token);
    var ps := ClosePieces(s, token);
    var scan := PiecesAt(s, |s|, '(', ')', token);
    var n := CounterAt(s, |s|, '(', ')');
    forall k | 0 <= k < |ps| && ps[k].Ins? ensures '(' !in ps[k].text {
      if k < |scan| {
        assert ps[k] == scan[k];
      } else {
        assert ps[k] == Ins(Repeat(')', n));
      }
    }
    RenderCount(ps, '(');
  }

  /** The closing pass does not always balance: a second `(` opened inside a
      group is separated from it, and is then left open. */
  lemma ClosingDoesNotAlwaysBalance()
    ensures Render(ClosePieces("A (B (C", ") ")) == "A (B ) (C"
    ensures Count("A (B ) (C", '(') == 2 && Count("A (B ) (C", ')') == 1
  {
    var s := "A (B (C";
    var t := ") ";
    assert CounterAt(s, 1, '(', ')') == 0 && OutAt(s, 1, '(', ')', t) == "A";
    assert CounterAt(s, 2, '(', ')') == 0 && OutAt(s, 2, '(', ')', t) == "A ";
    assert CounterAt(s, 3, '(', ')') == 1 && OutAt(s, 3, '(', ')', t) == "A (";
    assert CounterAt(s, 4, '(', ')') == 1 && OutAt(s, 4, '(', ')', t) == "A (B";
    assert CounterAt(s, 5, '(', ')') == 1 && OutAt(s, 5, '(', ')', t) == "A (B ";
    assert InsertsAt(s, 5, '(', ')');
    assert CounterAt(s, 6, '(', ')') == 0 && OutAt(s, 6, '(', ')', t) == "A (B ) (";
    assert CounterAt(s, 7, '(', ')') == 0 && OutAt(s, 7, '(', ')', t) == "A (B ) (C";
    ClosePiecesRender(s, t);
    UnbalancedExample();
  }

  lemma UnbalancedExample()
    ensures Count("A (B ) (C", '(') == 2 && Count("A (B ) (C", ')') == 1
  {
    var u := "A (B ) (C";
    assert u == "A " + "(" + "B ) " + "(" + "C";
    CountAppend("A " + "(" + "B ) " + "(", "C", '(');
    CountAppend("A " + "(" + "B ) ", "(", '(');
    CountAppend("A " + "(", "B ) ", '(');
    CountAppend("A ", "(", '(');
    CountAbsent("A ", '(');
    CountAbsent("B ) ", '(');
    CountAbsent("C", '(');
    assert "("[..0] == [];
    assert u == "A (B " + ")" + " (C";
    CountAppend("A (B " + ")", " (C", ')');
    CountAppend("A (B ", ")", ')');
    CountAbsent("A (B ", ')');
    CountAbsent(" (C", ')');
    assert ")"[..0] == [];
  }

  // ---------------------------------------------------------------------
  // Opening pass (src/formatting.rs:567-594; the same code at
  // src/formatter.rs:251-278; rename/formatter.py:292-311)

  /** The pieces of the opening pass in scan order: it scans the reversed
      text with the roles of `(` and `)` swapped, then adds the `(`
      characters that open the groups still unopened. */
  function OpenScanPieces(s: seq<char>, token: seq<char>): seq<Piece> {
    var rs := Reverse(s);
    var n := CounterAt(rs, |rs|, ')', '(');
    PiecesAt(rs, |rs|, ')', '(', token) + (if n > 0 then [Ins(Repeat('(', n))] else [])
  }

  /** The same pieces in text order. */
  function OpenPieces(s: seq<char>, token: seq<char>): seq<Piece> {
    RevPieces(OpenScanPieces(s, token))
  }

  lemma OpenScanRender(s: seq<char>, token: seq<char>)
    ensures Render(OpenScanPieces(s, token))
         == OutAt(Reverse(s), |s|, ')', '(', token) + Repeat('(', CounterAt(Reverse(s), |s|, ')', '('))
  {
    var rs := Reverse(s);
    var scan := PiecesAt(rs, |rs|, ')', '(', token);
    var n := CounterAt(rs, |rs|, ')', '(');
    OutAtRender(rs, |rs|, ')', '(', token);
    if n > 0 {
      RenderSnoc(scan, Ins(Repeat('(', n)));
    } else {
      assert scan + [] == scan;
    }
  }

  lemma FlipPiecesAppend(a: seq<Piece>, b: seq<Piece>)
    ensures FlipPieces(a + b) == FlipPieces(a) + FlipPieces(b)
  {
    assert |FlipPieces(a + b)| == |FlipPieces(a) + FlipPieces(b)|;
  }

  lemma ReverseSpaceParen()
    ensures Reverse(" (") == "( "
  {
    assert " ("[1..] == "(";
  }

  /** The `(` the opening pass prepends reads the same reversed. */
  lemma FlipOpenTail(n: nat)
    requires n <= 1
    ensures FlipPieces(if n > 0 then [Ins(Repeat('(', n))] else []) == if n > 0 then [Ins(Repeat('(', n))] else []
  {
    if n > 0 {
      assert Repeat('(', n) == "(";
      assert Reverse("(") == "(";
    }
  }

  /** Flipping the opening scan's pieces turns the token " (" into "( "
      and leaves the prepended `(` alone. */
  lemma FlipOpenScan(s: seq<char>)
    ensures FlipPieces(OpenScanPieces(s, " (")) == OpenScanPieces(s, "( ")
  {
    var rs := Reverse(s);
    var n := CounterAt(rs, |rs|, ')', '(');
    var scan := PiecesAt(rs, |rs|, ')', '(', " (");
    var tail := if n > 0 then [Ins(Repeat('(', n))] else [];
    FlipPiecesAt(rs, |rs|, ')', '(', " (");
    ReverseSpaceParen();
    CounterAtMostOne(rs, |rs|, ')', '(');
    FlipOpenTail(n);
    FlipPiecesAppend(scan, tail);
  }

  /** Reversing the Rust pass's buffer character by character yields the
      opening pieces with the token " (" turned into "( ". */
  lemma RustOpeningRender(s: seq<char>)
    ensures Reverse(OutAt(Reverse(s), |s|, ')', '(', " (") + Repeat('(', CounterAt(Reverse(s), |s|, ')', '(')))
         == Render(OpenPieces(s, "( "))
  {
    OpenScanRender(s, " (");
    ReverseRender(OpenScanPieces(s, " ("));
    FlipOpenScan(s);
  }

  /** The Rust opening pass: pushes characters of the reversed text into a
      buffer, then reverses the buffer character by character. */
  method AddMissingOpening(text: seq<char>) returns (r: seq<char>)
    ensures r == Render(OpenPieces(text, "( "))
  {
    ghost var rt := Reverse(text);
    var open: nat := 0;
    var acc: seq<char> := [];
    var i := 0;
    while i < |text|
      invariant 0 <= i <= |text|
      invariant open == CounterAt(rt, i, ')', '(')
      invariant acc == OutAt(rt, i, ')', '(', " (")
    {
      var c := text[|text| - 1 - i];
      assert c == rt[i];
      if c == ')' {
        if open > 0 {
          acc := acc + " (";
          open := open - 1;
        } else {
          open := open + 1;
        }
      } else if c == '(' {
        open := if open > 0 then open - 1 else 0;
      }
      acc := acc + [c];
      i := i + 1;
    }
    acc := acc + Repeat('(', open);
    r := Reverse(acc);
    RustOpeningRender(text);
  }

  /** The text of each piece, as the Python pass keeps them in its list. */
  function Texts(ps: seq<Piece>): (r: seq<seq<char>>)
    ensures |r| == |ps|
  {
    seq(|ps|, k requires 0 <= k < |ps| => PieceText(ps[k]))
  }

  lemma TextsAppend(a: seq<Piece>, b: seq<Piece>)
    ensures Texts(a + b) == Texts(a) + Texts(b)
  {
  }

  /** One step of the scan, seen as list elements. */
  lemma TextsPiecesAtStep(s: seq<char>, i: nat, opener: char, closer: char, token: seq<char>)
    requires i < |s|
    ensures Texts(PiecesAt(s, i + 1, opener, closer, token))
         == Texts(PiecesAt(s, i, opener, closer, token))
            + (if InsertsAt(s, i, opener, closer) then [token] else []) + [[s[i]]]
  {
    var pre := PiecesAt(s, i, opener, closer, token);
    var mid := if InsertsAt(s, i, opener, closer) then [Ins(token)] else [];
    assert PiecesAt(s, i + 1, opener, closer, token) == pre + mid + [Orig(s[i])];
    TextsAppend(pre + mid, [Orig(s[i])]);
    TextsAppend(pre, mid);
  }

  /** The opening scan's pieces, seen as list elements. */
  lemma TextsOpenScan(s: seq<char>, token: seq<char>)
    ensures Texts(OpenScanPieces(s, token))
         == Texts(PiecesAt(Reverse(s), |s|, ')', '(', token))
            + (if CounterAt(Reverse(s), |s|, ')', '(') > 0 then ["("] else [])
  {
    var rs := Reverse(s);
    var n := CounterAt(rs, |rs|, ')', '(');
    var tail := if n > 0 then [Ins(Repeat('(', n))] else [];
    CounterAtMostOne(rs, |rs|, ')', '(');
    TextsAppend(PiecesAt(rs, |rs|, ')', '(', token), tail);
    if n > 0 {
      assert Repeat('(', n) == "(";
    }
  }

  /** `"".join(reversed(elements))`. */
  function JoinReversed(elements: seq<seq<char>>): seq<char> {
    if elements == [] then [] else elements[|elements| - 1] + JoinReversed(elements[..|elements| - 1])
  }

  lemma {:induction false} JoinReversedTexts(ps: seq<Piece>)
    ensures JoinReversed(Texts(ps)) == Render(RevPieces(ps))
    decreases |ps|
  {
    if ps != [] {
      var init := ps[..|ps| - 1];
      JoinReversedTexts(init);
      assert Texts(ps)[..|ps| - 1] == Texts(init);
      assert RevPieces(ps) == [ps[|ps| - 1]] + RevPieces(init);
      RenderCons(ps[|ps| - 1], RevPieces(init));
    }
  }

  /** The Python opening pass: appends list elements while scanning the
      reversed text, then joins the reversed list, so that an inserted " ("
      stays one element and keeps its character order. */
  method PyAddMissingOpening(text: seq<char>) returns (r: seq<char>)
    ensures r == Render(OpenPieces(text, " ("))
  {
    ghost var rt := Reverse(text);
    var open: nat := 0;
    var result: seq<seq<char>> := [];
    var i := 0;
    while i < |text|
      invariant 0 <= i <= |text|
      invariant open == CounterAt(rt, i, ')', '(')
      invariant result == Texts(PiecesAt(rt, i, ')', '(', " ("))
    {
      var c := text[|text| - 1 - i];
      assert c == rt[i];
      TextsPiecesAtStep(rt, i, ')', '(', " (");
      if c == ')' {
        if open > 0 {
          result := result + [" ("];
          open := open - 1;
        } else {
          open := open + 1;
        }
      } else if c == '(' {
        open := if open > 0 then open - 1 else 0;
      }
      result := result + [[c]];
      i := i + 1;
    }
    TextsOpenScan(text, " (");
    if open > 0 {
      result := result + ["("];
    }
    assert result == Texts(OpenScanPieces(text, " ("));
    r := JoinReversed(result);
    JoinReversedTexts(OpenScanPieces(text, " ("));
  }

  /** The opening pass keeps every input character, in order. */
  lemma OpeningOriginals(s: seq<char>, token: seq<char>)
    ensures Originals(OpenPieces(s, token)) == s
  {
    var rs := Reverse(s);
    var scan := PiecesAt(rs, |rs|, ')', '(', token);
    var n := CounterAt(rs, |rs|, ')', '(');
    PiecesAtOriginals(rs, |rs|, ')', '(', token);
    assert rs[..|rs|] == rs;
    if n > 0 {
      OriginalsSnoc(scan, Ins(Repeat('(', n)));
    } else {
      assert scan + [] == scan;
    }
    OriginalsRev(OpenScanPieces(s, token));
    ReverseReverse(s);
  }

  /** In text order, every token the opening pass inserts follows a `)`. */
  lemma OpeningInsertsAfterClose(s: seq<char>, token: seq<char>, k: nat)
    requires 0 < k < |OpenPieces(s, token)| && OpenPieces(s, token)[k].Ins?
    ensures OpenPieces(s, token)[k] == Ins(token) && OpenPieces(s, token)[k - 1] == Orig(')')
  {
    var rs := Reverse(s);
    var scan := PiecesAt(rs, |rs|, ')', '(', token);
    var osp := OpenScanPieces(s, token);
    var j := |osp| - 1 - k;
    assert OpenPieces(s, token)[k] == osp[j] && OpenPieces(s, token)[k - 1] == osp[j + 1];
    assert j < |scan|;
    PiecesAtInsertBeforeOpener(rs, |rs|, ')', '(', token, j);
  }

  /** The opening pass prepends at most one `(`. */
  lemma OpeningPrependsOne(s: seq<char>, token: seq<char>)
    requires |OpenPieces(s, token)| > 0 && OpenPieces(s, token)[0].Ins?
    ensures OpenPieces(s, token)[0] == Ins("(")
  {
    var rs := Reverse(s);
    var osp := OpenScanPieces(s, token);
    CounterAtMostOne(rs, |rs|, ')', '(');
    assert OpenPieces(s, token)[0] == osp[|osp| - 1];
    assert Repeat('(', 1) == "(";
  }

  // ---------------------------------------------------------------------
  // balance_parenthesis (src/formatting.rs:485-493; the same code at
  // src/formatter.rs:165-173)

  /** The balanced title, as the method below computes it. */
  function Balanced(title: seq<char>): seq<char> {
    var opens := Count(title, '(');
    var closes := Count(title, ')');
    if opens > closes then Render(ClosePieces(title, ") "))
    else if opens < closes then Render(OpenPieces(title, "( "))
    else title
  }

  /** Runs the closing pass when `(` outnumbers `)`, the opening pass when
      `)` outnumbers `(`, and nothing when the counts are equal. */
  method BalanceParenthesis(title: seq<char>) returns (r: seq<char>)
    ensures Count(title, '(') == Count(title, ')') ==> r == title
    ensures Count(title, '(') > Count(title, ')') ==> r == Render(ClosePieces(title, ") "))
    ensures Count(title, '(') < Count(title, ')') ==> r == Render(OpenPieces(title, "( "))
    ensures r == Balanced(title)
  {
    var openCount := Count(title, '(');
    var closeCount := Count(title, ')');
    if openCount > closeCount {
      r := AddMissingClosing(title, ") ");
    } else if openCount < closeCount {
      r := AddMissingOpening(title);
    } else {
      r := title;
    }
  }

  // ---------------------------------------------------------------------
  // Nested groups (src/formatting.rs:615-655; the same code at
  // src/formatter.rs:299-339; rename/formatter.py:173-202)

  /** The stack depth after one character: only `(` is ever pushed, and a
      `)` pops when there is something to pop. */
  function NestStep(d: nat, c: char): nat {
    if c == '(' then d + 1 else if c == ')' then (if d > 0 then d - 1 else 0) else d
  }

  function NestDepthAt(s: seq<char>, i: nat): nat
    requires i <= |s|
  {
    if i == 0 then 0 else NestStep(NestDepthAt(s, i - 1), s[i - 1])
  }

  /** What the flattener emits for `c` at stack depth `d`: a `(` inside a
      group first closes that group; a `)` is kept only when it closes the
      outermost group, or, with `keepUnmatched` (the Python version), when
      nothing is open at all. */
  function NestEmit(d: nat, c: char, keepUnmatched: bool): seq<char> {
    if c == '(' then (if d > 0 then ") (" else "(")
    else if c == ')' then (if d == 1 || (keepUnmatched && d == 0) then ")" else [])
    else [c]
  }

  /** The output after scanning `s[..i]`. */
  function NestOutAt(s: seq<char>, i: nat, keepUnmatched: bool): seq<char>
    requires i <= |s|
  {
    if i == 0 then []
    else NestOutAt(s, i - 1, keepUnmatched) + NestEmit(NestDepthAt(s, i - 1), s[i - 1], keepUnmatched)
  }

  /** The output before the final replacements: the scan, then one `)` per
      group still on the stack. */
  function NestRaw(s: seq<char>, keepUnmatched: bool): seq<char> {
    NestOutAt(s, |s|, keepUnmatched) + Repeat(')', NestDepthAt(s, |s|))
  }

  /** The Rust clean-up: four literal replacements, in order. */
  function RustNestCleanup(t: seq<char>): seq<char> {
    ReplaceAll(ReplaceAll(ReplaceAll(ReplaceAll(t, " )", ")"), "( ", "("), " ()", ""), "() ", "")
  }

  /** The Python clean-up: the first two of them. */
  function PyNestCleanup(t: seq<char>): seq<char> {
    ReplaceAll(ReplaceAll(t, " )", ")"), "( ", "(")
  }

  lemma RepeatSnoc(c: char, n: nat)
    ensures Repeat(c, n) + [c] == Repeat(c, n + 1)
    ensures Repeat(c, n + 1)[..n] == Repeat(c, n)
  {
  }

  /** The Rust flattener's match on one character. */
  method NestChar(stack: seq<char>, result: seq<char>, c: char) returns (stack': seq<char>, result': seq<char>)
    requires stack == Repeat('(', |stack|)
    ensures stack' == Repeat('(', NestStep(|stack|, c))
    ensures result' == result + NestEmit(|stack|, c, false)
  {
    RepeatSnoc('(', |stack|);
    if |stack| > 0 {
      RepeatSnoc('(', |stack| - 1);
    }
    stack', result' := stack, result;
    if c == '(' {
      if |stack'| > 0 && stack'[|stack'| - 1] == '(' {
        result' := result' + ") ";
      }
      stack' := stack' + [c];
      result' := result' + [c];
    } else if c == ')' {
      if |stack'| > 0 {
        stack' := stack'[..|stack'| - 1];
        if |stack'| == 0 || stack'[|stack'| - 1] != '(' {
          result' := result' + [c];
        }
      }
    } else {
      result' := result' + [c];
    }
  }

  /** The Python flattener's branch on one character: a `)` is kept when the
      stack is empty after the pop, whether or not anything was popped. */
  method PyNestChar(stack: seq<char>, result: seq<char>, c: char) returns (stack': seq<char>, result': seq<char>)
    requires stack == Repeat('(', |stack|)
    ensures stack' == Repeat('(', NestStep(|stack|, c))
    ensures result' == result + NestEmit(|stack|, c, true)
  {
    RepeatSnoc('(', |stack|);
    if |stack| > 0 {
      RepeatSnoc('(', |stack| - 1);
    }
    stack', result' := stack, result;
    if c == '(' {
      if |stack'| > 0 && stack'[|stack'| - 1] == '(' {
        result' := result' + ") ";
      }
      stack' := stack' + [c];
      result' := result' + [c];
    } else if c == ')' {
      if |stack'| > 0 {
        stack' := stack'[..|stack'| - 1];
      }
      if |stack'| == 0 || stack'[|stack'| - 1] != '(' {
        result' := result' + [c];
      }
    } else {
      result' := result' + [c];
    }
  }

  /** Both flatteners' final loop: pop the stack, closing one group per pop. */
  method CloseRemaining(stack: seq<char>, result: seq<char>) returns (r: seq<char>)
    requires stack == Repeat('(', |stack|)
    ensures r == result + Repeat(')', |stack|)
  {
    var rest := stack;
    r := result;
    while |rest| > 0
      invariant |rest| <= |stack|
      invariant rest == Repeat('(', |rest|)
      invariant r == result + Repeat(')', |stack| - |rest|)
    {
      RepeatSnoc('(', |rest| - 1);
      RepeatSnoc(')', |stack| - |rest|);
      rest := rest[..|rest| - 1];
      r := r + ")";
    }
  }

  /** The Rust flattener, with its stack of `(` characters. */
  method FixNestedParentheses(text: seq<char>) returns (r: seq<char>)
    ensures r == RustNestCleanup(NestRaw(text, false))
  {
    var stack: seq<char> := [];
    var result: seq<char> := [];
    var i := 0;
    while i < |text|
      invariant 0 <= i <= |text|
      invariant stack == Repeat('(', NestDepthAt(text, i))
      invariant result == NestOutAt(text, i, false)
    {
      stack, result := NestChar(stack, result, text[i]);
      i := i + 1;
    }
    result := CloseRemaining(stack, result);
    r := RustNestCleanup(result);
  }

  /** The Python flattener. Its result list is only ever joined in order, so
      it is kept here as the concatenated string. */
  method PyFixNestedParentheses(text: seq<char>) returns (r: seq<char>)
    ensures r == PyNestCleanup(NestRaw(text, true))
  {
    var stack: seq<char> := [];
    var result: seq<char> := [];
    var i := 0;
    while i < |text|
      invariant 0 <= i <= |text|
      invariant stack == Repeat('(', NestDepthAt(text, i))
      invariant result == NestOutAt(text, i, true)
    {
      stack, result := PyNestChar(stack, result, text[i]);
      i := i + 1;
    }
    result := CloseRemaining(stack, result);
    r := PyNestCleanup(result);
  }

  /** How far one character moves the balance of parentheses. */
  function Delta(c: char): int {
    if c == '(' then 1 else if c == ')' then -1 else 0
  }

  /** Opened minus closed parentheses. */
  function Bal(t: seq<char>): int {
    Count(t, '(') - Count(t, ')')
  }

  /** Every prefix has at most one group open and never closes more than it
      opened: the text holds no nested group. */
  predicate Flat(t: seq<char>)
    decreases |t|
  {
    t == [] || (Flat(t[..|t| - 1]) && 0 <= Bal(t) <= 1)
  }

  /** Every prefix has at most one group open. */
  predicate AtMostOneOpen(t: seq<char>)
    decreases |t|
  {
    t == [] || (AtMostOneOpen(t[..|t| - 1]) && Bal(t) <= 1)
  }

  lemma SnocBal(t: seq<char>, c: char)
    ensures Bal(t + [c]) == Bal(t) + Delta(c)
    ensures Flat(t + [c]) <==> Flat(t) && 0 <= Bal(t) + Delta(c) <= 1
    ensures AtMostOneOpen(t + [c]) <==> AtMostOneOpen(t) && Bal(t) + Delta(c) <= 1
  {
    assert (t + [c])[..|t|] == t;
  }

  /** Appending `) (`: a group closed, then one opened. */
  lemma SnocCloseOpen(t: seq<char>)
    ensures Bal(t + ") (") == Bal(t)
    ensures Bal(t) == 1 ==> (Flat(t + ") (") <==> Flat(t))
    ensures AtMostOneOpen(t + ") (") <==> AtMostOneOpen(t) && Bal(t) <= 1
  {
    SnocBal(t, ')');
    SnocBal(t + [')'], ' ');
    SnocBal(t + [')'] + [' '], '(');
    assert t + [')'] + [' '] + ['('] == t + ") (";
  }

  /** One character of Rust's scan keeps the output flat, with balance 1
      exactly while a group is on the stack. */
  lemma EmitFlat(t: seq<char>, d: nat, c: char)
    requires Flat(t) && Bal(t) == if d > 0 then 1 else 0
    ensures Flat(t + NestEmit(d, c, false))
    ensures Bal(t + NestEmit(d, c, false)) == if NestStep(d, c) > 0 then 1 else 0
  {
    var e := NestEmit(d, c, false);
    if c == '(' && d > 0 {
      SnocCloseOpen(t);
    } else if e == [] {
      assert t + e == t;
    } else {
      SnocBal(t, e[0]);
      assert t + [e[0]] == t + e;
    }
  }

  /** One character of Python's scan keeps at most one group open. */
  lemma EmitAtMostOne(t: seq<char>, d: nat, c: char)
    requires AtMostOneOpen(t) && Bal(t) <= if d > 0 then 1 else 0
    ensures AtMostOneOpen(t + NestEmit(d, c, true))
    ensures Bal(t + NestEmit(d, c, true)) <= if NestStep(d, c) > 0 then 1 else 0
  {
    var e := NestEmit(d, c, true);
    if c == '(' && d > 0 {
      SnocCloseOpen(t);
    } else if e == [] {
      assert t + e == t;
    } else {
      SnocBal(t, e[0]);
      assert t + [e[0]] == t + e;
    }
  }

  /** Rust's scan never nests: its balance is 1 exactly while a group is on
      the stack. */
  lemma {:induction false} NestOutAtFlat(s: seq<char>, i: nat)
    requires i <= |s|
    ensures Flat(NestOutAt(s, i, false))
    ensures Bal(NestOutAt(s, i, false)) == if NestDepthAt(s, i) > 0 then 1 else 0
  {
    if i > 0 {
      NestOutAtFlat(s, i - 1);
      EmitFlat(NestOutAt(s, i - 1, false), NestDepthAt(s, i - 1), s[i - 1]);
    }
  }

  /** Python's scan never has two groups open at once (an unmatched `)` it
      keeps can take the balance below zero). */
  lemma {:induction false} NestOutAtMostOne(s: seq<char>, i: nat)
    requires i <= |s|
    ensures AtMostOneOpen(NestOutAt(s, i, true))
    ensures Bal(NestOutAt(s, i, true)) <= if NestDepthAt(s, i) > 0 then 1 else 0
  {
    if i > 0 {
      NestOutAtMostOne(s, i - 1);
      EmitAtMostOne(NestOutAt(s, i - 1, true), NestDepthAt(s, i - 1), s[i - 1]);
    }
  }

  lemma {:induction false} AppendClosers(t: seq<char>, n: nat)
    ensures Bal(t + Repeat(')', n)) == Bal(t) - n
    decreases n
  {
    if n > 0 {
      AppendClosers(t, n - 1);
      assert t + Repeat(')', n) == t + Repeat(')', n - 1) + [')'];
      SnocBal(t + Repeat(')', n - 1), ')');
    } else {
      assert t + Repeat(')', n) == t;
    }
  }

  /** Before clean-up, Rust's output is flat and balanced exactly when at most
      one group is left open at the end; otherwise its closing loop adds more
      `)` than there are open groups. */
  lemma NestRawBalanced(s: seq<char>)
    ensures Flat(NestRaw(s, false)) && Bal(NestRaw(s, false)) == 0 <==> NestDepthAt(s, |s|) <= 1
    ensures Bal(NestRaw(s, false)) == (if NestDepthAt(s, |s|) > 0 then 1 else 0) - NestDepthAt(s, |s|)
  {
    var t := NestOutAt(s, |s|, false);
    var d := NestDepthAt(s, |s|);
    NestOutAtFlat(s, |s|);
    AppendClosers(t, d);
    if d == 1 {
      assert t + Repeat(')', 1) == t + [')'];
      SnocBal(t, ')');
    } else if d == 0 {
      assert t + Repeat(')', 0) == t;
    }
  }

  predicate NoParens(t: seq<char>) {
    '(' !in t && ')' !in t
  }

  /** Characters other than parentheses pass through the flattener. */
  lemma {:induction false} NestPlainRun(s: seq<char>, i: nat, j: nat, keepUnmatched: bool)
    requires i <= j <= |s| && NoParens(s[i..j])
    ensures NestDepthAt(s, j) == NestDepthAt(s, i)
    ensures NestOutAt(s, j, keepUnmatched) == NestOutAt(s, i, keepUnmatched) + s[i..j]
    decreases j
  {
    if j > i {
      assert s[i..j] == s[i..j - 1] + [s[j - 1]];
      NestPlainRun(s, i, j - 1, keepUnmatched);
    } else {
      assert NestOutAt(s, i, keepUnmatched) + s[i..j] == NestOutAt(s, i, keepUnmatched);
    }
  }

  /** One step of the flattener's scan. */
  lemma NestAt(s: seq<char>, i: nat, keepUnmatched: bool)
    requires i < |s|
    ensures NestDepthAt(s, i + 1) == NestStep(NestDepthAt(s, i), s[i])
    ensures NestOutAt(s, i + 1, keepUnmatched) == NestOutAt(s, i, keepUnmatched) + NestEmit(NestDepthAt(s, i), s[i], keepUnmatched)
  {
  }

  /** `((` met with nothing open. */
  lemma NestOpenPair(s: seq<char>, i: nat)
    requires i + 2 <= |s| && s[i] == '(' && s[i + 1] == '(' && NestDepthAt(s, i) == 0
    ensures NestDepthAt(s, i + 2) == 2
    ensures NestOutAt(s, i + 2, false) == NestOutAt(s, i, false) + "() ("
  {
    NestAt(s, i, false);
    NestAt(s, i + 1, false);
    assert NestOutAt(s, i, false) + "(" + ") (" == NestOutAt(s, i, false) + "() (";
  }

  /** `))` met with two groups open. */
  lemma NestClosePair(s: seq<char>, i: nat)
    requires i + 2 <= |s| && s[i] == ')' && s[i + 1] == ')' && NestDepthAt(s, i) == 2
    ensures NestDepthAt(s, i + 2) == 0
    ensures NestOutAt(s, i + 2, false) == NestOutAt(s, i, false) + ")"
  {
    NestAt(s, i, false);
    NestAt(s, i + 1, false);
    assert NestOutAt(s, i, false) + [] + ")" == NestOutAt(s, i, false) + ")";
  }

  lemma NestDoubledPrefix(a: seq<char>, w: seq<char>)
    requires NoParens(a)
    ensures NestDepthAt(a + " ((" + w + "))", |a| + 3) == 2
    ensures NestOutAt(a + " ((" + w + "))", |a| + 3, false) == a + " () ("
  {
    var s := a + " ((" + w + "))";
    var n := |a|;
    assert s[0..n + 1] == a + " ";
    NestPlainRun(s, 0, n + 1, false);
    assert s[n + 1] == '(' && s[n + 2] == '(';
    NestOpenPair(s, n + 1);
  }

  /** The scan of `a ((w))`. */
  lemma NestDoubledRaw(a: seq<char>, w: seq<char>)
    requires NoParens(a) && NoParens(w)
    ensures NestRaw(a + " ((" + w + "))", false) == a + " () (" + w + ")"
  {
    var s := a + " ((" + w + "))";
    var m := |a| + 3 + |w|;
    NestDoubledPrefix(a, w);
    assert s[|a| + 3..m] == w;
    NestPlainRun(s, |a| + 3, m, false);
    assert s[m] == ')' && s[m + 1] == ')' && |s| == m + 2;
    NestClosePair(s, m);
    assert Repeat(')', 0) == [];
  }

  lemma NestLeadingPrefix(w: seq<char>, v: seq<char>)
    requires NoParens(w)
    ensures NestDepthAt("((" + w + ") " + v + ")", |w| + 3) == 1
    ensures NestOutAt("((" + w + ") " + v + ")", |w| + 3, false) == "() (" + w
  {
    var s := "((" + w + ") " + v + ")";
    var m := 2 + |w|;
    assert s[0] == '(' && s[1] == '(';
    NestOpenPair(s, 0);
    assert s[2..m] == w;
    NestPlainRun(s, 2, m, false);
    NestAt(s, m, false);
    assert s[m] == ')';
    assert "() (" + w + [] == "() (" + w;
  }

  /** The scan of `((w) v)`. */
  lemma NestLeadingRaw(w: seq<char>, v: seq<char>)
    requires NoParens(w) && NoParens(v)
    ensures NestRaw("((" + w + ") " + v + ")", false) == "() (" + w + " " + v + ")"
  {
    var s := "((" + w + ") " + v + ")";
    var m := 3 + |w|;
    NestLeadingPrefix(w, v);
    assert s[m..m + 1 + |v|] == " " + v;
    NestPlainRun(s, m, m + 1 + |v|, false);
    NestAt(s, m + 1 + |v|, false);
    assert s[m + 1 + |v|] == ')' && |s| == m + 2 + |v|;
    assert "() (" + w + (" " + v) + ")" == "() (" + w + " " + v + ")";
    assert Repeat(')', 0) == [];
  }

  lemma DoubledCloseSpace(a: seq<char>, w: seq<char>)
    requires NoParens(a) && NoParens(w) && ' ' !in w
    ensures ReplaceAll(a + " () (" + w + ")", " )", ")") == a + " () (" + w + ")"
  {
    var t := "(" + w + ")";
    assert a + " () (" + w + ")" == a + (" " + ("()" + (" " + t)));
    ReplaceAllSkipSecond(a, " " + ("()" + (" " + t)), " )", ")");
    ReplaceAllStep(" " + ("()" + (" " + t)), " )", ")", 1);
    assert (" " + ("()" + (" " + t)))[1..] == "()" + (" " + t);
    ReplaceAllSkip("()", " " + t, " )", ")");
    ReplaceAllStep(" " + t, " )", ")", 1);
    assert (" " + t)[1..] == t + [];
    ReplaceAllSkip(t, [], " )", ")");
  }

  lemma DoubledOpenSpace(a: seq<char>, w: seq<char>)
    requires NoParens(a) && NoParens(w) && w != [] && ' ' !in w
    ensures ReplaceAll(a + " () (" + w + ")", "( ", "(") == a + " () (" + w + ")"
  {
    var t := w + ")";
    assert a + " () (" + w + ")" == (a + " ") + ("(" + (") " + ("(" + t)));
    ReplaceAllSkip(a + " ", "(" + (") " + ("(" + t)), "( ", "(");
    ReplaceAllStep("(" + (") " + ("(" + t)), "( ", "(", 1);
    assert ("(" + (") " + ("(" + t)))[1..] == ") " + ("(" + t);
    ReplaceAllSkip(") ", "(" + t, "( ", "(");
    ReplaceAllStep("(" + t, "( ", "(", 1);
    assert ("(" + t)[1..] == t + [];
    ReplaceAllSkip(t, [], "( ", "(");
  }

  lemma EmptyGroupTail(w: seq<char>)
    requires NoParens(w) && w != []
    ensures ReplaceAll(" (" + w + ")", " ()", "") == " (" + w + ")"
  {
    var t := w + ")";
    assert " (" + w + ")" == " (" + t;
    assert (" (" + t)[2] == w[0];
    ReplaceAllStep(" (" + t, " ()", "", 2);
    assert (" (" + t)[1..] == "(" + t;
    ReplaceAllStep("(" + t, " ()", "", 0);
    assert ("(" + t)[1..] == t + [];
    ReplaceAllSkipSecond(t, [], " ()", "");
    assert [' '] + (['('] + (t + [])) == " (" + t;
  }

  lemma DoubledEmptyGroup(a: seq<char>, w: seq<char>)
    requires NoParens(a) && NoParens(w) && w != []
    ensures ReplaceAll(a + " () (" + w + ")", " ()", "") == a + " (" + w + ")"
  {
    var rest := " (" + w + ")";
    assert a + " () (" + w + ")" == a + (" ()" + rest);
    ReplaceAllSkipSecond(a, " ()" + rest, " ()", "");
    ReplaceAllHere(" ()", rest, "");
    EmptyGroupTail(w);
    assert a + ("" + rest) == a + " (" + w + ")";
  }

  lemma DoubledEmptyGroupSpace(a: seq<char>, w: seq<char>)
    requires NoParens(a) && NoParens(w) && w != []
    ensures ReplaceAll(a + " (" + w + ")", "() ", "") == a + " (" + w + ")"
  {
    var t := w + ")";
    assert a + " (" + w + ")" == (a + " ") + ("(" + t);
    ReplaceAllSkip(a + " ", "(" + t, "() ", "");
    ReplaceAllStep("(" + t, "() ", "", 1);
    assert ("(" + t)[1..] == w + (")" + []);
    ReplaceAllSkip(w, ")" + [], "() ", "");
    ReplaceAllSkip(")", [], "() ", "");
  }

  /** src/formatting.rs:790, "Hello ((World))" to "Hello (World)", for any
      text `a` and any word `w` without parentheses: a doubled group
      collapses into one. */
  lemma NestDoubledGroup(a: seq<char>, w: seq<char>)
    requires NoParens(a) && NoParens(w) && w != [] && ' ' !in w
    ensures RustNestCleanup(NestRaw(a + " ((" + w + "))", false)) == a + " (" + w + ")"
  {
    NestDoubledRaw(a, w);
    DoubledCloseSpace(a, w);
    DoubledOpenSpace(a, w);
    DoubledEmptyGroup(a, w);
    DoubledEmptyGroupSpace(a, w);
  }

  lemma LeadingCloseSpace(w: seq<char>, v: seq<char>)
    requires NoParens(w) && NoParens(v) && v != [] && ' ' !in v
    ensures ReplaceAll("() (" + w + " " + v + ")", " )", ")") == "() (" + w + " " + v + ")"
  {
    var tail := v + ")";
    var x := "(" + w;
    assert "() (" + w + " " + v + ")" == "()" + (" " + (x + (" " + tail)));
    ReplaceAllSkip("()", " " + (x + (" " + tail)), " )", ")");
    ReplaceAllStep(" " + (x + (" " + tail)), " )", ")", 1);
    assert (" " + (x + (" " + tail)))[1..] == x + (" " + tail);
    ReplaceAllSkipSecond(x, " " + tail, " )", ")");
    assert (" " + tail)[1] == v[0];
    ReplaceAllStep(" " + tail, " )", ")", 1);
    assert (" " + tail)[1..] == tail + [];
    ReplaceAllSkip(tail, [], " )", ")");
    assert "()" + ([' '] + (x + ([' '] + (tail + [])))) == "() (" + w + " " + v + ")";
  }

  lemma LeadingOpenSpace(w: seq<char>, v: seq<char>)
    requires NoParens(w) && NoParens(v) && w != [] && ' ' !in w
    ensures ReplaceAll("() (" + w + " " + v + ")", "( ", "(") == "() (" + w + " " + v + ")"
  {
    var tail := w + " " + v + ")";
    assert "() (" + w + " " + v + ")" == "(" + (") " + ("(" + tail));
    ReplaceAllStep("(" + (") " + ("(" + tail)), "( ", "(", 1);
    assert ("(" + (") " + ("(" + tail)))[1..] == ") " + ("(" + tail);
    ReplaceAllSkip(") ", "(" + tail, "( ", "(");
    assert ("(" + tail)[1] == w[0];
    ReplaceAllStep("(" + tail, "( ", "(", 1);
    assert ("(" + tail)[1..] == tail + [];
    ReplaceAllSkip(tail, [], "( ", "(");
    assert ['('] + (") " + (['('] + (tail + []))) == "() (" + w + " " + v + ")";
  }

  lemma LeadingEmptyGroup(w: seq<char>, v: seq<char>)
    requires NoParens(w) && NoParens(v) && w != []
    ensures ReplaceAll("() (" + w + " " + v + ")", " ()", "") == "() (" + w + " " + v + ")"
  {
    var tail := w + " " + v + ")";
    var s3 := "(" + tail;
    var s2 := " " + s3;
    var s1 := ")" + s2;
    var raw := "(" + s1;
    assert raw == "() (" + w + " " + v + ")";
    assert ReplaceAll(tail, " ()", "") == tail by {
      ReplaceAllSkipSecond(tail, [], " ()", "");
      assert tail + [] == tail;
    }
    assert ReplaceAll(s3, " ()", "") == s3 by {
      ReplaceAllStep(s3, " ()", "", 0);
      assert s3[1..] == tail;
    }
    assert ReplaceAll(s2, " ()", "") == s2 by {
      assert s2[2] == w[0];
      ReplaceAllStep(s2, " ()", "", 2);
      assert s2[1..] == s3;
    }
    assert ReplaceAll(s1, " ()", "") == s1 by {
      ReplaceAllStep(s1, " ()", "", 1);
      assert s1[1..] == s2;
    }
    assert ReplaceAll(raw, " ()", "") == raw by {
      ReplaceAllStep(raw, " ()", "", 0);
      assert raw[1..] == s1;
    }
  }

  /** A group whose text starts with a non-empty word is no empty group. */
  lemma GroupNoEmptyGroupSpace(w: seq<char>, y: seq<char>)
    requires NoParens(w) && w != []
    ensures ReplaceAll("(" + w + y, "() ", "") == "(" + w + ReplaceAll(y, "() ", "")
  {
    assert "(" + w + y == "(" + (w + y);
    assert ("(" + (w + y))[1] == w[0];
    ReplaceAllStep("(" + (w + y), "() ", "", 1);
    assert ("(" + (w + y))[1..] == w + y;
    ReplaceAllSkip(w, y, "() ", "");
  }

  lemma LeadingEmptyGroupSpace(w: seq<char>, v: seq<char>)
    requires NoParens(w) && NoParens(v) && w != []
    ensures ReplaceAll("() (" + w + " " + v + ")", "() ", "") == "(" + w + " " + v + ")"
  {
    var rest := " " + v + ")";
    var x := "(" + w + rest;
    var raw := "() (" + w + " " + v + ")";
    assert ReplaceAll(raw, "() ", "") == ReplaceAll(x, "() ", "") by {
      assert raw == "() " + x;
      ReplaceAllHere("() ", x, "");
    }
    assert ReplaceAll(x, "() ", "") == "(" + w + ReplaceAll(rest, "() ", "") by {
      GroupNoEmptyGroupSpace(w, rest);
    }
    assert ReplaceAll(rest, "() ", "") == rest by {
      ReplaceAllSkip(rest, [], "() ", "");
      assert rest + [] == rest;
    }
  }

  /** src/formatting.rs:791, "((Hello) World)" to "(Hello World)", for any
      words `w` and `v` without parentheses or spaces: an inner group at the
      start of an outer one is dissolved into it. */
  lemma NestLeadingGroup(w: seq<char>, v: seq<char>)
    requires NoParens(w) && NoParens(v) && w != [] && v != [] && ' ' !in w && ' ' !in v
    ensures RustNestCleanup(NestRaw("((" + w + ") " + v + ")", false)) == "(" + w + " " + v + ")"
  {
    NestLeadingRaw(w, v);
    LeadingCloseSpace(w, v);
    LeadingOpenSpace(w, v);
    LeadingEmptyGroup(w, v);
    LeadingEmptyGroupSpace(w, v);
  }
}
