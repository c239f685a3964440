/**
 Filename escaping for checksum lines (utils.go): each direction is a fixed
 sequence of Go strings.ReplaceAll passes. A char of a Dafny string stands
 for one byte of a Go string: the passes only compare and insert the ASCII
 characters backslash, CR, LF, `r` and `n`, so names are kept as text here,
 while the engine keeps the bytes it hashes as bytes.
 */
module Escape {

  /**
   Go's strings.ReplaceAll for a non-empty pattern: scanning left to right,
   every occurrence of `pat` that does not overlap an earlier replaced one
   is replaced by `rep`.
   */
  function ReplaceAll(s: string, pat: string, rep: string): string
    requires |pat| > 0
    decreases |s|
  {
    if |pat| <= |s| && s[..|pat|] == pat then rep + ReplaceAll(s[|pat|..], pat, rep)
    else if |s| == 0 then []
    else [s[0]] + ReplaceAll(s[1..], pat, rep)
  }

  /** Applies the (pattern, replacement) passes in order, as the loops over `keys` do. */
  function ReplaceInOrder(s: string, passes: seq<(string, string)>): string
    requires forall i :: 0 <= i < |passes| ==> |passes[i].0| > 0
    decreases |passes|
  {
    if |passes| == 0 then s
    else ReplaceInOrder(ReplaceAll(s, passes[0].0, passes[0].1), passes[1..])
  }

  const EscapePasses: seq<(string, string)> := [("\\", "\\\\"), ("\r", "\\r"), ("\n", "\\n")]

  const UnescapePasses: seq<(string, string)> := [("\\r", "\r"), ("\\n", "\n"), ("\\\\", "\\")]

  /** The characters a checksum line cannot carry raw. */
  predicate Special(c: char)
  {
    c == '\\' || c == '\r' || c == '\n'
  }

  function SpecialCount(s: string): nat
  {
    if |s| == 0 then 0 else (if Special(s[0]) then 1 else 0) + SpecialCount(s[1..])
  }

  /**
   Reference escape, one character at a time: backslash becomes two
   backslashes, and (when enabled) CR and LF become backslash-r and
   backslash-n. With both flags set this is the intended escaping; with
   fewer flags it describes the string between the ReplaceAll passes.
   */
  function EscapeChar(c: char, cr: bool, lf: bool): string
  {
    if c == '\\' then "\\\\"
    else if c == '\r' && cr then "\\r"
    else if c == '\n' && lf then "\\n"
    else [c]
  }

  function EscapeEach(s: string, cr: bool, lf: bool): string
  {
    if |s| == 0 then [] else EscapeChar(s[0], cr, lf) + EscapeEach(s[1..], cr, lf)
  }

  /** escapeFilename (utils.go:55-66). */
  function EscapeFilename(filename: string): (r: string)
    ensures r == EscapeEach(filename, true, true)
  {
    var r := ReplaceInOrder(filename, EscapePasses);
    EscapeIsCharwise(filename);
    r
  }

  /** unescapeFilename (utils.go:69-80). */
  function UnescapeFilename(filename: string): (r: string)
    ensures |r| <= |filename|
  {
    var r := ReplaceInOrder(filename, UnescapePasses);
    var a := ReplaceAll(filename, "\\r", "\r");
    var b := ReplaceAll(a, "\\n", "\n");
    ReplaceAllNotLonger(filename, "\\r", "\r");
    ReplaceAllNotLonger(a, "\\n", "\n");
    ReplaceAllNotLonger(b, "\\\\", "\\");
    assert UnescapePasses[1..][1..][1..] == [];
    assert r == ReplaceInOrder(a, UnescapePasses[1..]);
    assert r == ReplaceInOrder(b, UnescapePasses[1..][1..]);
    r
  }

  // ---------------------------------------------------------------------
  // Unfolding facts about ReplaceAll

  lemma ReplaceAllMatch(pat: string, rep: string, t: string)
    requires |pat| > 0
    ensures ReplaceAll(pat + t, pat, rep) == rep + ReplaceAll(t, pat, rep)
  {
    assert (pat + t)[..|pat|] == pat;
    assert (pat + t)[|pat|..] == t;
  }

  lemma ReplaceAllMiss(pat: string, rep: string, s: string)
    requires |pat| > 0 && |s| > 0
    requires !(|pat| <= |s| && s[..|pat|] == pat)
    ensures ReplaceAll(s, pat, rep) == [s[0]] + ReplaceAll(s[1..], pat, rep)
  {
  }

  lemma ReplaceAllHeadMiss(pat: string, rep: string, c: char, t: string)
    requires |pat| > 0 && c != pat[0]
    ensures ReplaceAll([c] + t, pat, rep) == [c] + ReplaceAll(t, pat, rep)
  {
    var s := [c] + t;
    assert s[1..] == t;
    assert s[0] == c;
  }

  /** Replacing one character is local: it distributes over concatenation. */
  lemma {:induction false} ReplaceCharConcat(o: char, rep: string, a: string, b: string)
    ensures ReplaceAll(a + b, [o], rep) == ReplaceAll(a, [o], rep) + ReplaceAll(b, [o], rep)
    decreases |a|
  {
    if |a| == 0 {
      assert a + b == b;
    } else {
      assert a + b == [a[0]] + (a[1..] + b);
      assert a == [a[0]] + a[1..];
      if a[0] == o {
        ReplaceAllMatch([o], rep, a[1..] + b);
        ReplaceAllMatch([o], rep, a[1..]);
      } else {
        ReplaceAllHeadMiss([o], rep, a[0], a[1..] + b);
        ReplaceAllHeadMiss([o], rep, a[0], a[1..]);
      }
      ReplaceCharConcat(o, rep, a[1..], b);
    }
  }

  lemma {:induction false} ReplaceAllNotLonger(s: string, pat: string, rep: string)
    requires |rep| <= |pat|
    requires |pat| > 0
    ensures |ReplaceAll(s, pat, rep)| <= |s|
    decreases |s|
  {
    if |pat| <= |s| && s[..|pat|] == pat {
      ReplaceAllNotLonger(s[|pat|..], pat, rep);
    } else if |s| > 0 {
      ReplaceAllNotLonger(s[1..], pat, rep);
    }
  }

  // ---------------------------------------------------------------------
  // The escape passes equal the reference escape

  lemma {:induction false} EscapeEachConcat(a: string, b: string, cr: bool, lf: bool)
    ensures EscapeEach(a + b, cr, lf) == EscapeEach(a, cr, lf) + EscapeEach(b, cr, lf)
    decreases |a|
  {
    if |a| == 0 {
      assert a + b == b;
    } else {
      assert (a + b)[0] == a[0];
      assert (a + b)[1..] == a[1..] + b;
      EscapeEachConcat(a[1..], b, cr, lf);
    }
  }

  /** Pass 1 doubles every backslash. */
  lemma {:induction false} BackslashPass(s: string)
    ensures ReplaceAll(s, "\\", "\\\\") == EscapeEach(s, false, false)
    decreases |s|
  {
    if |s| > 0 {
      assert s == [s[0]] + s[1..];
      if s[0] == '\\' {
        ReplaceAllMatch("\\", "\\\\", s[1..]);
      } else {
        ReplaceAllHeadMiss("\\", "\\\\", s[0], s[1..]);
      }
      BackslashPass(s[1..]);
    }
  }

  /** Pass 2 turns every CR into backslash-r. */
  lemma {:induction false} CarriageReturnPass(s: string)
    ensures ReplaceAll(EscapeEach(s, false, false), "\r", "\\r") == EscapeEach(s, true, false)
    decreases |s|
  {
    if |s| > 0 {
      var c := s[0];
      ReplaceCharConcat('\r', "\\r", EscapeChar(c, false, false), EscapeEach(s[1..], false, false));
      if c == '\\' {
        ReplaceAllHeadMiss("\r", "\\r", '\\', "\\");
        ReplaceAllHeadMiss("\r", "\\r", '\\', "");
        assert ReplaceAll("\\\\", "\r", "\\r") == "\\\\";
      } else if c == '\r' {
        ReplaceAllMatch("\r", "\\r", "");
        assert ReplaceAll([c], "\r", "\\r") == "\\r";
      } else {
        ReplaceAllHeadMiss("\r", "\\r", c, "");
        assert ReplaceAll([c], "\r", "\\r") == [c];
      }
      CarriageReturnPass(s[1..]);
    }
  }

  /** Pass 3 turns every LF into backslash-n. */
  lemma {:induction false} LineFeedPass(s: string)
    ensures ReplaceAll(EscapeEach(s, true, false), "\n", "\\n") == EscapeEach(s, true, true)
    decreases |s|
  {
    if |s| > 0 {
      var c := s[0];
      ReplaceCharConcat('\n', "\\n", EscapeChar(c, true, false), EscapeEach(s[1..], true, false));
      if c == '\\' {
        ReplaceAllHeadMiss("\n", "\\n", '\\', "\\");
        ReplaceAllHeadMiss("\n", "\\n", '\\', "");
        assert ReplaceAll("\\\\", "\n", "\\n") == "\\\\";
      } else if c == '\r' {
        ReplaceAllHeadMiss("\n", "\\n", '\\', "r");
        ReplaceAllHeadMiss("\n", "\\n", 'r', "");
        assert ReplaceAll("\\r", "\n", "\\n") == "\\r";
      } else if c == '\n' {
        ReplaceAllMatch("\n", "\\n", "");
        assert ReplaceAll([c], "\n", "\\n") == "\\n";
      } else {
        ReplaceAllHeadMiss("\n", "\\n", c, "");
        assert ReplaceAll([c], "\n", "\\n") == [c];
      }
      LineFeedPass(s[1..]);
    }
  }

  lemma EscapeIsCharwise(s: string)
    ensures ReplaceInOrder(s, EscapePasses) == EscapeEach(s, true, true)
  {
    var a := ReplaceAll(s, "\\", "\\\\");
    var b := ReplaceAll(a, "\r", "\\r");
    var c := ReplaceAll(b, "\n", "\\n");
    BackslashPass(s);
    CarriageReturnPass(s);
    LineFeedPass(s);
    assert EscapePasses[1..][1..][1..] == [];
    assert ReplaceInOrder(s, EscapePasses) == ReplaceInOrder(a, EscapePasses[1..]);
    assert ReplaceInOrder(a, EscapePasses[1..]) == ReplaceInOrder(b, EscapePasses[1..][1..]);
    assert ReplaceInOrder(b, EscapePasses[1..][1..]) == ReplaceInOrder(c, EscapePasses[1..][1..][1..]);
  }

  lemma {:induction false} EscapeEachFacts(s: string)
    ensures '\r' !in EscapeEach(s, true, true) && '\n' !in EscapeEach(s, true, true)
    ensures |EscapeEach(s, true, true)| == |s| + SpecialCount(s)
    ensures SpecialCount(s) == 0 ==> EscapeEach(s, true, true) == s
    decreases |s|
  {
    if |s| > 0 {
      EscapeEachFacts(s[1..]);
      assert s == [s[0]] + s[1..];
    }
  }

  /**
   An escaped name carries no CR or LF; it is longer than the name by the
   number of backslashes, CRs and LFs; a name without any comes back as is.
   */
  lemma EscapeFilenameFacts(filename: string)
    ensures '\r' !in EscapeFilename(filename) && '\n' !in EscapeFilename(filename)
    ensures |EscapeFilename(filename)| == |filename| + SpecialCount(filename)
    ensures SpecialCount(filename) == 0 ==> EscapeFilename(filename) == filename
  {
    EscapeEachFacts(filename);
  }

  // ---------------------------------------------------------------------
  // Unescaping

  /**
   No backslash is directly followed by `r` or `n`. Escaping such a name
   never produces a backslash-r or backslash-n that did not come from a CR
   or an LF.
   */
  predicate NoEscapeLookalike(s: string)
  {
    forall i :: 0 <= i < |s| - 1 && s[i] == '\\' ==> s[i + 1] != 'r' && s[i + 1] != 'n'
  }

  lemma UnescapeSteps(y: string)
    ensures UnescapeFilename(y)
         == ReplaceAll(ReplaceAll(ReplaceAll(y, "\\r", "\r"), "\\n", "\n"), "\\\\", "\\")
  {
    var a := ReplaceAll(y, "\\r", "\r");
    var b := ReplaceAll(a, "\\n", "\n");
    var c := ReplaceAll(b, "\\\\", "\\");
    assert UnescapePasses[1..][1..][1..] == [];
    assert ReplaceInOrder(y, UnescapePasses) == ReplaceInOrder(a, UnescapePasses[1..]);
    assert ReplaceInOrder(a, UnescapePasses[1..]) == ReplaceInOrder(b, UnescapePasses[1..][1..]);
    assert ReplaceInOrder(b, UnescapePasses[1..][1..]) == ReplaceInOrder(c, UnescapePasses[1..][1..][1..]);
  }

  /** The first character of an escaped non-empty string. */
  lemma EscapeEachHead(s: string, cr: bool, lf: bool)
    requires |s| > 0
    ensures |EscapeEach(s, cr, lf)| > 0
    ensures EscapeEach(s, cr, lf)[0]
         == (if s[0] == '\\' || (s[0] == '\r' && cr) || (s[0] == '\n' && lf) then '\\' else s[0])
  {
    assert EscapeEach(s, cr, lf) == EscapeChar(s[0], cr, lf) + EscapeEach(s[1..], cr, lf);
  }

  lemma LookalikeTail(s: string)
    requires |s| > 0 && NoEscapeLookalike(s)
    ensures NoEscapeLookalike(s[1..])
    ensures |s| > 1 && s[0] == '\\' ==> s[1] != 'r' && s[1] != 'n'
  {
    forall i | 0 <= i < |s[1..]| - 1 && s[1..][i] == '\\'
      ensures s[1..][i + 1] != 'r' && s[1..][i + 1] != 'n'
    {
      assert s[i + 1] == '\\';
    }
  }

  /** A backslash-escape pattern does not match at an escaped backslash unless the next character completes it. */
  lemma EscapedBackslashMiss(letter: char, rep: string, e: string)
    requires letter != '\\'
    requires |e| > 0 ==> e[0] != letter
    ensures ReplaceAll("\\\\" + e, ['\\', letter], rep) == "\\\\" + ReplaceAll(e, ['\\', letter], rep)
  {
    var pat := ['\\', letter];
    var s := "\\\\" + e;
    assert s[1] == '\\';
    ReplaceAllMiss(pat, rep, s);
    assert s[1..] == "\\" + e;
    ReplaceAllMiss(pat, rep, "\\" + e);
    assert ("\\" + e)[1..] == e;
  }

  /** A backslash followed by another letter is left alone. */
  lemma OtherEscapeMiss(letter: char, other: char, rep: string, e: string)
    requires letter != other && other != '\\'
    ensures ReplaceAll(['\\', other] + e, ['\\', letter], rep) == ['\\', other] + ReplaceAll(e, ['\\', letter], rep)
  {
    var pat := ['\\', letter];
    var s := ['\\', other] + e;
    assert s[1] == other;
    ReplaceAllMiss(pat, rep, s);
    assert s[1..] == [other] + e;
    ReplaceAllHeadMiss(pat, rep, other, e);
  }

  /** Unescape pass 1 (backslash-r to CR) undoes escape pass 2. */
  lemma {:induction false} UnescapeCarriageReturnPass(x: string)
    requires NoEscapeLookalike(x)
    ensures ReplaceAll(EscapeEach(x, true, true), "\\r", "\r") == EscapeEach(x, false, true)
    decreases |x|
  {
    if |x| > 0 {
      var c, rest := x[0], x[1..];
      var e := EscapeEach(rest, true, true);
      LookalikeTail(x);
      UnescapeCarriageReturnPass(rest);
      EscapeEachCons(c, rest, true, true);
      EscapeEachCons(c, rest, false, true);
      assert x == [c] + rest;
      if c == '\\' {
        if |e| > 0 {
          EscapeEachHead(rest, true, true);
        }
        EscapedBackslashMiss('r', "\r", e);
      } else if c == '\r' {
        ReplaceAllMatch("\\r", "\r", e);
      } else if c == '\n' {
        OtherEscapeMiss('r', 'n', "\r", e);
      } else {
        ReplaceAllHeadMiss("\\r", "\r", c, e);
      }
    }
  }

  /** Unescape pass 2 (backslash-n to LF) undoes escape pass 3. */
  lemma {:induction false} UnescapeLineFeedPass(x: string)
    requires NoEscapeLookalike(x)
    ensures ReplaceAll(EscapeEach(x, false, true), "\\n", "\n") == EscapeEach(x, false, false)
    decreases |x|
  {
    if |x| > 0 {
      var c, rest := x[0], x[1..];
      var e := EscapeEach(rest, false, true);
      LookalikeTail(x);
      UnescapeLineFeedPass(rest);
      EscapeEachCons(c, rest, false, true);
      EscapeEachCons(c, rest, false, false);
      assert x == [c] + rest;
      if c == '\\' {
        if |e| > 0 {
          EscapeEachHead(rest, false, true);
        }
        EscapedBackslashMiss('n', "\n", e);
      } else if c == '\n' {
        ReplaceAllMatch("\\n", "\n", e);
      } else {
        ReplaceAllHeadMiss("\\n", "\n", c, e);
      }
    }
  }

  /** Unescape pass 3 (two backslashes to one) undoes escape pass 1, for every string. */
  lemma {:induction false} UnescapeBackslashPass(x: string)
    ensures ReplaceAll(EscapeEach(x, false, false), "\\\\", "\\") == x
    decreases |x|
  {
    if |x| > 0 {
      var c, rest := x[0], x[1..];
      var e := EscapeEach(rest, false, false);
      UnescapeBackslashPass(rest);
      assert EscapeEach(x, false, false) == EscapeChar(c, false, false) + e;
      assert x == [c] + rest;
      if c == '\\' {
        ReplaceAllMatch("\\\\", "\\", e);
      } else {
        ReplaceAllHeadMiss("\\\\", "\\", c, e);
      }
    }
  }

  /**
   unescapeFilename undoes escapeFilename on every name in which no
   backslash is directly followed by `r` or `n`.
   */
  lemma UnescapeInvertsEscape(x: string)
    requires NoEscapeLookalike(x)
    ensures UnescapeFilename(EscapeFilename(x)) == x
  {
    UnescapeSteps(EscapeFilename(x));
    UnescapeCarriageReturnPass(x);
    UnescapeLineFeedPass(x);
    UnescapeBackslashPass(x);
  }

  /**
   The name made of a backslash and the letter n escapes to backslash,
   backslash, n; unescaping that turns its last two characters into a line
   feed, so the round trip yields backslash followed by LF.
   */
  lemma RoundTripCounterexample()
    ensures EscapeFilename("\\n") == "\\\\n"
    ensures UnescapeFilename("\\\\n") == "\\\n"
    ensures UnescapeFilename(EscapeFilename("\\n")) != "\\n"
  {
    assert EscapeEach("\\n", true, true) == "\\\\" + EscapeEach("n", true, true);
    assert EscapeEach("n", true, true) == "n" + EscapeEach("", true, true);
    var y := "\\\\n";
    UnescapeSteps(y);
    // pass 1: no backslash-r anywhere
    assert y[1] == '\\';
    ReplaceAllMiss("\\r", "\r", y);
    assert y[1..] == "\\n";
    ReplaceAllMiss("\\r", "\r", "\\n");
    assert "\\n"[1..] == "n";
    ReplaceAllHeadMiss("\\r", "\r", 'n', "");
    assert ReplaceAll(y, "\\r", "\r") == y;
    // pass 2: the second and third characters form backslash-n
    ReplaceAllMiss("\\n", "\n", y);
    ReplaceAllMatch("\\n", "\n", "");
    assert ReplaceAll(y, "\\n", "\n") == "\\\n";
    // pass 3: no pair of backslashes is left
    ReplaceAllMiss("\\\\", "\\", "\\\n");
    assert "\\\n"[1..] == "\n";
    ReplaceAllHeadMiss("\\\\", "\\", '\n', "");
    assert ReplaceAll("\\\n", "\\\\", "\\") == "\\\n";
  }

  // ---------------------------------------------------------------------
  // The intended inverse: one left-to-right pass

  /**
   Unescaping as intended: one scan from the left that reads each escape
   (two backslashes, backslash-r, backslash-n) as a unit.
   */
  function UnescapeOnePass(s: string): string
    decreases |s|
  {
    if |s| >= 2 && s[0] == '\\' && s[1] == '\\' then "\\" + UnescapeOnePass(s[2..])
    else if |s| >= 2 && s[0] == '\\' && s[1] == 'r' then "\r" + UnescapeOnePass(s[2..])
    else if |s| >= 2 && s[0] == '\\' && s[1] == 'n' then "\n" + UnescapeOnePass(s[2..])
    else if |s| == 0 then []
    else [s[0]] + UnescapeOnePass(s[1..])
  }

  /** The strings escaping can produce: no raw CR or LF, and every backslash opens an escape. */
  predicate WellEscaped(s: string)
    decreases |s|
  {
    if |s| == 0 then true
    else if s[0] == '\\' then |s| >= 2 && (s[1] == '\\' || s[1] == 'r' || s[1] == 'n') && WellEscaped(s[2..])
    else s[0] != '\r' && s[0] != '\n' && WellEscaped(s[1..])
  }

  lemma {:induction false} OnePassInvertsEscapeEach(x: string)
    ensures UnescapeOnePass(EscapeEach(x, true, true)) == x
    ensures WellEscaped(EscapeEach(x, true, true))
    decreases |x|
  {
    if |x| > 0 {
      var c, e := x[0], EscapeEach(x[1..], true, true);
      OnePassInvertsEscapeEach(x[1..]);
      assert EscapeEach(x, true, true) == EscapeChar(c, true, true) + e;
      assert x == [c] + x[1..];
      var s := EscapeChar(c, true, true) + e;
      if Special(c) {
        assert s[2..] == e;
      } else {
        assert s[1..] == e;
      }
    }
  }

  /** The corrected decoder undoes escapeFilename on every name. */
  lemma OnePassRoundTrip(x: string)
    ensures UnescapeOnePass(EscapeFilename(x)) == x
    ensures WellEscaped(EscapeFilename(x))
  {
    OnePassInvertsEscapeEach(x);
  }

  /** ... and escapeFilename undoes the corrected decoder on every well-escaped string. */
  lemma EscapeEachCons(c: char, t: string, cr: bool, lf: bool)
    ensures EscapeEach([c] + t, cr, lf) == EscapeChar(c, cr, lf) + EscapeEach(t, cr, lf)
  {
    assert ([c] + t)[1..] == t;
  }

  lemma {:induction false} EscapeEachInvertsOnePass(y: string)
    requires WellEscaped(y)
    ensures EscapeEach(UnescapeOnePass(y), true, true) == y
    decreases |y|
  {
    if |y| > 0 {
      if y[0] == '\\' {
        EscapeEachInvertsOnePass(y[2..]);
        var c := if y[1] == '\\' then '\\' else if y[1] == 'r' then '\r' else '\n';
        assert UnescapeOnePass(y) == [c] + UnescapeOnePass(y[2..]);
        EscapeEachCons(c, UnescapeOnePass(y[2..]), true, true);
        assert y == y[..2] + y[2..];
      } else {
        EscapeEachInvertsOnePass(y[1..]);
        assert UnescapeOnePass(y) == [y[0]] + UnescapeOnePass(y[1..]);
        EscapeEachCons(y[0], UnescapeOnePass(y[1..]), true, true);
        assert y == [y[0]] + y[1..];
      }
    }
  }

  lemma EscapeInvertsOnePass(y: string)
    requires WellEscaped(y)
    ensures EscapeFilename(UnescapeOnePass(y)) == y
  {
    EscapeEachInvertsOnePass(y);
  }

  // ---------------------------------------------------------------------
  // The cases of utils_test.go, each in both directions

  lemma UnescapeCase(x: string, y: string)
    requires EscapeEach(x, true, true) == y
    requires forall i :: 0 <= i < |x| ==> x[i] != 'r' && x[i] != 'n'
    ensures EscapeFilename(x) == y
    ensures UnescapeFilename(y) == x
  {
    UnescapeInvertsEscape(x);
  }

  lemma PlainCase()
    ensures EscapeFilename("abc") == "abc"
    ensures UnescapeFilename("abc") == "abc"
  {
    EscapeEachFacts("abc");
    assert SpecialCount("abc") == 0 by {
      assert "abc"[1..] == "bc";
      assert "bc"[1..] == "c";
    }
    UnescapeCase("abc", "abc");
  }

  lemma BackslashCase()
    ensures EscapeFilename("a\\c") == "a\\\\c"
    ensures UnescapeFilename("a\\\\c") == "a\\c"
  {
    EscapeEachCons('c', "", true, true);
    EscapeEachCons('\\', "c", true, true);
    EscapeEachCons('a', "\\c", true, true);
    UnescapeCase("a\\c", "a\\\\c");
  }

  lemma LineFeedCase()
    ensures EscapeFilename("a\nc") == "a\\nc"
    ensures UnescapeFilename("a\\nc") == "a\nc"
  {
    EscapeEachCons('c', "", true, true);
    EscapeEachCons('\n', "c", true, true);
    EscapeEachCons('a', "\nc", true, true);
    UnescapeCase("a\nc", "a\\nc");
  }

  lemma BackslashThenLineFeedCase()
    ensures EscapeFilename("a\\b\nc") == "a\\\\b\\nc"
    ensures UnescapeFilename("a\\\\b\\nc") == "a\\b\nc"
  {
    EscapeEachCons('c', "", true, true);
    EscapeEachCons('\n', "c", true, true);
    EscapeEachCons('b', "\nc", true, true);
    EscapeEachCons('\\', "b\nc", true, true);
    EscapeEachCons('a', "\\b\nc", true, true);
    UnescapeCase("a\\b\nc", "a\\\\b\\nc");
  }

  lemma LineFeedThenBackslashCase()
    ensures EscapeFilename("a\nb\\c") == "a\\nb\\\\c"
    ensures UnescapeFilename("a\\nb\\\\c") == "a\nb\\c"
  {
    EscapeEachCons('c', "", true, true);
    EscapeEachCons('\\', "c", true, true);
    EscapeEachCons('b', "\\c", true, true);
    EscapeEachCons('\n', "b\\c", true, true);
    EscapeEachCons('a', "\nb\\c", true, true);
    UnescapeCase("a\nb\\c", "a\\nb\\\\c");
  }
}
