/** Source text handling around the sorter: newline normalisation when the
    file is read, splitting into lines, and joining the rewritten lines. */
module Text {
  import opened Seqs

  /** The two line-terminator characters normalisation rewrites. */
  const Terminators: set<char> := {'\r', '\n'}

  /** `s.replace("\r\n", "\n")`: scanning left to right, every CR LF pair
      becomes a single LF. */
  function ReplaceCrLf(s: string): (r: string)
    ensures |r| <= |s| && (s != [] ==> r != [])
  {
    if |s| >= 2 && s[0] == '\r' && s[1] == '\n' then "\n" + ReplaceCrLf(s[2..])
    else if s == [] then ""
    else [s[0]] + ReplaceCrLf(s[1..])
  }

  /** `s.replace("\r", "\n")`: every remaining CR becomes an LF. */
  function ReplaceCr(s: string): (r: string)
    ensures |r| == |s| && '\r' !in r
    ensures forall i :: 0 <= i < |s| ==> r[i] == if s[i] == '\r' then '\n' else s[i]
  {
    if s == [] then "" else [if s[0] == '\r' then '\n' else s[0]] + ReplaceCr(s[1..])
  }

  /** Replacing CR LF by LF changes only line terminators. */
  lemma {:induction false} ReplaceCrLfKeepsText(s: string)
    ensures FilterOut(ReplaceCrLf(s), Terminators) == FilterOut(s, Terminators)
    decreases |s|
  {
    if |s| >= 2 && s[0] == '\r' && s[1] == '\n' {
      var t := s[2..];
      ReplaceCrLfKeepsText(t);
      assert FilterOut(ReplaceCrLf(s), Terminators) == FilterOut(ReplaceCrLf(t), Terminators) by {
        FilterOutCons('\n', ReplaceCrLf(t), Terminators);
      }
      assert FilterOut(s, Terminators) == FilterOut(t, Terminators) by {
        assert s == ['\r'] + (['\n'] + t);
        FilterOutCons('\r', ['\n'] + t, Terminators);
        FilterOutCons('\n', t, Terminators);
      }
    } else if s != [] {
      var t := s[1..];
      ReplaceCrLfKeepsText(t);
      assert s == [s[0]] + t;
      FilterOutCons(s[0], ReplaceCrLf(t), Terminators);
      FilterOutCons(s[0], t, Terminators);
    }
  }

  /** Text without CR has no CR LF pair to replace. */
  lemma {:induction false} ReplaceCrLfWithoutCr(s: string)
    ensures '\r' !in s ==> ReplaceCrLf(s) == s
  {
    if s != [] && '\r' !in s {
      ReplaceCrLfWithoutCr(s[1..]);
      assert s == [s[0]] + s[1..];
    }
  }

  /** Replacing lone CR by LF changes only line terminators, and nothing at
      all in text without CR. */
  lemma {:induction false} ReplaceCrKeepsText(s: string)
    ensures FilterOut(ReplaceCr(s), Terminators) == FilterOut(s, Terminators)
    ensures '\r' !in s ==> ReplaceCr(s) == s
  {
    if s != [] {
      ReplaceCrKeepsText(s[1..]);
      FilterOutAppend([if s[0] == '\r' then '\n' else s[0]], ReplaceCr(s[1..]), Terminators);
      assert s == [s[0]] + s[1..];
    }
  }

  /** The text as the sorter reads it: CR LF and lone CR become LF, and an LF
      is appended unless the text already ends with one. Only line
      terminators change, and text that is already normalised is returned
      unchanged, so normalising twice is the same as normalising once. */
  function Normalize(source: string): (r: string)
    ensures '\r' !in r
    ensures |r| > 0 && r[|r| - 1] == '\n'
    ensures FilterOut(r, Terminators) == FilterOut(source, Terminators)
    ensures '\r' !in source && |source| > 0 && source[|source| - 1] == '\n' ==> r == source
  {
    ReplaceCrLfKeepsText(source);
    ReplaceCrLfWithoutCr(source);
    ReplaceCrKeepsText(ReplaceCrLf(source));
    var t := ReplaceCr(ReplaceCrLf(source));
    if |t| > 0 && t[|t| - 1] == '\n' then t
    else
      FilterOutAppend(t, "\n", Terminators);
      t + "\n"
  }

  lemma NormalizeIdempotent(source: string)
    ensures Normalize(Normalize(source)) == Normalize(source)
  {
  }

  /** The characters `str.splitlines` treats as line boundaries; a CR LF
      pair also counts as a single boundary. */
  predicate IsLineBoundary(c: char)
  {
    c == '\n' || c == '\r' || c == '\U{0B}' || c == '\U{0C}' || c == '\U{1C}' || c == '\U{1D}'
    || c == '\U{1E}' || c == '\U{85}' || c == '\U{2028}' || c == '\U{2029}'
  }

  /** Index of the first line boundary in `s`, or `|s|` when there is none. */
  function LineEnd(s: string): (k: nat)
    ensures k <= |s|
    ensures forall i :: 0 <= i < k ==> !IsLineBoundary(s[i])
    ensures k < |s| ==> IsLineBoundary(s[k])
  {
    if s == [] || IsLineBoundary(s[0]) then 0 else 1 + LineEnd(s[1..])
  }

  /** Where the line after the first one starts: past a CR LF pair, past a
      single boundary, or at the end. */
  function NextLine(s: string): (n: nat)
    ensures LineEnd(s) <= n <= |s| && (s != [] ==> n > 0)
  {
    var k := LineEnd(s);
    if k + 1 < |s| && s[k] == '\r' && s[k + 1] == '\n' then k + 2
    else if k < |s| then k + 1 else k
  }

  /** `s.splitlines()`: the pieces between line boundaries, with no empty
      piece after a final boundary. */
  function SplitLines(s: string): (lines: seq<string>)
    ensures forall i :: 0 <= i < |lines| ==> forall c :: c in lines[i] ==> !IsLineBoundary(c)
    decreases |s|
  {
    if s == [] then []
    else
      [s[..LineEnd(s)]] + SplitLines(s[NextLine(s)..])
  }

  /** `"\n".join(lines)` */
  function JoinLines(lines: seq<string>): string
  {
    if lines == [] then "" else if |lines| == 1 then lines[0] else lines[0] + "\n" + JoinLines(lines[1..])
  }

  /** Index of the first LF in `s`, or `|s|` when there is none. */
  function NewlineIndex(s: string): (k: nat)
    ensures k <= |s|
    ensures '\n' !in s[..k]
    ensures k < |s| ==> s[k] == '\n'
  {
    if s == [] || s[0] == '\n' then 0
    else
      var k := 1 + NewlineIndex(s[1..]);
      assert s[..k] == [s[0]] + s[1..][..k - 1];
      k
  }

  /** Splitting at LF only, with no empty piece after a final LF: the line
      split that agrees with the line numbering of the parser. */
  function SplitOnNewline(s: string): (lines: seq<string>)
    ensures forall i :: 0 <= i < |lines| ==> '\n' !in lines[i]
    ensures s != [] ==> lines != []
    decreases |s|
  {
    if s == [] then []
    else
      var k := NewlineIndex(s);
      [s[..k]] + SplitOnNewline(if k < |s| then s[k + 1..] else [])
  }

  /** Joining the split lines and appending the final LF gives back the text. */
  lemma {:induction false} SplitOnNewlineJoin(s: string)
    requires |s| > 0 && s[|s| - 1] == '\n'
    ensures JoinLines(SplitOnNewline(s)) + "\n" == s
    decreases |s|
  {
    var k := NewlineIndex(s);
    NewlineSplitStep(s);
    var line, rest := s[..k], s[k + 1..];
    if rest != [] {
      assert rest[|rest| - 1] == '\n';
      var tail := SplitOnNewline(rest);
      SplitOnNewlineJoin(rest);
      JoinLinesCons(line, tail);
      assert JoinLines(tail) + "\n" == rest;
      assert JoinLines([line] + tail) + "\n" == line + "\n" + (JoinLines(tail) + "\n");
    } else {
      assert SplitOnNewline(s) == [line];
    }
  }

  /** Text that ends in LF splits at its first LF. */
  lemma NewlineSplitStep(s: string)
    requires |s| > 0 && s[|s| - 1] == '\n'
    ensures NewlineIndex(s) < |s|
    ensures s == s[..NewlineIndex(s)] + "\n" + s[NewlineIndex(s) + 1..]
    ensures SplitOnNewline(s) == [s[..NewlineIndex(s)]] + SplitOnNewline(s[NewlineIndex(s) + 1..])
  {
    var k := NewlineIndex(s);
    assert k < |s| by {
      assert s[..|s|] == s;
    }
    SplitAt(s, k);
  }


  lemma JoinLinesCons(line: string, tail: seq<string>)
    requires tail != []
    ensures JoinLines([line] + tail) == line + "\n" + JoinLines(tail)
  {
    assert ([line] + tail)[1..] == tail;
  }


  /** Splitting the joined lines gives back the lines. */
  lemma {:induction false} JoinSplitOnNewline(lines: seq<string>)
    requires |lines| > 0
    requires forall i :: 0 <= i < |lines| ==> '\n' !in lines[i]
    ensures SplitOnNewline(JoinLines(lines) + "\n") == lines
  {
    var l := lines[0];
    var rest := if |lines| == 1 then "" else JoinLines(lines[1..]) + "\n";
    var s := l + "\n" + rest;
    assert JoinLines(lines) + "\n" == s;
    assert SplitOnNewline(s) == [l] + SplitOnNewline(rest) by {
      NewlineIndexAt(l, rest);
      assert s[..|l|] == l && s[|l| + 1..] == rest;
    }
    if |lines| > 1 {
      assert SplitOnNewline(rest) == lines[1..] by {
        JoinSplitOnNewline(lines[1..]);
      }
    }
    assert lines == [l] + lines[1..];
  }

  lemma {:induction false} NewlineIndexAt(l: string, rest: string)
    requires '\n' !in l
    ensures NewlineIndex(l + "\n" + rest) == |l|
  {
    if l != [] {
      assert (l + "\n" + rest)[1..] == l[1..] + "\n" + rest;
      NewlineIndexAt(l[1..], rest);
    }
  }

  /** On text whose only line boundary is LF, `splitlines` and the LF split agree. */
  lemma {:induction false} SplitLinesOnPlainText(s: string)
    requires forall c :: c in s ==> c == '\n' || !IsLineBoundary(c)
    ensures SplitLines(s) == SplitOnNewline(s)
    decreases |s|
  {
    if s != [] {
      var k := LineEnd(s);
      LineEndIsNewlineIndex(s);
      if k < |s| {
        SplitLinesOnPlainText(s[k + 1..]);
      }
    }
  }

  lemma {:induction false} LineEndIsNewlineIndex(s: string)
    requires forall c :: c in s ==> c == '\n' || !IsLineBoundary(c)
    ensures LineEnd(s) == NewlineIndex(s)
  {
    if s != [] && s[0] != '\n' {
      LineEndIsNewlineIndex(s[1..]);
    }
  }

  /** `splitlines` also breaks at a form feed, so joining its pieces with LF
      rewrites a line that the parser counts as one: "a", form feed, "b", LF
      comes back as two lines. */
  lemma SplitLinesBreaksAtFormFeed()
    ensures SplitLines("a\U{0C}b\n") == ["a", "b"]
    ensures JoinLines(SplitLines("a\U{0C}b\n")) + "\n" == "a\nb\n" != "a\U{0C}b\n"
  {
    var s := "a\U{0C}b\n";
    assert LineEnd(s) == 1 by {
      assert !IsLineBoundary(s[0]) && IsLineBoundary(s[1]);
      assert LineEnd(s[1..]) == 0;
    }
    assert s[2..] == "b\n";
    assert LineEnd("b\n") == 1 by {
      assert LineEnd("b\n"[1..]) == 0;
    }
    assert "b\n"[..1] == "b" && "b\n"[2..] == [];
    assert SplitLines("b\n") == ["b"] + SplitLines([]);
    assert s[..1] == "a";
    assert SplitLines(s) == ["a"] + SplitLines("b\n");
    assert "a\nb\n"[1] != "a\U{0C}b\n"[1];
  }

  // ---------------------------------------------------------------------
  // Normalisation keeps the lines

  /** Text whose only line boundaries are CR and LF. */
  predicate OnlyCrLfBoundaries(s: string)
  {
    forall i :: 0 <= i < |s| ==> s[i] in Terminators || !IsLineBoundary(s[i])
  }

  /** A CR-free start is copied as it is by the CR LF replacement. */
  lemma {:induction false} ReplaceCrLfPrefix(a: string, b: string)
    requires '\r' !in a
    ensures ReplaceCrLf(a + b) == a + ReplaceCrLf(b)
    decreases |a|
  {
    if a != [] {
      ReplaceCrLfPrefix(a[1..], b);
      var ab := a + b;
      assert ab[0] == a[0] && ab[0] != '\r' && ab[1..] == a[1..] + b;
      assert ReplaceCrLf(ab) == [a[0]] + ReplaceCrLf(ab[1..]);
      assert a == [a[0]] + a[1..];
    } else {
      assert a + b == b;
    }
  }

  /** The lone-CR replacement works character by character. */
  lemma ReplaceCrAppend(a: string, b: string)
    ensures ReplaceCr(a + b) == ReplaceCr(a) + ReplaceCr(b)
  {
  }

  /** Both replacements of line 29 applied in turn. */
  function Clean(s: string): string
  {
    ReplaceCr(ReplaceCrLf(s))
  }

  /** The CR LF replacement at a terminator: a CR LF pair or an LF becomes
      an LF, a lone CR stays for the second replacement. */
  lemma ReplaceCrLfAtTerminator(t: string, n: nat)
    requires t != [] && t[0] in Terminators
    requires n == if |t| >= 2 && t[0] == '\r' && t[1] == '\n' then 2 else 1
    ensures ReplaceCrLf(t) == (if n == 1 && t[0] == '\r' then "\r" else "\n") + ReplaceCrLf(t[n..])
  {
    if n == 1 {
      assert ReplaceCrLf(t) == [t[0]] + ReplaceCrLf(t[1..]);
      if t[0] == '\r' {
        assert [t[0]] == "\r";
      } else {
        assert [t[0]] == "\n";
      }
    }
  }

  /** One line `a` and its terminator (CR LF, lone CR or LF), followed by
      `rest`: the replacements turn the terminator into one LF. */
  lemma CleanStep(s: string, k: nat, next: nat)
    requires k < |s| && s[k] in Terminators && '\r' !in s[..k]
    requires next == if k + 1 < |s| && s[k] == '\r' && s[k + 1] == '\n' then k + 2 else k + 1
    ensures Clean(s) == s[..k] + "\n" + Clean(s[next..])
  {
    var a, t := s[..k], s[k..];
    var n := next - k;
    var c := if n == 1 && t[0] == '\r' then "\r" else "\n";
    var tail := ReplaceCrLf(s[next..]);
    assert t[n..] == s[next..];
    ReplaceCrLfAtTerminator(t, n);
    calc {
      ReplaceCrLf(s);
      { assert s == a + t; }
      ReplaceCrLf(a + t);
      { ReplaceCrLfPrefix(a, t); }
      a + (c + tail);
    }
    ReplaceCrOfLine(a, c, tail);
    assert Clean(s) == ReplaceCr(ReplaceCrLf(s));
  }

  /** A CR-free line, then a CR or an LF: the lone-CR replacement ends the
      line with LF. */
  lemma ReplaceCrOfLine(a: string, c: string, tail: string)
    requires '\r' !in a && (c == "\r" || c == "\n")
    ensures ReplaceCr(a + (c + tail)) == a + "\n" + ReplaceCr(tail)
  {
    calc {
      ReplaceCr(a + (c + tail));
      { ReplaceCrAppend(a, c + tail); ReplaceCrAppend(c, tail); }
      ReplaceCr(a) + (ReplaceCr(c) + ReplaceCr(tail));
      { ReplaceCrKeepsText(a); assert ReplaceCr(c) == "\n"; }
      a + ("\n" + ReplaceCr(tail));
    }
  }

  /** Normalising text that cleans to a line and its LF. */
  lemma NormalizeLastLine(s: string, a: string)
    requires Clean(s) == a + "\n"
    ensures Normalize(s) == a + "\n"
  {
    var t := Clean(s);
    assert t[|t| - 1] == '\n';
  }

  /** Normalising text that cleans to a line, an LF and a non-empty rest. */
  lemma NormalizeStep(s: string, a: string, rest: string)
    requires rest != [] && Clean(s) == a + "\n" + Clean(rest)
    ensures Normalize(s) == a + "\n" + Normalize(rest)
  {
    var t := Clean(rest);
    var u := Clean(s);
    assert |t| == |ReplaceCrLf(rest)| > 0;
    assert u[|u| - 1] == t[|t| - 1];
    if t[|t| - 1] == '\n' {
      assert Normalize(rest) == t && Normalize(s) == u;
    } else {
      assert Normalize(rest) == t + "\n" && Normalize(s) == u + "\n";
    }
  }

  /** Splitting at LF after one line `a` and its LF. */
  lemma SplitOnNewlineCons(a: string, x: string)
    requires '\n' !in a
    ensures SplitOnNewline(a + "\n" + x) == [a] + SplitOnNewline(x)
  {
    var s := a + "\n" + x;
    assert s[|a|] == '\n';
    assert s[..|a|] == a;
    var k := NewlineIndex(s);
    assert k == |a|;
    assert s[k + 1..] == x;
  }

  /** The first line of text whose only boundaries are CR and LF holds
      neither, and what follows its terminator has only CR and LF
      boundaries too. */
  lemma FirstLineSplit(s: string)
    requires s != [] && OnlyCrLfBoundaries(s)
    ensures '\r' !in s[..LineEnd(s)] && '\n' !in s[..LineEnd(s)]
    ensures LineEnd(s) < |s| ==> s[LineEnd(s)] in Terminators
    ensures OnlyCrLfBoundaries(s[NextLine(s)..])
  {
    var k := LineEnd(s);
    var a := s[..k];
    forall i | 0 <= i < |a| ensures a[i] != '\r' && a[i] != '\n' {
      assert a[i] == s[i];
    }
    OnlyCrLfSuffix(s, NextLine(s));
  }

  lemma OnlyCrLfSuffix(s: string, n: nat)
    requires n <= |s| && OnlyCrLfBoundaries(s)
    ensures OnlyCrLfBoundaries(s[n..])
  {
    var rest := s[n..];
    forall i | 0 <= i < |rest| ensures rest[i] in Terminators || !IsLineBoundary(rest[i]) {
      assert rest[i] == s[n + i];
    }
  }

  /** Normalising a single line without terminator appends the LF. */
  lemma NormalizeOneLine(s: string)
    requires '\r' !in s && '\n' !in s && s != []
    ensures SplitOnNewline(Normalize(s)) == [s]
  {
    ReplaceCrLfWithoutCr(s);
    ReplaceCrKeepsText(s);
    assert Normalize(s) == s + "\n" + "";
    SplitOnNewlineCons(s, "");
  }

  /** For text whose only line boundaries are CR and LF, splitting the
      normalised text at LF gives the lines `str.splitlines` finds in the
      text as read: normalisation neither merges nor splits a line. */
  lemma {:induction false} NormalizeKeepsLines(s: string)
    requires s != [] && OnlyCrLfBoundaries(s)
    ensures SplitOnNewline(Normalize(s)) == SplitLines(s)
    decreases |s|
  {
    var k := LineEnd(s);
    var a := s[..k];
    var rest := s[NextLine(s)..];
    FirstLineSplit(s);
    if k == |s| {
      assert a == s && SplitLines(rest) == [];
      NormalizeOneLine(s);
    } else {
      CleanStep(s, k, NextLine(s));
      if rest == [] {
        assert Clean(rest) == [];
        NormalizeLastLine(s, a);
        SplitOnNewlineCons(a, "");
        assert a + "\n" + "" == a + "\n";
      } else {
        NormalizeStep(s, a, rest);
        NormalizeKeepsLines(rest);
        SplitOnNewlineCons(a, Normalize(rest));
      }
    }
  }
}
