/** Re-indenting a block of text by its brackets, and placing it behind a prefix. */
module Indentation {
  import opened Text

  const INDENT_STEP: nat := 4

  function Spaces(n: nat): (r: string)
    ensures |r| == n && forall c :: c in r ==> c == ' '
  {
    seq(n, i => ' ')
  }

  predicate IsOpening(c: char) {
    c == '{' || c == '['
  }

  predicate IsClosing(c: char) {
    c == '}' || c == ']'
  }

  /** The nesting level after reading `s`; closing brackets that match nothing are ignored. */
  function LevelAfter(s: string, level: nat): nat {
    if s == "" then level
    else
      LevelAfter(s[1..], if IsOpening(s[0]) then level + 1 else if IsClosing(s[0]) && level > 0 then level - 1
          else level)
  }

  /** The level a visible line is indented to: one less when it starts by closing. */
  function IndentOf(core: string, level: nat): nat
    requires core != ""
  {
    if IsClosing(core[0]) && level > 0 then level - 1 else level
  }

  function NextLevel(core: string, level: nat): nat
    requires core != ""
  {
    LevelAfter(if IsClosing(core[0]) then core[1..] else core, IndentOf(core, level))
  }

  /** The lines as they are written out. */
  function OutLines(lines: seq<string>, level: nat): (r: seq<string>)
    ensures |r| == |lines|
  {
    if lines == [] then []
    else
      var core := Trim(lines[0]);
      if core == "" then [""] + OutLines(lines[1..], level)
      else [Spaces(IndentOf(core, level) * INDENT_STEP) + core] + OutLines(lines[1..], NextLevel(core, level))
  }

  function PopNewlines(s: string): string {
    if s != "" && s[|s| - 1] == '\n' then PopNewlines(s[..|s| - 1]) else s
  }

  function Normalized(block: string): string {
    PopNewlines(Unlines(OutLines(Lines(block), 0)))
  }

  // ---- What re-indenting keeps ---------------------------------------------

  /** A line that is empty or ends visibly, without line breaks of its own. */
  predicate IsTidy(line: string) {
    '\n' !in line && (line != "" ==> !IsTrimmed(line[|line| - 1]))
  }

  lemma CoreOfLine(line: string)
    requires '\n' !in line
    ensures '\n' !in Trim(line) && IsTight(Trim(line)) && Trim(Trim(line)) == Trim(line)
  {
    var before, after := TrimSplits(line);
    assert forall c :: c in Trim(line) ==> c in before + Trim(line) + after;
    TrimOfPadded("", Trim(line), "");
    assert "" + Trim(line) + "" == Trim(line);
  }

  lemma WithoutCrKeeps(line: string)
    requires '\n' !in line
    ensures '\n' !in WithoutCr(line)
  {
  }

  lemma {:induction false} LinesHaveNoBreaks(s: string)
    ensures forall line :: line in Lines(s) ==> '\n' !in line
  {
    if s != "" {
      var line := FirstLine(s);
      if |line| < |s| {
        LinesHaveNoBreaks(s[|line| + 1..]);
        WithoutCrKeeps(line);
      }
    }
  }

  /** A core behind some blanks; nothing at all when there is no core. */
  predicate IsIndented(line: string, core: string) {
    if core == "" then line == "" else |line| >= |core| && line == Spaces(|line| - |core|) + core
  }

  /** Each written line has the core of the line it came from, and ends tidily. */
  lemma {:induction false} OutLinesKeepCores(lines: seq<string>, level: nat)
    requires forall line :: line in lines ==> '\n' !in line
    ensures TrimAll(OutLines(lines, level)) == TrimAll(lines)
    ensures forall i :: 0 <= i < |lines| ==>
              IsTidy(OutLines(lines, level)[i]) && (OutLines(lines, level)[i] == "" <==> Trim(lines[i]) == "")
    ensures forall i :: 0 <= i < |lines| ==> IsIndented(OutLines(lines, level)[i], Trim(lines[i]))
  {
    hide Trim, LevelAfter;
    if lines != [] {
      var core := Trim(lines[0]);
      CoreOfLine(lines[0]);
      var next := if core == "" then level else NextLevel(core, level);
      OutLinesKeepCores(lines[1..], next);
      var out, rest := OutLines(lines, level), OutLines(lines[1..], next);
      assert out == [out[0]] + rest;
      if core != "" {
        var pad := Spaces(IndentOf(core, level) * INDENT_STEP);
        TrimOfPadded(pad, core, "");
        assert pad + core + "" == pad + core;
      }
      assert Trim(out[0]) == core;
      forall i | 0 <= i < |lines|
        ensures TrimAll(out)[i] == TrimAll(lines)[i]
        ensures IsTidy(out[i]) && (out[i] == "" <==> Trim(lines[i]) == "") && IsIndented(out[i], Trim(lines[i]))
      {
        if i > 0 {
          assert out[i] == rest[i - 1] && lines[i] == lines[1..][i - 1];
          assert TrimAll(rest)[i - 1] == TrimAll(lines[1..])[i - 1];
        }
      }
    }
  }

  /** What is written depends only on the cores of the lines. */
  lemma {:induction false} OutLinesDependOnCores(a: seq<string>, b: seq<string>, level: nat)
    requires TrimAll(a) == TrimAll(b)
    ensures OutLines(a, level) == OutLines(b, level)
  {
    assert |a| == |TrimAll(a)| == |TrimAll(b)| == |b|;
    if a != [] {
      var core := Trim(a[0]);
      assert TrimAll(a)[0] == TrimAll(b)[0];
      forall i | 0 <= i < |a| - 1 ensures TrimAll(a[1..])[i] == TrimAll(b[1..])[i] {
        assert TrimAll(a)[i + 1] == TrimAll(b)[i + 1];
      }
      assert TrimAll(a[1..]) == TrimAll(b[1..]);
      OutLinesDependOnCores(a[1..], b[1..], if core == "" then level else NextLevel(core, level));
    }
  }

  lemma {:induction false} OutLinesPrefix(lines: seq<string>, k: nat, level: nat)
    requires k <= |lines|
    ensures OutLines(lines[..k], level) == OutLines(lines, level)[..k]
  {
    if k > 0 {
      var core := Trim(lines[0]);
      assert lines[..k][1..] == lines[1..][..k - 1];
      OutLinesPrefix(lines[1..], k - 1, if core == "" then level else NextLevel(core, level));
    }
  }

  lemma {:induction false} DropIsPrefix(lines: seq<string>) returns (k: nat)
    ensures k <= |lines| && DropTrailingEmpty(lines) == lines[..k]
    ensures k > 0 ==> lines[k - 1] != ""
    ensures forall i :: k <= i < |lines| ==> lines[i] == ""
  {
    if lines != [] && lines[|lines| - 1] == "" {
      k := DropIsPrefix(lines[..|lines| - 1]);
    } else {
      k := |lines|;
    }
  }

  lemma {:induction false} UnlinesAppend(lines: seq<string>, line: string)
    ensures Unlines(lines + [line]) == Unlines(lines) + line + "\n"
  {
    if lines == [] {
      assert Unlines([line]) == line + "\n" + Unlines([line][1..]);
      assert [] + [line] == [line];
    } else {
      UnlinesAppend(lines[1..], line);
      assert (lines + [line])[1..] == lines[1..] + [line];
    }
  }

  lemma PopOne(text: string, line: string)
    ensures (text + line + "\n")[..|text + line + "\n"| - 1] == text + line
    ensures PopNewlines(text + line + "\n") == PopNewlines(text + line)
  {
  }

  lemma EndsTidily(text: string, line: string)
    requires IsTidy(line) && line != ""
    ensures PopNewlines(text + line) == text + line
  {
    assert (text + line)[|text + line| - 1] == line[|line| - 1];
  }

  /** Popping line breaks removes exactly the empty lines at the end and the last break. */
  lemma {:induction false} PopOfUnlines(lines: seq<string>)
    requires forall line :: line in lines ==> IsTidy(line)
    ensures PopNewlines(Unlines(lines)) == PopNewlines(Unlines(DropTrailingEmpty(lines)))
    ensures DropTrailingEmpty(lines) == lines && lines != [] ==>
              PopNewlines(Unlines(lines)) == Unlines(lines[..|lines| - 1]) + lines[|lines| - 1]
  {
    if lines != [] {
      var n := |lines| - 1;
      UnlinesAppend(lines[..n], lines[n]);
      assert lines == lines[..n] + [lines[n]];
      hide Unlines, PopNewlines, IsTidy;
      var text := Unlines(lines);
      PopOne(Unlines(lines[..n]), lines[n]);
      if lines[n] == "" {
        assert text[..|text| - 1] == Unlines(lines[..n]);
        PopOfUnlines(lines[..n]);
      } else {
        assert lines[n] in lines;
        EndsTidily(Unlines(lines[..n]), lines[n]);
      }
    }
  }

  /** What a line can be without being split or losing a carriage return. */
  predicate IsWhole(line: string) {
    '\n' !in line && WithoutCr(line) == line
  }

  lemma TidyLine(line: string)
    requires IsTidy(line)
    ensures IsWhole(line)
  {
  }

  lemma WholeLine(line: string)
    requires IsWhole(line)
    ensures '\n' !in line && WithoutCr(line) == line
  {
  }

  /** Splitting undoes joining. */
  lemma {:induction false} LinesOfJoined(lines: seq<string>, last: string)
    requires forall line :: line in lines ==> IsWhole(line)
    requires IsWhole(last) && last != ""
    ensures Lines(Unlines(lines) + last) == lines + [last]
  {
    hide WithoutCr, FirstLine, IsWhole;
    WholeLine(last);
    if lines == [] {
      FirstLineOf(last, "");
      assert Unlines([]) + last == last;
    } else {
      var line, rest := lines[0], Unlines(lines[1..]) + last;
      var text := Unlines(lines) + last;
      assert text == line + "\n" + rest;
      assert line in lines;
      WholeLine(line);
      FirstLineOf(line, rest);
      assert text[|line| + 1..] == rest;
      LinesOfJoined(lines[1..], last);
      assert lines + [last] == [line] + (lines[1..] + [last]);
    }
  }

  /** The lines of the normalized text are the written lines without the empty ones at the end. */
  lemma NormalizedLines(block: string)
    ensures Lines(Normalized(block)) == DropTrailingEmpty(OutLines(Lines(block), 0))
  {
    hide Trim, IsTidy, Unlines, PopNewlines, OutLines, Lines, DropTrailingEmpty;
    var out := OutLines(Lines(block), 0);
    LinesHaveNoBreaks(block);
    OutLinesKeepCores(Lines(block), 0);
    assert forall line :: line in out ==> IsTidy(line);
    JoinedLines(out);
  }

  lemma JoinedLines(out: seq<string>)
    requires forall line :: line in out ==> IsTidy(line)
    ensures Lines(PopNewlines(Unlines(out))) == DropTrailingEmpty(out)
  {
    hide IsTidy, Lines;
    NoLines();
    var k := DropIsPrefix(out);
    var kept := out[..k];
    PopOfUnlines(out);
    KeptIsStable(out, k);
    PopOfUnlines(kept);
    if k > 0 {
      forall line | line in kept ensures IsWhole(line) {
        TidyLine(line);
      }
      LinesOfJoined(kept[..k - 1], kept[k - 1]);
      assert kept[..k - 1] + [kept[k - 1]] == kept;
    }
  }

  lemma NoLines()
    ensures Lines(PopNewlines(Unlines([]))) == []
  {
  }

  lemma KeptIsStable(lines: seq<string>, k: nat)
    requires k <= |lines| && (k > 0 ==> lines[k - 1] != "")
    ensures DropTrailingEmpty(lines[..k]) == lines[..k]
  {
  }

  /** Normalizing keeps every line's visible text and all line breaks except those after the last visible line. */
  lemma NormalizeKeepsText(block: string)
    ensures TrimAll(Lines(Normalized(block))) == DropTrailingEmpty(TrimAll(Lines(block)))
  {
    hide Lines, OutLines, Normalized, DropTrailingEmpty, Trim, IsTidy;
    var lines := Lines(block);
    var out := OutLines(lines, 0);
    NormalizedLines(block);
    LinesHaveNoBreaks(block);
    OutLinesKeepCores(lines, 0);
    var k := DropIsPrefix(out);
    var j := DropIsPrefix(TrimAll(lines));
    assert forall i :: 0 <= i < |lines| ==> (out[i] == "" <==> TrimAll(lines)[i] == "");
    assert j == k;
    assert TrimAll(out[..k]) == TrimAll(out)[..k];
  }

  /** Normalizing twice is normalizing once. */
  lemma NormalizeIdempotent(block: string)
    ensures Normalized(Normalized(block)) == Normalized(block)
  {
    hide Lines, OutLines, DropTrailingEmpty, Trim, IsTidy, Unlines, PopNewlines;
    var lines := Lines(block);
    var out := OutLines(lines, 0);
    NormalizedLines(block);
    LinesHaveNoBreaks(block);
    OutLinesKeepCores(lines, 0);
    assert forall line :: line in out ==> IsTidy(line);
    var k := DropIsPrefix(out);
    var kept := out[..k];
    OutLinesPrefix(lines, k, 0);
    assert TrimAll(kept) == TrimAll(out)[..k] == TrimAll(lines[..k]);
    OutLinesDependOnCores(kept, lines[..k], 0);
    PopOfUnlines(out);
    assert OutLines(Lines(Normalized(block)), 0) == kept;
  }

  // ---- The routines --------------------------------------------------------

  /** The inner loop over the characters of a line. */
  method ScanBrackets(trimmed: string, leadingClosing: bool, indentLevel: nat) returns (localLevel: nat)
    requires leadingClosing ==> trimmed != ""
    ensures localLevel == LevelAfter(if leadingClosing then trimmed[1..] else trimmed, indentLevel)
  {
    localLevel := indentLevel;
    var start := if leadingClosing then 1 else 0;
    ghost var target := LevelAfter(trimmed[start..], indentLevel);
    for idx := start to |trimmed|
      invariant LevelAfter(trimmed[idx..], localLevel) == target
    {
      var ch := trimmed[idx];
      assert trimmed[idx..][1..] == trimmed[idx + 1..];
      if IsOpening(ch) {
        localLevel := localLevel + 1;
      } else if IsClosing(ch) {
        if localLevel > 0 {
          localLevel := localLevel - 1;
        }
      }
    }
  }

  method NormalizeIndentation(block: string) returns (normalized: string)
    ensures normalized == Normalized(block)
  {
    hide TrimStart, TrimEnd, LevelAfter, Lines, IsClosing, Spaces, OutLines, Unlines;
    var lines := Lines(block);
    normalized := "";
    var level: nat := 0;
    ghost var whole := Unlines(OutLines(lines, 0));
    assert lines[0..] == lines;
    for i := 0 to |lines|
      invariant normalized + Unlines(OutLines(lines[i..], level)) == whole
    {
      var line := TrimEnd(lines[i]);
      ghost var before := normalized;
      NextOutLine(lines, i, level);
      TrimTwice(lines[i]);
      if Trim(line) == "" {
        normalized := normalized + "\n";
        Regrouped(before, "\n", Unlines(OutLines(lines[i + 1..], level)), normalized);
      } else {
        var trimmed := TrimStart(line);
        var indentLevel := level;
        var leadingClosing := false;
        if IsClosing(trimmed[0]) {
          leadingClosing := true;
          if indentLevel > 0 {
            indentLevel := indentLevel - 1;
          }
        }
        normalized := PushSpaces(normalized, indentLevel * INDENT_STEP);
        normalized := normalized + trimmed;
        normalized := normalized + "\n";
        level := ScanBrackets(trimmed, leadingClosing, indentLevel);
        Regrouped(before, Spaces(indentLevel * INDENT_STEP) + trimmed + "\n", Unlines(OutLines(lines[i + 1..], level)),
            normalized);
      }
    }
    NothingLeft(lines, level);
    assert normalized + "" == normalized;
    normalized := PopTrailingNewlines(normalized);
  }

  lemma Regrouped(a: string, b: string, c: string, ab: string)
    requires ab == a + b
    ensures a + (b + c) == ab + c
  {
  }

  lemma NothingLeft(lines: seq<string>, level: nat)
    ensures Unlines(OutLines(lines[|lines|..], level)) == ""
  {
  }

  method PopTrailingNewlines(text: string) returns (normalized: string)
    ensures normalized == PopNewlines(text)
  {
    normalized := text;
    while normalized != "" && normalized[|normalized| - 1] == '\n'
      invariant PopNewlines(normalized) == PopNewlines(text)
      decreases |normalized|
    {
      normalized := normalized[..|normalized| - 1];
    }
  }

  method PushSpaces(text: string, n: nat) returns (r: string)
    ensures r == text + Spaces(n)
  {
    r := text;
    for j := 0 to n
      invariant r == text + Spaces(j)
    {
      r := r + [' '];
    }
  }

  /** The text still to be written, after the next line has been. */
  lemma NextOutLine(lines: seq<string>, i: nat, level: nat)
    requires i < |lines|
    ensures var core := Trim(lines[i]);
            Unlines(OutLines(lines[i..], level)) ==
            if core == "" then "\n" + Unlines(OutLines(lines[i + 1..], level))
            else Spaces(IndentOf(core, level) * INDENT_STEP) + core + "\n" + Unlines(OutLines(lines[i + 1..],
                NextLevel(core, level)))
  {
    hide Trim, LevelAfter;
    var core := Trim(lines[i]);
    assert lines[i..][0] == lines[i] && lines[i..][1..] == lines[i + 1..];
    if core == "" {
      UnlinesCons("", OutLines(lines[i + 1..], level));
    } else {
      UnlinesCons(Spaces(IndentOf(core, level) * INDENT_STEP) + core, OutLines(lines[i + 1..], NextLevel(core, level)));
    }
  }

  lemma UnlinesCons(line: string, rest: seq<string>)
    ensures Unlines([line] + rest) == line + "\n" + Unlines(rest)
  {
    assert ([line] + rest)[1..] == rest;
  }

  /** `trim` after `trim_end` finds the same core. */
  lemma TrimTwice(s: string)
    ensures Trim(TrimEnd(s)) == Trim(s)
  {
    var after := TrimEndSplits(s);
    TrimEndKeeps(TrimEnd(s), "");
    assert TrimEnd(s) + "" == TrimEnd(s);
  }

  /** A value's text behind a prefix: each normalized line on a line of its own, indented by `indent`. */
  function SuffixLines(lines: seq<string>, indent: nat): string {
    if lines == [] then "" else "\n" + Spaces(indent) + lines[0] + SuffixLines(lines[1..], indent)
  }

  function MultilineSuffix(rendered: string, indent: nat): string {
    SuffixLines(Lines(Normalized(rendered)), indent)
  }

  method WriteMultilineSuffix(f: string, rendered: string, indent: nat) returns (written: string)
    ensures written == f + MultilineSuffix(rendered, indent)
  {
    var normalized := NormalizeIndentation(rendered);
    var lines := Lines(normalized);
    written := f;
    for i := 0 to |lines|
      invariant written + SuffixLines(lines[i..], indent) == f + MultilineSuffix(rendered, indent)
    {
      assert lines[i..][1..] == lines[i + 1..];
      written := written + "\n" + Spaces(indent) + lines[i];
    }
  }

  // ---- Indentation is nesting depth -------------------------------------------

  /** Opening brackets minus closing ones. */
  function Net(s: string): int {
    if s == "" then 0
    else (if IsOpening(s[0]) then 1 else if IsClosing(s[0]) then -1 else 0) + Net(s[1..])
  }

  /** Starting at `level`, nothing is closed that was not opened. */
  ghost predicate NeverBelow(s: string, level: nat) {
    forall k :: 0 <= k <= |s| ==> level + Net(s[..k]) >= 0
  }

  function Cores(lines: seq<string>): string {
    if lines == [] then "" else Trim(lines[0]) + Cores(lines[1..])
  }

  lemma {:induction false} NetConcat(a: string, b: string)
    ensures Net(a + b) == Net(a) + Net(b)
  {
    if a == "" {
      assert a + b == b;
    } else {
      assert (a + b)[1..] == a[1..] + b;
      NetConcat(a[1..], b);
    }
  }

  lemma {:induction false} NeverBelowSplit(a: string, b: string, level: nat)
    requires NeverBelow(a + b, level)
    ensures NeverBelow(a, level) && level + Net(a) >= 0 && NeverBelow(b, level + Net(a))
  {
    forall k | 0 <= k <= |a| ensures level + Net(a[..k]) >= 0 {
      assert (a + b)[..k] == a[..k];
    }
    assert a[..|a|] == a;
    forall k | 0 <= k <= |b| ensures level + Net(a) + Net(b[..k]) >= 0 {
      assert (a + b)[..|a| + k] == a + b[..k];
      NetConcat(a, b[..k]);
    }
  }

  lemma {:induction false} LevelIsNet(s: string, level: nat)
    requires NeverBelow(s, level)
    ensures LevelAfter(s, level) == level + Net(s)
  {
    if s != "" {
      var head := [s[0]];
      assert s == head + s[1..];
      assert head[1..] == "" && Net(head) == (if IsOpening(s[0]) then 1 else if IsClosing(s[0]) then -1 else 0);
      NeverBelowSplit(head, s[1..], level);
      LevelIsNet(s[1..], level + Net(head));
    }
  }

  lemma NextLevelIsNet(core: string, level: nat)
    requires core != "" && NeverBelow(core, level)
    ensures NextLevel(core, level) == level + Net(core)
    ensures IndentOf(core, level) == level - if IsClosing(core[0]) then 1 else 0
  {
    hide LevelAfter;
    var head := [core[0]];
    assert core == head + core[1..];
    assert head[1..] == "" && Net(head) == (if IsOpening(core[0]) then 1 else if IsClosing(core[0]) then -1 else 0);
    NeverBelowSplit(head, core[1..], level);
    if IsClosing(core[0]) {
      LevelIsNet(core[1..], level - 1);
      NetConcat(head, core[1..]);
    } else {
      LevelIsNet(core, level);
    }
  }

  /**
   * Unless something is closed that was never opened, a line is indented by four blanks for each bracket open around
   * it.
   */
  lemma {:induction false} IndentIsDepth(lines: seq<string>, level: nat, i: nat)
    requires NeverBelow(Cores(lines), level) && i < |lines| && Trim(lines[i]) != ""
    ensures var depth := level + Net(Cores(lines[..i])) - if IsClosing(Trim(lines[i])[0]) then 1 else 0;
            depth >= 0 && OutLines(lines, level)[i] == Spaces(depth * INDENT_STEP) + Trim(lines[i])
  {
    hide Trim, LevelAfter, NextLevel, IndentOf, NeverBelow;
    var core := Trim(lines[0]);
    NeverBelowSplit(core, Cores(lines[1..]), level);
    if core != "" {
      NextLevelIsNet(core, level);
    }
    if i == 0 {
      assert lines[..0] == [];
    } else {
      assert lines[..i][1..] == lines[1..][..i - 1];
      IndentIsDepth(lines[1..], level + Net(core), i - 1);
      NetConcat(core, Cores(lines[..i][1..]));
    }
  }

  // ---- Whatever is closed without having been opened ----------------------------

  /** `n` is how many brackets are still open at the end of `s`: the most that any ending of `s` opens on balance. */
  ghost predicate StillOpen(s: string, n: nat) {
    && (exists k :: 0 <= k <= |s| && Net(s[k..]) == n)
    && forall k :: 0 <= k <= |s| ==> Net(s[k..]) <= n
  }

  lemma {:induction false} LevelIsGreatest(s: string, level: nat)
    ensures forall k :: 0 <= k <= |s| ==> Net(s[k..]) <= LevelAfter(s, level)
    ensures level + Net(s) <= LevelAfter(s, level)
    ensures LevelAfter(s, level) == level + Net(s) || exists k :: 0 <= k <= |s| && LevelAfter(s, level) == Net(s[k..])
  {
    if s != "" {
      var next := if IsOpening(s[0]) then level + 1 else if IsClosing(s[0]) && level > 0 then level - 1 else level;
      assert LevelAfter(s, level) == LevelAfter(s[1..], next);
      LevelIsGreatest(s[1..], next);
      forall k | 0 <= k <= |s| ensures Net(s[k..]) <= LevelAfter(s, level) {
        if k > 0 {
          assert s[k..] == s[1..][k - 1..];
        } else {
          assert s[0..] == s;
        }
      }
      assert s[1..][0..] == s[1..];
      if k :| 0 <= k <= |s[1..]| && LevelAfter(s[1..], next) == Net(s[1..][k..]) {
        assert s[k + 1..] == s[1..][k..];
      }
    }
  }

  lemma {:induction false} LevelConcat(a: string, b: string, level: nat)
    ensures LevelAfter(a + b, level) == LevelAfter(b, LevelAfter(a, level))
  {
    if a == "" {
      assert a + b == b;
    } else {
      assert (a + b)[1..] == a[1..] + b;
      var next := if IsOpening(a[0]) then level + 1 else if IsClosing(a[0]) && level > 0 then level - 1 else level;
      LevelConcat(a[1..], b, next);
    }
  }

  /** What is open when a line starts; a bracket that closes at its start is no longer open. */
  function TextBefore(lines: seq<string>, i: nat): string
    requires i < |lines|
  {
    Cores(lines[..i]) + if Trim(lines[i]) != "" && IsClosing(Trim(lines[i])[0]) then Trim(lines[i])[..1] else ""
  }

  lemma {:induction false} IndentIsLevel(lines: seq<string>, level: nat, i: nat)
    requires i < |lines| && Trim(lines[i]) != ""
    ensures OutLines(lines, level)[i] == Spaces(LevelAfter(TextBefore(lines, i), level) * INDENT_STEP) + Trim(lines[i])
  {
    hide Trim, IsClosing, IsOpening;
    var core := Trim(lines[0]);
    if i == 0 {
      assert lines[..0] == [];
      assert TextBefore(lines, 0) == if IsClosing(core[0]) then core[..1] else "";
      OneBracket(core, level);
    } else {
      assert lines[..i][1..] == lines[1..][..i - 1];
      IndentIsLevel(lines[1..], LevelAfter(core, level), i - 1);
      assert TextBefore(lines, i) == core + TextBefore(lines[1..], i - 1);
      LevelConcat(core, TextBefore(lines[1..], i - 1), level);
      if core != "" {
        LevelOfLine(core, level);
      }
    }
  }

  lemma OneBracket(core: string, level: nat)
    requires core != ""
    ensures IndentOf(core, level) == LevelAfter(if IsClosing(core[0]) then core[..1] else "", level)
  {
    assert core[..1][1..] == "";
  }

  lemma LevelOfLine(core: string, level: nat)
    requires core != ""
    ensures NextLevel(core, level) == LevelAfter(core, level)
  {
  }

  /** Whatever the brackets, a line is indented by four blanks for each bracket that is still open before it. */
  lemma IndentIsOpen(lines: seq<string>, i: nat) returns (n: nat)
    requires i < |lines| && Trim(lines[i]) != ""
    ensures StillOpen(TextBefore(lines, i), n)
    ensures OutLines(lines, 0)[i] == Spaces(n * INDENT_STEP) + Trim(lines[i])
  {
    hide Trim, TextBefore, OutLines, LevelAfter;
    var text := TextBefore(lines, i);
    n := LevelAfter(text, 0);
    IndentIsLevel(lines, 0, i);
    LevelIsGreatest(text, 0);
    assert text[0..] == text;
  }
}
