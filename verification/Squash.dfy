/** Texts up to the amount of white space between their visible parts. */
module Squash {
  import opened Text
  import opened Indentation

  /** `s` with every run of white space replaced by one blank; `inWs` says that a run is already open. */
  function Squashed(inWs: bool, s: string): string
    decreases |s|
  {
    if s == "" then ""
    else if IsWs(s[0]) then (if inWs then "" else " ") + Squashed(true, s[1..])
    else [s[0]] + Squashed(false, s[1..])
  }

  /** Whether a run of white space is open after `s`. */
  function OpenAfter(inWs: bool, s: string): bool {
    if s == "" then inWs else IsWs(s[|s| - 1])
  }

  lemma {:induction false} SquashedConcat(inWs: bool, a: string, b: string)
    ensures Squashed(inWs, a + b) == Squashed(inWs, a) + Squashed(OpenAfter(inWs, a), b)
    decreases |a|
  {
    hide IsWs;
    if a == "" {
      assert a + b == b;
    } else {
      var ws := IsWs(a[0]);
      assert (a + b)[1..] == a[1..] + b;
      SquashedConcat(ws, a[1..], b);
      assert OpenAfter(ws, a[1..]) == OpenAfter(inWs, a);
      var head := if ws then (if inWs then "" else " ") else [a[0]];
      Associate(head, Squashed(ws, a[1..]), Squashed(OpenAfter(inWs, a), b));
    }
  }

  lemma Associate(a: string, b: string, c: string)
    ensures a + (b + c) == (a + b) + c
  {
  }

  /** Squashing a squashed text changes nothing. */
  lemma {:induction false} SquashedTwice(inWs: bool, s: string)
    ensures Squashed(inWs, Squashed(inWs, s)) == Squashed(inWs, s)
    decreases |s|
  {
    if s != "" {
      SquashedTwice(IsWs(s[0]), s[1..]);
      var rest := Squashed(IsWs(s[0]), s[1..]);
      if IsWs(s[0]) {
        if inWs {
          assert "" + rest == rest;
        } else {
          assert (" " + rest)[1..] == rest;
        }
      } else {
        assert ([s[0]] + rest)[1..] == rest;
      }
    }
  }

  /** Equal up to the amount of white space. */
  ghost predicate Alike(s: string, t: string) {
    Squashed(false, s) == Squashed(false, t)
  }

  predicate StartsVisibly(s: string) {
    s == "" || !IsWs(s[0])
  }

  lemma OpenDoesNotMatter(s: string)
    requires StartsVisibly(s)
    ensures Squashed(true, s) == Squashed(false, s)
  {
  }

  /** White space only: nothing remains of it inside an open run. */
  lemma {:induction false} BlankDisappears(blank: string, s: string)
    requires forall c :: c in blank ==> IsWs(c)
    ensures Squashed(true, blank + s) == Squashed(true, s)
    ensures blank != "" ==> Squashed(false, blank + s) == " " + Squashed(true, s)
  {
    if blank == "" {
      assert blank + s == s;
    } else {
      assert blank[0] in blank;
      assert (blank + s)[1..] == blank[1..] + s;
      BlankDisappears(blank[1..], s);
    }
  }

  // ---- Re-indenting only changes the amount of white space ------------------

  /** Every trimmable character is one the parser skips as well, and there are no carriage returns. */
  predicate IsPlain(s: string) {
    forall c :: c in s && IsTrimmed(c) ==> c == ' ' || c == '\n'
  }

  /** A line break before each line. */
  function BreakBefore(lines: seq<string>): string {
    if lines == [] then "" else "\n" + lines[0] + BreakBefore(lines[1..])
  }

  /** White space around a line is lost between two line breaks. */
  lemma LineSquashes(line: string, rest: string)
    requires IsPlain(line)
    ensures Squashed(true, line + ("\n" + rest)) == Squashed(true, Trim(line) + ("\n" + rest))
  {
    hide Trim, Squashed;
    var before, after := TrimSplits(line);
    var core, tail := Trim(line), "\n" + rest;
    assert forall c :: c in before ==> c in line && IsWs(c);
    assert forall c :: c in after ==> c in line && IsWs(c);
    hide IsTrimmed, IsWs, IsPlain;
    assert line + tail == before + (core + (after + tail));
    BlankDisappears(before, core + (after + tail));
    SquashedConcat(true, core, after + tail);
    SquashedConcat(true, core, tail);
    BlankBeforeBreak(OpenAfter(true, core), after, rest);
  }

  lemma BlankBeforeBreak(inWs: bool, blank: string, rest: string)
    requires forall c :: c in blank ==> IsWs(c)
    ensures Squashed(inWs, blank + ("\n" + rest)) == Squashed(inWs, "\n" + rest)
  {
    BlankDisappears(blank + "\n", rest);
    BlankDisappears("\n", rest);
    assert blank + ("\n" + rest) == (blank + "\n") + rest;
  }

  /** Lines with the same cores squash alike, once something is known to follow the last one. */
  lemma {:induction false} SameCoresSquash(inWs: bool, a: seq<string>, b: seq<string>)
    requires TrimAll(a) == TrimAll(b)
    requires forall i :: 0 <= i < |a| ==> IsPlain(a[i])
    requires forall i :: 0 <= i < |b| ==> IsPlain(b[i])
    ensures Squashed(inWs, BreakBefore(a) + "\n") == Squashed(inWs, BreakBefore(b) + "\n")
    decreases |a|
  {
    assert |a| == |TrimAll(a)| == |TrimAll(b)| == |b|;
    if a != [] {
      assert TrimAll(a)[0] == TrimAll(b)[0];
      forall i | 0 <= i < |a| - 1 ensures TrimAll(a[1..])[i] == TrimAll(b[1..])[i] {
        assert TrimAll(a)[i + 1] == TrimAll(b)[i + 1];
      }
      assert TrimAll(a[1..]) == TrimAll(b[1..]);
      hide Trim, IsPlain, TrimAll;
      SameCoresSquash(OpenAfter(true, Trim(a[0])), a[1..], b[1..]);
      FirstLineSquash(inWs, a);
      FirstLineSquash(inWs, b);
    }
  }

  lemma FirstLineSquash(inWs: bool, a: seq<string>)
    requires a != [] && IsPlain(a[0])
    ensures Squashed(inWs, BreakBefore(a) + "\n") ==
            (if inWs then "" else " ") + Squashed(true, Trim(a[0])) + Squashed(OpenAfter(true, Trim(a[0])),
                BreakBefore(a[1..]) + "\n")
  {
    var text := BreakBefore(a[1..]) + "\n";
    var rest := text[1..];
    assert text == "\n" + rest;
    var body := a[0] + text;
    assert BreakBefore(a) + "\n" == "\n" + body;
    assert ("\n" + body)[1..] == body;
    LineSquashes(a[0], rest);
    SquashedConcat(true, Trim(a[0]), text);
  }

  /** A text without carriage returns that does not end in a line break is its lines. */
  lemma {:induction false} LinesRejoin(s: string)
    requires s != "" && s[|s| - 1] != '\n' && '\r' !in s
    ensures BreakBefore(Lines(s)) == "\n" + s
  {
    hide FirstLine;
    var line := FirstLine(s);
    if |line| == |s| {
      assert BreakBefore([line]) == "\n" + line + BreakBefore([line][1..]);
      assert line + "" == s;
    } else {
      var rest := s[|line| + 1..];
      assert s == line + "\n" + rest;
      assert rest != "" && rest[|rest| - 1] == s[|s| - 1];
      assert '\r' !in rest && WithoutCr(line) == line;
      LinesRejoin(rest);
      BreakCons(line, Lines(rest));
      Associate("\n" + line, "\n", rest);
    }
  }

  lemma BreakCons(line: string, rest: seq<string>)
    ensures BreakBefore([line] + rest) == "\n" + line + BreakBefore(rest)
  {
    assert ([line] + rest)[1..] == rest;
  }

  /** A text that starts and ends visibly, with blanks and line breaks as its only white space. */
  predicate IsPrinted(s: string) {
    s != "" && IsTight(s) && IsPlain(s)
  }

  lemma {:induction false} LineOf(s: string, line: string)
    requires line in Lines(s)
    ensures forall c :: c in line ==> c in s
  {
    var first := FirstLine(s);
    if |first| < |s| && line != WithoutCr(first) {
      LineOf(s[|first| + 1..], line);
    }
  }

  lemma {:induction false} SuffixIsBreaks(lines: seq<string>, indent: nat, padded: seq<string>)
    requires |padded| == |lines| && forall i :: 0 <= i < |lines| ==> padded[i] == Spaces(indent) + lines[i]
    ensures SuffixLines(lines, indent) == BreakBefore(padded)
  {
    if lines != [] {
      SuffixIsBreaks(lines[1..], indent, padded[1..]);
      assert "\n" + Spaces(indent) + lines[0] == "\n" + padded[0];
    }
  }

  lemma VisibleStays(s: string)
    requires s != "" && !IsTrimmed(s[|s| - 1])
    ensures Trim(s) != ""
  {
    var before, after := TrimSplits(s);
    var c := s[|s| - 1];
    assert c in before + Trim(s) + after;
    assert c in before || c in Trim(s) || c in after;
  }

  lemma LastCoreVisible(s: string)
    requires IsPrinted(s)
    ensures DropTrailingEmpty(TrimAll(Lines(s))) == TrimAll(Lines(s)) && Lines(s) != []
    ensures Trim(Lines(s)[|Lines(s)| - 1]) != ""
  {
    hide Trim, Lines;
    LastLineEnds(s);
    VisibleStays(Lines(s)[|Lines(s)| - 1]);
  }

  lemma {:induction false} LastLineEnds(s: string)
    requires s != "" && !IsTrimmed(s[|s| - 1])
    ensures Lines(s) != []
    ensures var last := Lines(s)[|Lines(s)| - 1]; last != "" && last[|last| - 1] == s[|s| - 1]
  {
    hide IsTrimmed, WithoutCr, FirstLine;
    var first := FirstLine(s);
    if |first| == |s| {
      assert Lines(s) == [first] && first == s[..|s|] == s;
    } else {
      var rest := s[|first| + 1..];
      BreakIsTrimmed();
      assert rest != "" && rest[|rest| - 1] == s[|s| - 1];
      LastLineEnds(rest);
      LastOfCons(WithoutCr(first), Lines(rest));
      assert Lines(s) == [WithoutCr(first)] + Lines(rest);
    }
  }

  lemma LastOfCons(head: string, lines: seq<string>)
    requires lines != []
    ensures var all := [head] + lines; all[|all| - 1] == lines[|lines| - 1]
  {
  }

  lemma BreakIsTrimmed()
    ensures IsTrimmed('\n') && IsTrimmed('\r')
  {
  }

  /** Printing a text behind a prefix, re-indented, only changes the amount of white space; it still ends visibly. */
  lemma MultilineSuffixSquashes(inWs: bool, s: string, indent: nat)
    requires IsPrinted(s)
    ensures Squashed(inWs, MultilineSuffix(s, indent)) == (if inWs then "" else " ") + Squashed(false, s)
    ensures MultilineSuffix(s, indent) != "" && !OpenAfter(inWs, MultilineSuffix(s, indent))
    ensures IsPlain(MultilineSuffix(s, indent))
  {
    hide Lines, Normalized, Trim, Spaces, SuffixLines, BreakBefore, DropTrailingEmpty;
    var raw := Lines(s);
    var lines := Lines(Normalized(s));
    NormalizeKeepsText(s);
    LastCoreVisible(s);
    assert TrimAll(lines) == TrimAll(raw);
    assert |lines| == |TrimAll(lines)| == |raw|;
    var padded := seq(|lines|, i requires 0 <= i < |lines| => Spaces(indent) + lines[i]);
    SuffixIsBreaks(lines, indent, padded);
    PaddedLines(s, indent, lines, padded);
    forall line | line in raw ensures IsPlain(line) {
      LineOf(s, line);
    }
    SameCoresSquash(inWs, padded, raw);
    assert '\r' !in s by {
      assert IsTrimmed('\r');
    }
    assert s[|s| - 1] != '\n';
    LinesRejoin(s);
    EndsVisibly(padded);
    ClosedByBreak(inWs, BreakBefore(padded));
    ClosedByBreak(inWs, "\n" + s);
    SameBeforeLast(Squashed(inWs, BreakBefore(padded)), Squashed(inWs, "\n" + s));
    OpenDoesNotMatter(s);
    assert ("\n" + s)[1..] == s;
  }

  lemma SameBeforeLast(a: string, b: string)
    requires a + " " == b + " "
    ensures a == b
  {
    assert |a + " "| == |b + " "|;
    assert a == (a + " ")[..|a|] && b == (b + " ")[..|a|];
  }

  lemma ClosedByBreak(inWs: bool, s: string)
    requires !OpenAfter(inWs, s)
    ensures Squashed(inWs, s + "\n") == Squashed(inWs, s) + " "
  {
    SquashedConcat(inWs, s, "\n");
    assert Squashed(false, "\n") == " ";
  }

  lemma {:induction false} EndsVisibly(lines: seq<string>)
    requires forall i :: 0 <= i < |lines| ==> IsPlain(lines[i])
    requires lines != [] && lines[|lines| - 1] != "" && !IsTrimmed(lines[|lines| - 1][|lines[|lines| - 1]| - 1])
    ensures var text := BreakBefore(lines); text != "" && !IsTrimmed(text[|text| - 1]) && IsPlain(text)
  {
    var text, rest := BreakBefore(lines), BreakBefore(lines[1..]);
    assert text == "\n" + lines[0] + rest;
    if |lines| == 1 {
      assert rest == "";
      assert text == "\n" + lines[0];
    } else {
      EndsVisibly(lines[1..]);
      assert text[|text| - 1] == rest[|rest| - 1];
    }
    forall c | c in text && IsTrimmed(c) ensures c == ' ' || c == '\n' {
      assert c == '\n' || c in lines[0] || c in rest;
    }
  }

  lemma PaddedLine(line: string, raw: string, pad: string, s: string)
    requires IsIndented(line, Trim(raw)) && Trim(line) == Trim(raw)
    requires (forall c :: c in raw ==> c in s) && IsPlain(s) && forall c :: c in pad ==> c == ' '
    ensures Trim(pad + line) == Trim(raw) && IsPlain(pad + line)
  {
    var core := Trim(raw);
    var before, after := TrimSplits(raw);
    assert forall c :: c in core ==> c in raw;
    var b, a := TrimSplits(line);
    assert AllTrimmed(pad + b);
    TrimOfPadded(pad + b, core, a);
    assert pad + b + core + a == pad + line;
    forall c | c in pad + line && IsTrimmed(c) ensures c == ' ' || c == '\n' {
      if c in line && core != "" {
        assert c in Spaces(|line| - |core|) || c in core;
      }
    }
  }

  lemma LinePadded(s: string, indent: nat, line: string, raw: string)
    requires IsPlain(s) && raw in Lines(s) && IsIndented(line, Trim(raw)) && Trim(line) == Trim(raw)
    ensures Trim(Spaces(indent) + line) == Trim(raw) && IsPlain(Spaces(indent) + line)
  {
    hide Lines, Trim, IsPlain, IsIndented;
    LineOf(s, raw);
    PaddedLine(line, raw, Spaces(indent), s);
  }

  /** What is known of each written line: its core is that of the raw line, and it ends visibly. */
  lemma WrittenLines(s: string, lines: seq<string>)
    requires lines == Lines(Normalized(s)) && TrimAll(lines) == TrimAll(Lines(s))
    ensures |lines| == |Lines(s)|
    ensures forall i :: 0 <= i < |lines| ==>
              && Trim(lines[i]) == Trim(Lines(s)[i]) && IsIndented(lines[i], Trim(Lines(s)[i])) && IsTidy(lines[i])
  {
    hide Lines, Normalized, Trim, IsIndented, IsTidy, OutLines, DropTrailingEmpty;
    var raw := Lines(s);
    assert |lines| == |TrimAll(lines)| == |TrimAll(raw)| == |raw|;
    NormalizedLines(s);
    LinesHaveNoBreaks(s);
    OutLinesKeepCores(raw, 0);
    forall i | 0 <= i < |lines|
      ensures Trim(lines[i]) == Trim(raw[i]) && IsIndented(lines[i], Trim(raw[i])) && IsTidy(lines[i])
    {
      assert TrimAll(lines)[i] == TrimAll(raw)[i];
      assert lines[i] == OutLines(raw, 0)[i];
    }
  }

  /** A tidy line with a core, behind some blanks, ends visibly. */
  lemma EndsAsLine(pad: string, line: string)
    requires IsTidy(line) && Trim(line) != ""
    ensures pad + line != "" && !IsTrimmed((pad + line)[|pad + line| - 1])
  {
    assert Trim("") == "";
  }

  /** The written lines, padded: same cores, plain, and the last one ends visibly. */
  lemma PaddedLines(s: string, indent: nat, lines: seq<string>, padded: seq<string>)
    requires IsPrinted(s) && lines == Lines(Normalized(s)) && TrimAll(lines) == TrimAll(Lines(s))
    requires |padded| == |lines| && forall i :: 0 <= i < |lines| ==> padded[i] == Spaces(indent) + lines[i]
    ensures TrimAll(padded) == TrimAll(Lines(s))
    ensures forall i :: 0 <= i < |padded| ==> IsPlain(padded[i])
    ensures padded != [] && padded[|padded| - 1] != ""
    ensures !IsTrimmed(padded[|padded| - 1][|padded[|padded| - 1]| - 1])
  {
    hide Lines, Normalized, Trim, IsIndented, IsTidy, IsPlain, IsTrimmed, Spaces;
    var raw := Lines(s);
    WrittenLines(s, lines);
    LastCoreVisible(s);
    forall i | 0 <= i < |padded| ensures Trim(padded[i]) == Trim(raw[i]) && IsPlain(padded[i]) {
      assert raw[i] in raw;
      LinePadded(s, indent, lines[i], raw[i]);
    }
    var n := |padded| - 1;
    EndsAsLine(Spaces(indent), lines[n]);
  }
}
