/** Characters, white space, lines and trimming, as the Rust standard library and the parser library see them. */
module Text {

  /** White space the parser skips. */
  predicate IsWs(c: char) {
    c == ' ' || c == '\t' || c == '\r' || c == '\n'
  }

  /** White space `str::trim` removes: the Unicode White_Space characters. */
  predicate IsTrimmed(c: char) {
    || IsWs(c) || c == '\U{0B}' || c == '\U{0C}' || c == '\U{85}' || c == '\U{A0}' || c == '\U{1680}'
    || '\U{2000}' <= c <= '\U{200A}' || c == '\U{2028}' || c == '\U{2029}' || c == '\U{202F}' || c == '\U{205F}'
    || c == '\U{3000}'
  }

  function TrimStart(s: string): string {
    if s == "" then ""
    else if IsTrimmed(s[0]) then TrimStart(s[1..])
    else s
  }

  function TrimEnd(s: string): string {
    if s == "" then ""
    else if IsTrimmed(s[|s| - 1]) then TrimEnd(s[..|s| - 1])
    else s
  }

  function Trim(s: string): string {
    TrimStart(TrimEnd(s))
  }

  predicate AllTrimmed(s: string) {
    forall c :: c in s ==> IsTrimmed(c)
  }

  /** A string that starts and ends with something visible, or is empty. */
  predicate IsTight(s: string) {
    s != "" ==> !IsTrimmed(s[0]) && !IsTrimmed(s[|s| - 1])
  }

  /** Trimming splits a string into white space, a tight core, and white space. */
  lemma {:induction false} TrimEndSplits(s: string) returns (after: string)
    ensures s == TrimEnd(s) + after && AllTrimmed(after)
    ensures TrimEnd(s) != "" ==> !IsTrimmed(TrimEnd(s)[|TrimEnd(s)| - 1])
  {
    if s == "" || !IsTrimmed(s[|s| - 1]) {
      after := "";
    } else {
      var rest := TrimEndSplits(s[..|s| - 1]);
      after := rest + [s[|s| - 1]];
    }
  }

  lemma {:induction false} TrimStartSplits(s: string) returns (before: string)
    ensures s == before + TrimStart(s) && AllTrimmed(before)
    ensures TrimStart(s) != "" ==> !IsTrimmed(TrimStart(s)[0])
  {
    if s == "" || !IsTrimmed(s[0]) {
      before := "";
    } else {
      var rest := TrimStartSplits(s[1..]);
      before := [s[0]] + rest;
    }
  }

  lemma TrimSplits(s: string) returns (before: string, after: string)
    ensures s == before + Trim(s) + after && AllTrimmed(before) && AllTrimmed(after)
    ensures IsTight(Trim(s))
  {
    after := TrimEndSplits(s);
    before := TrimStartSplits(TrimEnd(s));
    var core := Trim(s);
    if core != "" {
      assert core[|core| - 1] == TrimEnd(s)[|TrimEnd(s)| - 1];
    }
  }

  lemma {:induction false} TrimEndKeeps(s: string, after: string)
    requires AllTrimmed(after) && (s != "" ==> !IsTrimmed(s[|s| - 1]))
    ensures TrimEnd(s + after) == s
  {
    if after == "" {
      assert s + after == s;
    } else {
      var n := |after| - 1;
      assert (s + after)[..|s + after| - 1] == s + after[..n];
      assert IsTrimmed(after[n]);
      TrimEndKeeps(s, after[..n]);
    }
  }

  lemma {:induction false} TrimStartKeeps(before: string, s: string)
    requires AllTrimmed(before) && (s != "" ==> !IsTrimmed(s[0]))
    ensures TrimStart(before + s) == s
  {
    if before == "" {
      assert before + s == s;
    } else {
      assert (before + s)[1..] == before[1..] + s;
      assert IsTrimmed(before[0]);
      TrimStartKeeps(before[1..], s);
    }
  }

  /** The core is unique: white space around a tight string is exactly what trimming removes. */
  lemma TrimOfPadded(before: string, core: string, after: string)
    requires AllTrimmed(before) && AllTrimmed(after) && IsTight(core)
    ensures Trim(before + core + after) == core
  {
    if core == "" {
      TrimEndKeeps("", before + after);
      assert "" + (before + after) == before + core + after;
    } else {
      assert (before + core)[|before + core| - 1] == core[|core| - 1];
      TrimEndKeeps(before + core, after);
      TrimStartKeeps(before, core);
    }
  }

  // ---- Lines ---------------------------------------------------------------

  /** The text before the first line break, or all of it. */
  function FirstLine(s: string): (r: string)
    ensures |r| <= |s| && r == s[..|r|] && '\n' !in r && (|r| < |s| ==> s[|r|] == '\n')
  {
    if s == "" || s[0] == '\n' then "" else [s[0]] + FirstLine(s[1..])
  }

  function WithoutCr(line: string): string {
    if line != "" && line[|line| - 1] == '\r' then line[..|line| - 1] else line
  }

  /** `str::lines`: line breaks end lines, a carriage return before one is dropped with it. */
  function Lines(s: string): seq<string> {
    if s == "" then []
    else
      var line := FirstLine(s);
      if |line| == |s| then [line] else [WithoutCr(line)] + Lines(s[|line| + 1..])
  }

  /** Every line followed by a line break. */
  function Unlines(lines: seq<string>): string {
    if lines == [] then "" else lines[0] + "\n" + Unlines(lines[1..])
  }

  function TrimAll(lines: seq<string>): (r: seq<string>)
    ensures |r| == |lines|
  {
    seq(|lines|, i requires 0 <= i < |lines| => Trim(lines[i]))
  }

  /** Without the empty lines at the end. */
  function DropTrailingEmpty(lines: seq<string>): (r: seq<string>)
    ensures r <= lines
  {
    if lines != [] && lines[|lines| - 1] == "" then DropTrailingEmpty(lines[..|lines| - 1]) else lines
  }

  lemma {:induction false} FirstLineOf(line: string, rest: string)
    requires '\n' !in line
    ensures FirstLine(line + "\n" + rest) == line
    ensures FirstLine(line) == line
  {
    if line != "" {
      FirstLineOf(line[1..], rest);
      assert (line + "\n" + rest)[1..] == line[1..] + "\n" + rest;
    }
  }
}
