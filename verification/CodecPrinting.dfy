/** The exact lines of a printed list. */
module CodecPrinting {
  import opened Text
  import opened Indentation
  import opened Squash
  import opened CodecValues
  import opened Codec

  /** What stands on an item's first line: its key, if it has one. */
  function Head(x: Value): string {
    if x.VEntry? then "    " + Print(x.key) + ": " else "    "
  }

  /** The normalized lines of an item, or of an entry's value. */
  function BodyLines(x: Value): seq<string> {
    Lines(Normalized(Print(if x.VEntry? then x.value else x)))
  }

  function Indented(lines: seq<string>, indent: nat): (r: seq<string>)
    ensures |r| == |lines|
  {
    seq(|lines|, i requires 0 <= i < |lines| => Spaces(indent) + lines[i])
  }

  /** A comma at the end of the last line. */
  function Ended(lines: seq<string>, more: bool): seq<string>
    requires lines != []
  {
    if more then lines[..|lines| - 1] + [lines[|lines| - 1] + ","] else lines
  }

  /** An item's lines: four blanks before the head, eight before each line of the body. */
  function LinesOf(x: Value, more: bool): seq<string> {
    Ended([Head(x)] + Indented(BodyLines(x), 8), more)
  }

  function LinesOfAll(xs: seq<Value>): seq<string> {
    if xs == [] then [] else LinesOf(xs[0], |xs| > 1) + LinesOfAll(xs[1..])
  }

  lemma OneLine(head: string, more: bool)
    ensures head + (if more then ",\n" else "\n") == Unlines(Ended([head], more))
  {
    assert Ended([head], more) == [if more then head + "," else head];
    assert (head + ",") + "\n" == head + ",\n";
  }

  lemma EndedCons(head: string, lines: seq<string>, more: bool)
    requires lines != []
    ensures Ended([head] + lines, more) == [head] + Ended(lines, more)
  {
  }

  lemma {:induction false} BreaksAreUnlines(head: string, lines: seq<string>, more: bool)
    ensures head + BreakBefore(lines) + (if more then ",\n" else "\n") == Unlines(Ended([head] + lines, more))
    decreases |lines|
  {
    hide Unlines, Ended;
    if lines == [] {
      assert [head] + lines == [head] && head + BreakBefore([]) == head;
      OneLine(head, more);
    } else {
      BreaksAreUnlines(lines[0], lines[1..], more);
      assert [lines[0]] + lines[1..] == lines;
      EndedCons(head, lines, more);
      UnlinesCons(head, Ended(lines, more));
      Regroup(head, "\n", lines[0], BreakBefore(lines[1..]), if more then ",\n" else "\n");
    }
  }

  lemma ItemAsLines(x: Value, more: bool)
    ensures ItemLine(x, more) == Unlines(LinesOf(x, more))
  {
    hide Lines, Normalized, Unlines, Ended, Spaces;
    var lines := BodyLines(x);
    assert LinesOf(x, more) == Ended([Head(x)] + Indented(lines, 8), more);
    var close := if more then ",\n" else "\n";
    SuffixIsBreaks(lines, 8, Indented(lines, 8));
    BreaksAreUnlines(Head(x), Indented(lines, 8), more);
    hide LinesOf;
    if x.VEntry? {
      assert ItemText(x) == Print(x.key) + ": " + BreakBefore(Indented(lines, 8));
      Associated("    ", Print(x.key), ": ", BreakBefore(Indented(lines, 8)), close);
    } else {
      assert ItemText(x) == BreakBefore(Indented(lines, 8));
    }
  }

  lemma Regroup(a: string, b: string, c: string, d: string, e: string)
    ensures a + (b + c + d) + e == a + b + (c + d + e)
  {
  }

  lemma Associated(a: string, b: string, c: string, d: string, e: string)
    ensures a + (b + c + d) + e == a + b + c + d + e
  {
  }

  lemma {:induction false} UnlinesConcat(a: seq<string>, b: seq<string>)
    ensures Unlines(a + b) == Unlines(a) + Unlines(b)
  {
    if a == [] {
      assert a + b == b;
    } else {
      assert (a + b)[1..] == a[1..] + b;
      UnlinesConcat(a[1..], b);
      Associated("", a[0], "\n", Unlines(a[1..]), Unlines(b));
    }
  }

  lemma {:induction false} ItemsAsLines(xs: seq<Value>)
    ensures PrintItems(xs) == Unlines(LinesOfAll(xs))
  {
    hide LinesOf, ItemLine;
    if xs != [] {
      ItemAsLines(xs[0], |xs| > 1);
      ItemsAsLines(xs[1..]);
      UnlinesConcat(LinesOf(xs[0], |xs| > 1), LinesOfAll(xs[1..]));
    }
  }

  lemma WholeLines(x: Value, more: bool)
    requires x.VEntry? ==> '\n' !in Print(x.key)
    ensures forall line :: line in LinesOf(x, more) ==> IsWhole(line)
  {
    hide Lines, Normalized, Print;
    var lines := BodyLines(x);
    var text := Print(if x.VEntry? then x.value else x);
    TidyBody(text);
    forall line | line in Indented(lines, 8) ensures IsWhole(line) {
      var i :| 0 <= i < |lines| && line == Spaces(8) + lines[i];
      assert lines[i] in lines;
      PaddedIsWhole(lines[i]);
    }
    assert IsWhole(Head(x));
    EndedIsWhole([Head(x)] + Indented(lines, 8), more);
  }

  lemma TidyBody(text: string)
    ensures forall line :: line in Lines(Normalized(text)) ==> IsTidy(line)
  {
    hide IsTidy, Lines, OutLines, Normalized;
    NormalizedLines(text);
    LinesHaveNoBreaks(text);
    OutLinesKeepCores(Lines(text), 0);
  }

  lemma PaddedIsWhole(line: string)
    requires IsTidy(line)
    ensures IsWhole(Spaces(8) + line)
  {
    var s := Spaces(8) + line;
    assert s[|s| - 1] == if line == "" then ' ' else line[|line| - 1];
  }

  lemma EndedIsWhole(lines: seq<string>, more: bool)
    requires lines != [] && forall line :: line in lines ==> IsWhole(line)
    ensures forall line :: line in Ended(lines, more) ==> IsWhole(line)
  {
    assert lines[|lines| - 1] in lines;
  }

  lemma {:induction false} AllWhole(xs: seq<Value>)
    requires forall x :: x in xs && x.VEntry? ==> '\n' !in Print(x.key)
    ensures forall line :: line in LinesOfAll(xs) ==> IsWhole(line)
  {
    hide IsWhole, LinesOf, Print;
    if xs != [] {
      assert xs[0] in xs;
      WholeLines(xs[0], |xs| > 1);
      AllWhole(xs[1..]);
    }
  }

  /**
   * A non-empty list or map is printed as a bracket, for each item a line of four blanks and its key, followed by its
   * normalized lines behind eight blanks with a comma between items, and the closing bracket behind four blanks.
   */
  lemma PrintedLines(v: Value)
    requires (v.VVec? && v.items != []) || (v.VMap? && v.entries != [])
    requires v.VMap? ==> forall x :: x in v.entries && x.VEntry? ==> '\n' !in Print(x.key)
    requires v.VVec? ==> forall x :: x in v.items ==> !x.VEntry?
    ensures var (xs, open, close) := if v.VVec? then (v.items, "[", "]") else (v.entries, "{", "}");
            Lines(Print(v)) == [open] + LinesOfAll(xs) + ["    " + close]
  {
    hide LinesOfAll, IsWhole, Lines, PrintItems, Unlines;
    var (xs, open, close) := if v.VVec? then (v.items, "[", "]") else (v.entries, "{", "}");
    ItemsAsLines(xs);
    AllWhole(xs);
    UnlinesCons(open, LinesOfAll(xs));
    assert IsWhole(open) && IsWhole("    " + close) by {
      BracketsAreWhole();
    }
    LinesOfJoined([open] + LinesOfAll(xs), "    " + close);
    assert Print(v) == Unlines([open] + LinesOfAll(xs)) + ("    " + close);
  }

  lemma BracketsAreWhole()
    ensures IsWhole("[") && IsWhole("{") && IsWhole("    " + "]") && IsWhole("    " + "}")
  {
  }
}
