/** The printed form of a value, and the parser. */
module Codec {
  import opened Text
  import opened Indentation
  import opened Numerals
  import opened CodecValues

  // ---- Printing ------------------------------------------------------------

  function Print(v: Value): string
    decreases v, 0
  {
    match v
    case VInt(n) => Signed(n)
    case VNat(k) => Decimal(k)
    case VBool(b) => if b then "true" else "false"
    case VString(s) => s
    case VNone => "none"
    case VSome(x) => Print(x)
    case VVec(xs) => if xs == [] then "[]" else "[\n" + PrintItems(xs) + "    ]"
    case VMap(es) => if es == [] then "{}" else "{\n" + PrintItems(es) + "    }"
    case VEntry(x, y) => Print(x) + ": " + MultilineSuffix(Print(y), 8)
    case VPair(x, y) => "(" + Print(x) + ", " + Print(y) + ")"
    case VTriple(x, y, z) => "(" + Print(x) + ", " + Print(y) + ", " + Print(z) + ")"
  }

  /** A map entry is written where it stands; any other item goes on lines of its own. */
  function ItemText(v: Value): string
    decreases v, 1
  {
    if v.VEntry? then Print(v) else MultilineSuffix(Print(v), 8)
  }

  /** One item with its indentation and what separates it from the next. */
  function ItemLine(v: Value, more: bool): string
    decreases v, 2
  {
    "    " + ItemText(v) + if more then ",\n" else "\n"
  }

  function PrintItems(xs: seq<Value>): string
    decreases xs, 3
  {
    if xs == [] then "" else ItemLine(xs[0], |xs| > 1) + PrintItems(xs[1..])
  }

  lemma ItemsFrom(f: string, xs: seq<Value>, i: nat)
    requires i < |xs|
    ensures f + PrintItems(xs[i..]) == f + ItemLine(xs[i], i + 1 < |xs|) + PrintItems(xs[i + 1..])
  {
    assert xs[i..][1..] == xs[i + 1..];
  }

  method WriteVec(f: string, items: seq<Value>) returns (written: string)
    requires forall x :: x in items ==> !x.VEntry?
    ensures written == f + Print(VVec(items))
  {
    hide ItemLine, PrintItems, MultilineSuffix, ItemText;
    if items == [] {
      return f + "[]";
    }
    written := f + "[\n";
    ghost var whole := written + PrintItems(items);
    assert items[0..] == items;
    for i := 0 to |items|
      invariant written + PrintItems(items[i..]) == whole
    {
      hide Print;
      ItemsFrom(written, items, i);
      VecLine(written, items[i], i + 1 < |items|);
      written := written + "    ";
      written := WriteMultilineSuffix(written, Print(items[i]), 8);
      if i + 1 < |items| {
        written := written + ",\n";
      } else {
        written := written + "\n";
      }
    }
    NoItemsLeft(written, items);
    written := written + "    ]";
  }

  method WriteMap(f: string, entries: seq<Value>) returns (written: string)
    requires AllEntries(entries)
    ensures written == f + Print(VMap(entries))
  {
    hide ItemLine, PrintItems, MultilineSuffix, ItemText;
    if entries == [] {
      return f + "{}";
    }
    written := f + "{\n";
    ghost var whole := written + PrintItems(entries);
    assert entries[0..] == entries;
    for i := 0 to |entries|
      invariant written + PrintItems(entries[i..]) == whole
    {
      hide Print;
      ItemsFrom(written, entries, i);
      assert entries[i] in entries;
      MapLine(written, entries[i].key, entries[i].value, i + 1 < |entries|);
      written := written + "    ";
      written := written + Print(entries[i].key);
      written := written + ": ";
      written := WriteMultilineSuffix(written, Print(entries[i].value), 8);
      if i + 1 < |entries| {
        written := written + ",\n";
      } else {
        written := written + "\n";
      }
    }
    NoItemsLeft(written, entries);
    written := written + "    }";
  }

  lemma Append3(f: string, a: string, b: string, c: string)
    ensures f + (a + b + c) == f + a + b + c
  {
    assert f + (a + b) == f + a + b;
  }

  lemma VecLine(f: string, v: Value, more: bool)
    requires !v.VEntry?
    ensures f + ItemLine(v, more) == f + "    " + MultilineSuffix(Print(v), 8) + if more then ",\n" else "\n"
  {
    hide MultilineSuffix, Print;
    Append3(f, "    ", MultilineSuffix(Print(v), 8), if more then ",\n" else "\n");
  }

  lemma EntryText(k: Value, w: Value)
    ensures ItemText(VEntry(k, w)) == Print(k) + ": " + MultilineSuffix(Print(w), 8)
  {
  }

  lemma MapLine(f: string, k: Value, w: Value, more: bool)
    ensures f + ItemLine(VEntry(k, w), more) ==
            f + "    " + Print(k) + ": " + MultilineSuffix(Print(w), 8) + if more then ",\n" else "\n"
  {
    EntryText(k, w);
    hide MultilineSuffix, Print, ItemText;
    Append3(f, "    ", ItemText(VEntry(k, w)), if more then ",\n" else "\n");
    Append3(f + "    ", Print(k), ": ", MultilineSuffix(Print(w), 8));
  }

  lemma NoItemsLeft(f: string, xs: seq<Value>)
    ensures f + PrintItems(xs[|xs|..]) == f
  {
  }

  // ---- Parsing -------------------------------------------------------------

  /** A parser's answer: a value and the text after it, or a failure that a choice or a list recovers from. */
  datatype Parsed<+T> = Done(value: T, rest: string) | Failed {
    predicate IsFailure() {
      Failed?
    }

    function PropagateFailure<U>(): Parsed<U>
      requires Failed?
    {
      Failed
    }

    function Extract(): (T, string)
      requires Done?
    {
      (value, rest)
    }
  }

  /** `multispace0`. */
  function SkipWs(s: string): (r: string)
    ensures |r| <= |s|
  {
    if s != "" && IsWs(s[0]) then SkipWs(s[1..]) else s
  }

  /** `ws(char(c))`: the character with the white space around it. */
  function Expect(c: char, s: string): (r: Parsed<char>)
    ensures r.Done? ==> |r.rest| < |s|
  {
    var t := SkipWs(s);
    if t != "" && t[0] == c then Done(c, SkipWs(t[1..])) else Failed
  }

  function ParseInt(s: string): Parsed<Value> {
    var negative := s != "" && s[0] == '-';
    var digits := if negative then s[1..] else s;
    var k := DigitsLength(digits);
    var n := if negative then -(ValueOf(digits[..k]) as int) else ValueOf(digits[..k]);
    if k > 0 && I64_MIN <= n <= I64_MAX then Done(VInt(n), digits[k..]) else Failed
  }

  function ParseNat(s: string): Parsed<Value> {
    var k := DigitsLength(s);
    if k > 0 && ValueOf(s[..k]) <= USIZE_MAX then Done(VNat(ValueOf(s[..k])), s[k..]) else Failed
  }

  function ParseBool(s: string): Parsed<Value> {
    if "true" <= s then Done(VBool(true), s[4..])
    else if "false" <= s then Done(VBool(false), s[5..])
    else Failed
  }

  function ParseIdentifier(u: CharClass, s: string): Parsed<Value> {
    if s != "" && StartsIdentifier(u, s[0]) then
      var k := 1 + IdentifierTail(u, s[1..]);
      Done(VString(s[..k]), s[k..])
    else Failed
  }

  /** The identifier loop, advancing an index. */
  method Identifier(u: CharClass, input: string) returns (r: Parsed<Value>)
    ensures r == ParseIdentifier(u, input)
  {
    if input == "" || !StartsIdentifier(u, input[0]) {
      return Failed;
    }
    var idx := 1;
    var len := |input|;
    while idx < len
      invariant 1 <= idx <= len
      invariant idx + IdentifierTail(u, input[idx..]) == 1 + IdentifierTail(u, input[1..])
      decreases len - idx
    {
      var ch := input[idx];
      assert input[idx..][1..] == input[idx + 1..];
      if ContinuesIdentifier(u, ch) {
        idx := idx + 1;
        continue;
      }
      if ch == ':' {
        var nextIdx := idx + 1;
        if nextIdx < len {
          if input[nextIdx] == ':' {
            assert input[idx..][2..] == input[idx + 2..];
            idx := nextIdx + 1;
            continue;
          }
        }
        break;
      }
      break;
    }
    r := Done(VString(input[..idx]), input[idx..]);
  }

  /** The parser each type selects. */
  function Parse(u: CharClass, t: Ty, s: string): (r: Parsed<Value>)
    ensures r.Done? ==> |r.rest| <= |s|
    ensures r.Done? && t.TEntry? ==> r.value.VEntry?
    decreases Rank(t), 0, |s|
  {
    match t
    case TInt => ParseInt(s)
    case TNat => ParseNat(s)
    case TBool => ParseBool(s)
    case TString => ParseIdentifier(u, s)
    case TOption(p) =>
      if "none" <= s then Done(VNone, s[4..])
      else
        var (x, s1) :- Parse(u, p, s);
        Done(VSome(x), s1)
    case TVec(i) =>
      var (xs, s1) :- ParseBrackets(u, i, '[', ']', s);
      Done(VVec(xs), s1)
    case TMap(k, w) =>
      var (es, s1) :- ParseBrackets(u, TEntry(k, w), '{', '}', s);
      Done(VMap(Collect(es)), s1)
    case TEntry(k, w) =>
      var (x, s1) :- Parse(u, k, s);
      var (y, s2) :- ParseAfter(u, ':', w, s1);
      Done(VEntry(x, y), s2)
    case TPair(a, b) =>
      var (x, s1) :- ParseAfter(u, '(', a, s);
      var (y, s2) :- ParseAfter(u, ',', b, s1);
      var (_, s3) :- Expect(')', s2);
      Done(VPair(x, y), s3)
    case TTriple(a, b, c) =>
      var (x, s1) :- ParseAfter(u, '(', a, s);
      var (y, s2) :- ParseAfter(u, ',', b, s1);
      var (z, s3) :- ParseAfter(u, ',', c, s2);
      var (_, s4) :- Expect(')', s3);
      Done(VTriple(x, y, z), s4)
  }

  /** A mark with the white space around it, then a value. */
  function ParseAfter(u: CharClass, mark: char, t: Ty, s: string): (r: Parsed<Value>)
    ensures r.Done? ==> |r.rest| < |s|
    decreases Rank(t), 1, |s|
  {
    var (_, s1) :- Expect(mark, s);
    Parse(u, t, s1)
  }

  /** A list of items between brackets. */
  function ParseBrackets(u: CharClass, t: Ty, open: char, close: char, s: string): (r: Parsed<seq<Value>>)
    ensures r.Done? ==> |r.rest| < |s| && (t.TEntry? ==> AllEntries(r.value))
    decreases Rank(t), 3, |s|
  {
    var (_, s1) :- Expect(open, s);
    var (xs, s2) := ParseItems(u, t, s1);
    var (_, s3) :- Expect(close, s2);
    Done(xs, s3)
  }

  /** `separated_list0` with commas: no first item is an empty list. */
  function ParseItems(u: CharClass, t: Ty, s: string): (r: (seq<Value>, string))
    ensures |r.1| <= |s|
    ensures t.TEntry? ==> AllEntries(r.0)
    decreases Rank(t), 2, |s|
  {
    match Parse(u, t, s)
    case Failed => ([], s)
    case Done(x, s1) =>
      var (xs, s2) := ParseMore(u, t, s1);
      ([x] + xs, s2)
  }

  /** Its loop: a comma without an item after it is not consumed. */
  function ParseMore(u: CharClass, t: Ty, s: string): (r: (seq<Value>, string))
    ensures |r.1| <= |s|
    ensures t.TEntry? ==> AllEntries(r.0)
    decreases Rank(t), 1, |s|
  {
    match Expect(',', s)
    case Failed => ([], s)
    case Done(_, s1) =>
      match Parse(u, t, s1)
      case Failed => ([], s)
      case Done(x, s2) =>
        var (xs, s3) := ParseMore(u, t, s2);
        ([x] + xs, s3)
  }
}
