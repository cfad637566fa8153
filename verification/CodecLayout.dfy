/** A printed value is its flat text with more white space. */
module CodecLayout {
  import opened Text
  import opened Numerals
  import opened Indentation
  import opened Squash
  import opened CodecValues
  import opened Codec

  /** The text of a value on one line. */
  function Flat(v: Value): string
    decreases v, 0
  {
    match v
    case VInt(n) => Signed(n)
    case VNat(k) => Decimal(k)
    case VBool(b) => if b then "true" else "false"
    case VString(s) => s
    case VNone => "none"
    case VSome(x) => Flat(x)
    case VVec(xs) => if xs == [] then "[]" else "[ " + FlatItems(xs) + "]"
    case VMap(es) => if es == [] then "{}" else "{ " + FlatItems(es) + "}"
    case VEntry(x, y) => Flat(x) + ": " + Flat(y)
    case VPair(x, y) => "(" + Flat(x) + ", " + Flat(y) + ")"
    case VTriple(x, y, z) => "(" + Flat(x) + ", " + Flat(y) + ", " + Flat(z) + ")"
  }

  function FlatItems(xs: seq<Value>): string
    decreases xs, 1
  {
    if xs == [] then "" else Flat(xs[0]) + FlatSeparator(|xs| > 1) + FlatItems(xs[1..])
  }

  function FlatSeparator(more: bool): string {
    if more then ", " else " "
  }

  /** Text without white space. */
  predicate IsSolid(s: string) {
    forall c :: c in s ==> !IsTrimmed(c)
  }

  lemma {:induction false} SolidSquashes(inWs: bool, s: string)
    requires IsSolid(s)
    ensures Squashed(inWs, s) == s && (s != "" ==> !OpenAfter(inWs, s))
    decreases |s|
  {
    if s != "" {
      assert s[0] in s && s[|s| - 1] in s;
      SolidSquashes(false, s[1..]);
    }
  }

  lemma {:induction false} IdentifierIsSolid(u: CharClass, s: string)
    requires Faithful(u) && IdentifierTail(u, s) == |s|
    ensures IsSolid(s)
  {
    if s != "" {
      if ContinuesIdentifier(u, s[0]) {
        IdentifierIsSolid(u, s[1..]);
        assert s == [s[0]] + s[1..];
      } else {
        IdentifierIsSolid(u, s[2..]);
        assert s == [s[0], s[1]] + s[2..];
      }
    }
  }

  /** The printed text is tight, and flat up to white space. */
  predicate LaysOut(text: string, flat: string) {
    IsPrinted(text) && Squashed(false, text) == flat
  }

  lemma SolidLaysOut(s: string)
    requires IsSolid(s) && s != ""
    ensures LaysOut(s, s)
  {
    SolidSquashes(false, s);
    assert s[0] in s && s[|s| - 1] in s;
  }

  /** A laid-out text inside a longer one, whether or not white space precedes it. */
  lemma PieceSquashes(inWs: bool, text: string, flat: string, after: string)
    requires LaysOut(text, flat)
    ensures Squashed(inWs, text + after) == flat + Squashed(false, after)
  {
    SquashedConcat(inWs, text, after);
    OpenDoesNotMatter(text);
  }

  /** Visible text in front. */
  lemma {:induction false} SolidFirst(inWs: bool, s: string, after: string)
    requires IsSolid(s) && s != ""
    ensures Squashed(inWs, s + after) == s + Squashed(false, after)
  {
    SquashedConcat(inWs, s, after);
    SolidSquashes(inWs, s);
  }

  lemma BlankFirst(after: string)
    ensures Squashed(false, " " + after) == " " + Squashed(true, after)
  {
    assert (" " + after)[1..] == after;
  }

  /** Printed pieces with visible punctuation before and after them are printed. */
  lemma Enclosed(open: char, body: string, close: char)
    requires !IsTrimmed(open) && !IsTrimmed(close) && IsPlain(body)
    ensures IsPrinted([open] + body + [close])
  {
  }

  lemma PlainConcat(a: string, b: string)
    requires IsPlain(a) && IsPlain(b)
    ensures IsPlain(a + b)
  {
  }

  lemma PairLaysOut(a: string, fa: string, b: string, fb: string)
    requires LaysOut(a, fa) && LaysOut(b, fb)
    ensures LaysOut("(" + a + ", " + b + ")", "(" + fa + ", " + fb + ")")
  {
    hide Squashed, IsTrimmed;
    var s3 := b + ")";
    var s2 := " " + s3;
    var s1 := a + ("," + s2);
    assert "(" + a + ", " + b + ")" == "(" + s1;
    Punctuation();
    SolidFirst(false, "(", s1);
    PieceSquashes(false, a, fa, "," + s2);
    SolidFirst(false, ",", s2);
    BlankFirst(s3);
    PieceSquashes(true, b, fb, ")");
    SolidSquashes(false, ")");
    assert "(" + a + ", " + b + ")" == ['('] + (a + ", " + b) + [')'];
    assert "(" + fa + ", " + fb + ")" == "(" + (fa + ("," + (" " + (fb + ")"))));
    Enclosed('(', a + ", " + b, ')');
  }

  lemma TripleLaysOut(a: string, fa: string, b: string, fb: string, c: string, fc: string)
    requires LaysOut(a, fa) && LaysOut(b, fb) && LaysOut(c, fc)
    ensures LaysOut("(" + a + ", " + b + ", " + c + ")", "(" + fa + ", " + fb + ", " + fc + ")")
  {
    hide Squashed, IsTrimmed;
    JoinLaysOut(b, fb, c, fc);
    PairLaysOut(a, fa, b + ", " + c, fb + ", " + fc);
    assert "(" + a + ", " + (b + ", " + c) + ")" == "(" + a + ", " + b + ", " + c + ")";
    assert "(" + fa + ", " + (fb + ", " + fc) + ")" == "(" + fa + ", " + fb + ", " + fc + ")";
  }

  lemma JoinLaysOut(a: string, fa: string, b: string, fb: string)
    requires LaysOut(a, fa) && LaysOut(b, fb)
    ensures LaysOut(a + ", " + b, fa + ", " + fb)
  {
    hide Squashed, IsTrimmed;
    Punctuation();
    var s2 := " " + b;
    assert a + ", " + b == a + ("," + s2);
    PieceSquashes(false, a, fa, "," + s2);
    SolidFirst(false, ",", s2);
    BlankFirst(b);
    PieceSquashes(true, b, fb, "");
    assert b + "" == b && fb + Squashed(false, "") == fb by {
      SquashedNothing();
    }
    assert fa + ", " + fb == fa + ("," + (" " + fb));
  }

  lemma SquashedNothing()
    ensures Squashed(false, "") == ""
  {
  }

  lemma Punctuation()
    ensures IsSolid("(") && IsSolid(")") && IsSolid(",") && IsSolid(":") && IsSolid("[") && IsSolid("]") && IsSolid("{")
        && IsSolid("}")
    ensures !IsTrimmed('(') && !IsTrimmed(')') && !IsTrimmed('[') && !IsTrimmed(']')
        && !IsTrimmed('{') && !IsTrimmed('}')
    ensures IsPlain(", ") && IsPlain(": ") && IsPlain("\n") && IsPlain("    ") && IsPlain(",\n")
  {
  }

  /** A key and, on the lines below it, its value. */
  lemma EntryLaysOut(k: string, fk: string, w: string, fw: string)
    requires LaysOut(k, fk) && LaysOut(w, fw)
    ensures LaysOut(k + ": " + MultilineSuffix(w, 8), fk + ": " + fw)
  {
    hide Squashed, MultilineSuffix;
    var m := MultilineSuffix(w, 8);
    var text := k + ": " + m;
    MultilineSuffixSquashes(true, w, 8);
    Punctuation();
    assert text == k + (":" + (" " + m));
    PieceSquashes(false, k, fk, ":" + (" " + m));
    SolidFirst(false, ":", " " + m);
    BlankFirst(m);
    assert fk + ": " + fw == fk + (":" + (" " + fw));
    PlainConcat(k, ": ");
    PlainConcat(k + ": ", m);
    assert text[0] == k[0] && text[|text| - 1] == m[|m| - 1];
    assert m[|m| - 1] in m;
  }

  /** An item on its own lines, behind the four blanks that indent it. */
  lemma ItemSquashes(w: string, fw: string, after: string)
    requires LaysOut(w, fw)
    ensures Squashed(true, "    " + (MultilineSuffix(w, 8) + after)) == fw + Squashed(false, after)
    ensures IsPlain(MultilineSuffix(w, 8))
  {
    hide Squashed, MultilineSuffix;
    var m := MultilineSuffix(w, 8);
    MultilineSuffixSquashes(true, w, 8);
    BlankDisappears("    ", m + after) by {
      assert forall c :: c in "    " ==> IsWs(c);
    }
    SquashedConcat(true, m, after);
    assert "" + Squashed(false, w) == fw;
  }

  lemma EntrySquashes(text: string, flat: string, after: string)
    requires LaysOut(text, flat)
    ensures Squashed(true, "    " + (text + after)) == flat + Squashed(false, after)
    ensures IsPlain(text)
  {
    hide Squashed;
    BlankDisappears("    ", text + after) by {
      assert forall c :: c in "    " ==> IsWs(c);
    }
    PieceSquashes(true, text, flat, after);
  }

  lemma SeparatorSquashes(more: bool, after: string)
    ensures Squashed(false, (if more then ",\n" else "\n") + after) == FlatSeparator(more) + Squashed(true, after)
  {
    var s := "\n" + after;
    assert s[1..] == after;
    assert Squashed(false, s) == " " + Squashed(true, after);
    if more {
      assert ",\n" + after == "," + s;
      assert ("," + s)[1..] == s;
    }
  }

  lemma ItemText0(v: Value)
    ensures v.VEntry? ==> ItemText(v) == Print(v)
    ensures !v.VEntry? ==> ItemText(v) == MultilineSuffix(Print(v), 8)
  {
  }

  /** The items of a vector or a map, whatever follows them. */
  lemma ConsSquashes(xs: seq<Value>, after: string)
    requires xs != [] && LaysOut(Print(xs[0]), Flat(xs[0])) && IsPlain(PrintItems(xs[1..]))
    requires Squashed(true, PrintItems(xs[1..]) + after) == FlatItems(xs[1..]) + Squashed(true, after)
    ensures Squashed(true, PrintItems(xs) + after) == FlatItems(xs) + Squashed(true, after)
    ensures IsPlain(PrintItems(xs))
  {
    hide Squashed, MultilineSuffix, Print, Flat, FlatSeparator, ItemText, LaysOut;
    var more := |xs| > 1;
    var sep := if more then ",\n" else "\n";
    var text := ItemText(xs[0]);
    var rest := PrintItems(xs[1..]) + after;
    ItemText0(xs[0]);
    Punctuation();
    if xs[0].VEntry? {
      EntrySquashes(Print(xs[0]), Flat(xs[0]), sep + rest);
    } else {
      ItemSquashes(Print(xs[0]), Flat(xs[0]), sep + rest);
    }
    SeparatorSquashes(more, rest);
    Unfold(xs, sep, after);
    PlainConcat("    ", text);
    PlainConcat("    " + text, sep);
    PlainConcat("    " + text + sep, PrintItems(xs[1..]));
    assert FlatItems(xs) + Squashed(true, after) ==
        Flat(xs[0]) + (FlatSeparator(more) + (FlatItems(xs[1..]) + Squashed(true, after)));
  }

  lemma Unfold(xs: seq<Value>, sep: string, after: string)
    requires xs != [] && sep == if |xs| > 1 then ",\n" else "\n"
    ensures PrintItems(xs) == "    " + ItemText(xs[0]) + sep + PrintItems(xs[1..])
    ensures PrintItems(xs) + after == "    " + (ItemText(xs[0]) + (sep + (PrintItems(xs[1..]) + after)))
  {
    hide ItemText;
    Reassociate("    ", ItemText(xs[0]), sep, PrintItems(xs[1..]), after);
  }

  lemma Reassociate(a: string, b: string, c: string, d: string, e: string)
    ensures a + b + c + d + e == a + (b + (c + (d + e)))
  {
  }

  /** The two bracketed forms, with their brackets taken apart. */
  lemma Bracketed(xs: seq<Value>)
    requires xs != []
    ensures Print(VVec(xs)) == ['['] + "\n" + PrintItems(xs) + "    " + [']']
        && Flat(VVec(xs)) == ['['] + " " + FlatItems(xs) + [']']
    ensures Print(VMap(xs)) == ['{'] + "\n" + PrintItems(xs) + "    " + ['}']
        && Flat(VMap(xs)) == ['{'] + " " + FlatItems(xs) + ['}']
  {
    hide PrintItems, FlatItems;
    var p := PrintItems(xs);
    assert ['['] + "\n" == "[\n" && ['{'] + "\n" == "{\n" && ['['] + " " == "[ " && ['{'] + " " == "{ ";
    assert "[\n" + p + "    ]" == "[\n" + p + "    " + [']'];
    assert "{\n" + p + "    }" == "{\n" + p + "    " + ['}'];
  }

  lemma BracketsLayOut(open: char, close: char, items: string, flatItems: string)
    requires open in "[{" && close in "]}" && IsPlain(items)
    requires Squashed(true, items + ("    " + [close])) == flatItems + Squashed(true, "    " + [close])
    ensures LaysOut([open] + "\n" + items + "    " + [close], [open] + " " + flatItems + [close])
  {
    hide Squashed, IsTrimmed;
    Punctuation();
    var tail := items + ("    " + [close]);
    var text := [open] + "\n" + items + "    " + [close];
    assert text == [open] + ("\n" + tail);
    SolidFirst(false, [open], "\n" + tail);
    SeparatorSquashes(false, tail);
    BlankDisappears("    ", [close]) by {
      assert forall c :: c in "    " ==> IsWs(c);
    }
    SolidSquashes(true, [close]);
    assert text == [open] + ("\n" + items + "    ") + [close];
    PlainConcat("\n", items);
    PlainConcat("\n" + items, "    ");
    Enclosed(open, "\n" + items + "    ", close);
    assert [open] + " " + flatItems + [close] == [open] + (" " + (flatItems + [close]));
  }

  lemma DigitsAreSolid(s: string)
    requires AllDigits(s)
    ensures IsSolid(s)
  {
  }

  lemma SignedIsSolid(n: int)
    ensures IsSolid(Signed(n)) && Signed(n) != ""
  {
    if n < 0 {
      DigitsAreSolid(Decimal(-n));
      assert forall c :: c in Signed(n) ==> c == '-' || c in Decimal(-n);
    } else {
      DigitsAreSolid(Decimal(n));
    }
  }

  lemma NameIsSolid(u: CharClass, s: string)
    requires Faithful(u) && IsIdentifier(u, s)
    ensures IsSolid(s)
  {
    IdentifierIsSolid(u, s[1..]);
    assert s == [s[0]] + s[1..];
  }

  lemma AtomLaysOut(u: CharClass, t: Ty, v: Value)
    requires Faithful(u) && HasType(u, t, v)
    requires v.VInt? || v.VNat? || v.VBool? || v.VString? || v.VNone?
    ensures LaysOut(Print(v), Flat(v)) && Print(v) == Flat(v) && IsSolid(Flat(v))
  {
    hide LaysOut, Signed, Decimal, IsIdentifier, Faithful;
    match v {
      case VInt(n) => SignedIsSolid(n);
      case VNat(k) => DigitsAreSolid(Decimal(k));
      case VString(s) => NameIsSolid(u, s);
      case _ =>
    }
    assert v.VString? ==> v.s != "" by {
      if v.VString? {
        NotEmpty(u, v.s);
      }
    }
    SolidLaysOut(Flat(v));
  }

  lemma NotEmpty(u: CharClass, s: string)
    requires IsIdentifier(u, s)
    ensures s != ""
  {
  }

  /** Every printed value is its flat text, up to the amount of white space, at any depth of nesting. */
  lemma {:induction false} PrintLaysOut(u: CharClass, t: Ty, v: Value)
    requires Faithful(u) && HasType(u, t, v)
    ensures LaysOut(Print(v), Flat(v))
    decreases v, 0
  {
    hide LaysOut, Faithful;
    match v
    case VInt(_) | VNat(_) | VBool(_) | VString(_) | VNone => AtomLaysOut(u, t, v);
    case VSome(x) => PrintLaysOut(u, t.payload, x);
    case VVec(xs) =>
      if xs != [] {
        Bracketed(xs);
      }
      ListLaysOut(u, t.item, xs, '[', ']');
    case VMap(es) =>
      if es != [] {
        Bracketed(es);
      }
      ListLaysOut(u, TEntry(t.key, t.value), es, '{', '}');
    case VEntry(x, y) =>
      PrintLaysOut(u, t.key, x);
      PrintLaysOut(u, t.value, y);
      EntryLaysOut(Print(x), Flat(x), Print(y), Flat(y));
    case VPair(x, y) =>
      PrintLaysOut(u, t.first, x);
      PrintLaysOut(u, t.second, y);
      PairLaysOut(Print(x), Flat(x), Print(y), Flat(y));
    case VTriple(x, y, z) =>
      PrintLaysOut(u, t.first, x);
      PrintLaysOut(u, t.second, y);
      PrintLaysOut(u, t.third, z);
      TripleLaysOut(Print(x), Flat(x), Print(y), Flat(y), Print(z), Flat(z));
  }

  lemma {:induction false} ListLaysOut(u: CharClass, t: Ty, xs: seq<Value>, open: char, close: char)
    requires Faithful(u) && forall x :: x in xs ==> HasType(u, t, x)
    requires open in "[{" && close in "]}"
    ensures xs != [] ==> LaysOut([open] + "\n" + PrintItems(xs) + "    " + [close],
        [open] + " " + FlatItems(xs) + [close])
    ensures LaysOut([open, close], [open, close])
    decreases xs, 2
  {
    hide PrintItems, FlatItems, Squashed, Faithful, HasType;
    Punctuation();
    SolidLaysOut([open, close]);
    ItemsSquash(u, t, xs, "    " + [close]);
    BracketsLayOut(open, close, PrintItems(xs), FlatItems(xs));
  }

  lemma {:induction false} ItemsSquash(u: CharClass, t: Ty, xs: seq<Value>, after: string)
    requires Faithful(u) && forall x :: x in xs ==> HasType(u, t, x)
    ensures Squashed(true, PrintItems(xs) + after) == FlatItems(xs) + Squashed(true, after)
    ensures IsPlain(PrintItems(xs))
    decreases xs, 1
  {
    hide Squashed, Faithful, HasType, LaysOut;
    if xs == [] {
      assert PrintItems(xs) + after == after;
    } else {
      assert xs[0] in xs;
      PrintLaysOut(u, t, xs[0]);
      ItemsSquash(u, t, xs[1..], after);
      ConsSquashes(xs, after);
    }
  }
}
