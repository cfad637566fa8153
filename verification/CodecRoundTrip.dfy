/** The printer and the parser undo each other on representable values. */
module CodecRoundTrip {
  import opened Text
  import opened Numerals
  import opened Squash
  import opened CodecValues
  import opened Codec
  import opened CodecOrder
  import opened CodecLayout
  import opened CodecParsing

  // ---- Which optional values come back ------------------------------------------

  /** A value whose text starts with `none`. */
  predicate StartsNone(v: Value) {
    match v
    case VNone => true
    case VString(s) => "none" <= s
    case VSome(x) => StartsNone(x)
    case VEntry(k, _) => StartsNone(k)
    case _ => false
  }

  /** No optional value inside holds a payload that reads as `none`. */
  predicate Canonical(v: Value)
    decreases v
  {
    match v
    case VInt(_) | VNat(_) | VBool(_) | VString(_) | VNone => true
    case VSome(x) => Canonical(x) && !StartsNone(x)
    case VVec(xs) => forall x :: x in xs ==> Canonical(x)
    case VMap(es) => forall e :: e in es ==> Canonical(e)
    case VEntry(x, y) => Canonical(x) && Canonical(y)
    case VPair(x, y) => Canonical(x) && Canonical(y)
    case VTriple(x, y, z) => Canonical(x) && Canonical(y) && Canonical(z)
  }

  // ---- What the parser can return -------------------------------------------------

  /** A value that reads as `none` is only ever read from a text that starts with it. */
  lemma {:induction false} NoneIsRead(u: CharClass, t: Ty, s: string)
    requires Parse(u, t, s).Done? && StartsNone(Parse(u, t, s).value)
    ensures "none" <= s
    decreases Rank(t)
  {
    match t
    case TOption(p) =>
      if !("none" <= s) {
        NoneIsRead(u, p, s);
      }
    case TEntry(k, _) => NoneIsRead(u, k, s);
    case TString =>
      var v := Parse(u, t, s).value.s;
      assert v <= s && "none" <= v;
    case _ =>
  }

  lemma {:induction false} TailOfPrefix(u: CharClass, s: string)
    ensures IdentifierTail(u, s[..IdentifierTail(u, s)]) == IdentifierTail(u, s)
  {
    if s != "" {
      if ContinuesIdentifier(u, s[0]) {
        TailOfPrefix(u, s[1..]);
        TakeOne(s, IdentifierTail(u, s[1..]));
      } else if s[0] == ':' && |s| > 1 && s[1] == ':' {
        var k := IdentifierTail(u, s[2..]);
        TailOfPrefix(u, s[2..]);
        assert s[..k + 2][2..] == s[2..][..k];
      }
    }
  }

  /** Well typed, and representable. */
  ghost predicate Sound(u: CharClass, t: Ty, v: Value) {
    HasType(u, t, v) && Canonical(v)
  }

  lemma AtomSound(u: CharClass, t: Ty, s: string)
    requires t.TInt? || t.TNat? || t.TBool? || t.TString?
    ensures Parse(u, t, s).Done? ==> Sound(u, t, Parse(u, t, s).value)
  {
    if t.TString? && s != "" {
      TailOfPrefix(u, s[1..]);
      TakeOne(s, IdentifierTail(u, s[1..]));
    }
  }

  /** Everything the parser returns is well typed and representable. */
  lemma {:induction false} ParseSound(u: CharClass, t: Ty, s: string)
    ensures Parse(u, t, s).Done? ==> Sound(u, t, Parse(u, t, s).value)
    decreases Rank(t), 0, |s|
  {
    hide ParseInt, ParseNat, ParseBool, ParseIdentifier, ParseBrackets, Expect, StartsNone;
    var r := Parse(u, t, s);
    if r.Done? {
      match t
      case TInt | TNat | TBool | TString => AtomSound(u, t, s);
      case TOption(p) =>
        if !("none" <= s) {
          ParseSound(u, p, s);
          if StartsNone(Parse(u, p, s).value) {
            NoneIsRead(u, p, s);
          }
        }
      case TVec(i) =>
        BracketsSound(u, i, '[', ']', s);
        VecSound(u, i, ParseBrackets(u, i, '[', ']', s).value);
      case TMap(k, w) =>
        BracketsSound(u, TEntry(k, w), '{', '}', s);
        MapSound(u, k, w, ParseBrackets(u, TEntry(k, w), '{', '}', s).value);
      case TEntry(k, w) =>
        ParseSound(u, k, s);
        AfterSound(u, ':', w, Parse(u, k, s).rest);
      case TPair(a, b) =>
        AfterSound(u, '(', a, s);
        AfterSound(u, ',', b, ParseAfter(u, '(', a, s).rest);
      case TTriple(a, b, c) =>
        var s1 := ParseAfter(u, '(', a, s).rest;
        AfterSound(u, '(', a, s);
        AfterSound(u, ',', b, s1);
        AfterSound(u, ',', c, ParseAfter(u, ',', b, s1).rest);
    }
  }

  lemma {:induction false} InsertKeepsCanonical(es: seq<Value>, e: Value)
    requires AllEntries(es) && e.VEntry? && Canonical(e) && forall x :: x in es ==> Canonical(x)
    ensures forall x :: x in Insert(es, e) ==> Canonical(x)
  {
    forall x | x in Insert(es, e) ensures Canonical(x) {
      if x !in es && x != e {
        var y :| y in es && x == VEntry(y.key, e.value);
        assert Canonical(y);
      }
    }
  }

  lemma {:induction false} CollectKeepsCanonical(es: seq<Value>)
    requires AllEntries(es) && forall x :: x in es ==> Canonical(x)
    ensures forall x :: x in Collect(es) ==> Canonical(x)
  {
    hide Canonical;
    if es != [] {
      var n := |es| - 1;
      assert es[n] in es;
      CollectKeepsCanonical(es[..n]);
      InsertKeepsCanonical(Collect(es[..n]), es[n]);
    }
  }

  lemma VecSound(u: CharClass, t: Ty, xs: seq<Value>)
    requires forall x :: x in xs ==> Sound(u, t, x)
    ensures Sound(u, TVec(t), VVec(xs))
  {
  }

  lemma MapSound(u: CharClass, k: Ty, w: Ty, es: seq<Value>)
    requires AllEntries(es) && forall e :: e in es ==> Sound(u, TEntry(k, w), e)
    ensures Sound(u, TMap(k, w), VMap(Collect(es)))
  {
    CollectAscends(u, TEntry(k, w), es);
    CollectKeepsCanonical(es);
  }

  lemma {:induction false} AfterSound(u: CharClass, mark: char, t: Ty, s: string)
    ensures ParseAfter(u, mark, t, s).Done? ==> Sound(u, t, ParseAfter(u, mark, t, s).value)
    decreases Rank(t), 1, |s|
  {
    hide Sound, Parse;
    if ParseAfter(u, mark, t, s).Done? {
      ParseSound(u, t, Expect(mark, s).rest);
    }
  }

  lemma {:induction false} BracketsSound(u: CharClass, t: Ty, open: char, close: char, s: string)
    ensures var r := ParseBrackets(u, t, open, close, s); r.Done? ==> forall x :: x in r.value ==> Sound(u, t, x)
    decreases Rank(t), 3, |s|
  {
    hide Sound, Parse, ParseItems;
    if ParseBrackets(u, t, open, close, s).Done? {
      var s1 := Expect(open, s).rest;
      ItemsSound(u, t, s1);
    }
  }

  lemma {:induction false} ItemsSound(u: CharClass, t: Ty, s: string)
    ensures forall x :: x in ParseItems(u, t, s).0 ==> Sound(u, t, x)
    decreases Rank(t), 2, |s|
  {
    hide Sound, Parse;
    ParseSound(u, t, s);
    if Parse(u, t, s).Done? {
      MoreSound(u, t, Parse(u, t, s).rest);
    }
  }

  lemma {:induction false} MoreSound(u: CharClass, t: Ty, s: string)
    ensures forall x :: x in ParseMore(u, t, s).0 ==> Sound(u, t, x)
    decreases Rank(t), 1, |s|
  {
    hide Sound, Parse;
    if Expect(',', s).Done? {
      var s1 := Expect(',', s).rest;
      ParseSound(u, t, s1);
      if Parse(u, t, s1).Done? {
        MoreSound(u, t, Parse(u, t, s1).rest);
      }
    }
  }

  // ---- Reading the flat text back ----------------------------------------------------

  /** What the parser leaves of the text behind a value: brackets take the white space after them. */
  function Rest(v: Value, suffix: string): string {
    match v
    case VInt(_) | VNat(_) | VBool(_) | VString(_) | VNone => suffix
    case VSome(x) => Rest(x, suffix)
    case VEntry(_, y) => Rest(y, suffix)
    case _ => SkipWs(suffix)
  }

  /** The suffix does not extend the last token of the value. */
  predicate Ends(u: CharClass, v: Value, suffix: string) {
    match v
    case VInt(_) | VNat(_) => suffix == "" || !IsDigit(suffix[0])
    case VString(_) => IdentifierTail(u, suffix) == 0
    case VSome(x) => Ends(u, x, suffix)
    case VEntry(_, y) => Ends(u, y, suffix)
    case _ => true
  }

  /** Punctuation ends every token. */
  lemma {:induction false} PunctuationEnds(u: CharClass, v: Value, c: char, after: string)
    requires Faithful(u) && (c in ",)]} " || (c == ':' && after != "" && after[0] == ' '))
    ensures Ends(u, v, [c] + after)
    decreases v
  {
    if v.VSome? {
      PunctuationEnds(u, v.payload, c, after);
    } else if v.VEntry? {
      PunctuationEnds(u, v.value, c, after);
    } else if v.VString? {
      assert c < '\U{80}';
      assert ([c] + after)[1..] == after;
    }
  }

  lemma NothingEnds(u: CharClass, v: Value)
    ensures Ends(u, v, "")
  {
  }

  lemma SkipAgain(s: string)
    ensures SkipWs(SkipWs(s)) == SkipWs(s)
  {
    SkipSquashes(s);
  }

  lemma {:induction false} ExpectAfterRest(v: Value, mark: char, tail: string)
    ensures SkipWs(Rest(v, tail)) == SkipWs(tail) && Expect(mark, Rest(v, tail)) == Expect(mark, tail)
    decreases v
  {
    SkipAgain(tail);
    if v.VSome? {
      ExpectAfterRest(v.payload, mark, tail);
    } else if v.VEntry? {
      ExpectAfterRest(v.value, mark, tail);
    }
  }

  lemma ExpectMark(mark: char, after: string)
    requires !IsWs(mark)
    ensures SkipWs([mark] + after) == [mark] + after && SkipWs(" " + ([mark] + after)) == [mark] + after
    ensures Expect(mark, [mark] + after) == Done(mark, SkipWs(after))
    ensures Expect(mark, " " + ([mark] + after)) == Done(mark, SkipWs(after))
  {
    var s := [mark] + after;
    assert s[1..] == after && (" " + s)[1..] == s;
  }

  lemma FlatStarts(u: CharClass, t: Ty, v: Value, after: string)
    requires Faithful(u) && HasType(u, t, v)
    ensures Flat(v) != "" && !IsWs(Flat(v)[0])
    ensures SkipWs(Flat(v) + after) == Flat(v) + after && SkipWs(" " + (Flat(v) + after)) == Flat(v) + after
  {
    PrintLaysOut(u, t, v);
    var s := Flat(v) + after;
    assert (" " + s)[1..] == s;
  }

  /** A mark, possibly a blank, and a flat value behind it. */
  lemma MarkThenFlat(u: CharClass, t: Ty, v: Value, mark: char, blank: string, after: string)
    requires Faithful(u) && HasType(u, t, v) && !IsWs(mark) && (blank == "" || blank == " ")
    ensures Expect(mark, [mark] + (blank + (Flat(v) + after))) == Done(mark, Flat(v) + after)
  {
    hide Flat, SkipWs, Faithful, HasType, Expect;
    FlatStarts(u, t, v, after);
    ExpectMark(mark, blank + (Flat(v) + after));
    assert "" + (Flat(v) + after) == Flat(v) + after;
  }

  /** Nothing can be read where a list is closed. */
  lemma {:induction false} NothingAtClose(u: CharClass, t: Ty, s: string)
    requires Faithful(u) && s != "" && s[0] in "]}"
    ensures Parse(u, t, s).Failed?
    decreases Rank(t)
  {
    assert SkipWs(s) == s && s[0] < '\U{80}';
    match t
    case TOption(p) => NothingAtClose(u, p, s);
    case TEntry(k, _) => NothingAtClose(u, k, s);
    case _ =>
  }

  lemma {:induction false} TailConcat(u: CharClass, a: string, b: string)
    requires IdentifierTail(u, a) == |a|
    ensures IdentifierTail(u, a + b) == |a| + IdentifierTail(u, b)
  {
    if a == "" {
      assert a + b == b;
    } else if ContinuesIdentifier(u, a[0]) {
      assert (a + b)[1..] == a[1..] + b;
      TailConcat(u, a[1..], b);
    } else {
      assert (a + b)[2..] == a[2..] + b;
      TailConcat(u, a[2..], b);
    }
  }

  lemma IdentifierDoesNotReadNone(u: CharClass, s: string, suffix: string)
    requires Faithful(u) && IdentifierTail(u, suffix) == 0 && !("none" <= s)
    ensures !("none" <= s + suffix)
  {
    var text := s + suffix;
    if |s| < 4 {
      assert forall c :: c in "none" ==> u.alphabetic(c);
      if suffix != "" {
        assert text[|s|] == suffix[0] && !u.alphabetic(suffix[0]);
      }
    } else {
      assert text[..4] == s[..4];
    }
  }

  lemma StartsOtherwise(flat: string, suffix: string)
    requires flat != "" && flat[0] != 'n'
    ensures !("none" <= flat + suffix)
  {
    assert (flat + suffix)[0] == flat[0];
  }

  lemma EntryShape(a: string, b: string, suffix: string)
    ensures a + ": " + b + suffix == a + ([':'] + (" " + (b + suffix)))
  {
    assert ": " == [':'] + " ";
  }

  lemma DecimalStarts(n: nat)
    ensures IsDigit(Decimal(n)[0])
  {
    assert Decimal(n)[0] in Decimal(n);
  }

  lemma SignedStarts(n: int)
    ensures Signed(n) != "" && (n < 0 ==> Signed(n)[0] == '-') && (n >= 0 ==> IsDigit(Signed(n)[0]))
  {
    if n >= 0 {
      DecimalStarts(n);
    }
  }

  /** A value that does not start with `none` does not read as `none`, whatever follows it. */
  lemma {:induction false} DoesNotReadNone(u: CharClass, t: Ty, v: Value, suffix: string)
    requires Faithful(u) && HasType(u, t, v) && Ends(u, v, suffix) && !StartsNone(v)
    ensures !("none" <= Flat(v) + suffix)
    decreases v
  {
    hide Faithful, FlatItems, Decimal, Signed, IdentifierTail;
    match v
    case VString(s) => IdentifierDoesNotReadNone(u, s, suffix);
    case VSome(x) => DoesNotReadNone(u, t.payload, x, suffix);
    case VEntry(k, w) =>
      var after := " " + (Flat(w) + suffix);
      EntryShape(Flat(k), Flat(w), suffix);
      PunctuationEnds(u, k, ':', after);
      DoesNotReadNone(u, t.key, k, [':'] + after);
    case VInt(n) =>
      SignedStarts(n);
      StartsOtherwise(Flat(v), suffix);
    case VNat(n) =>
      DecimalStarts(n);
      StartsOtherwise(Flat(v), suffix);
    case _ => StartsOtherwise(Flat(v), suffix);
  }

  lemma DecimalReads(n: nat, suffix: string)
    requires suffix == "" || !IsDigit(suffix[0])
    ensures var s := Decimal(n) + suffix;
            var k := DigitsLength(s);
            k == |Decimal(n)| > 0 && s[..k] == Decimal(n) && s[k..] == suffix
    ensures ValueOf(Decimal(n)) == n
  {
    DigitsThenRest(Decimal(n), suffix);
    ValueOfDecimal(n);
  }

  lemma PositiveReads(m: nat, suffix: string)
    requires m <= I64_MAX && (suffix == "" || !IsDigit(suffix[0]))
    ensures ParseInt(Decimal(m) + suffix) == Done(VInt(m), suffix)
  {
    hide DigitsLength, ValueOf, Decimal;
    DecimalReads(m, suffix);
    DecimalStarts(m);
    assert (Decimal(m) + suffix)[0] == Decimal(m)[0];
  }

  lemma NegativeReads(m: int, suffix: string)
    requires 0 < m <= -I64_MIN && (suffix == "" || !IsDigit(suffix[0]))
    ensures ParseInt("-" + Decimal(m) + suffix) == Done(VInt(-m), suffix)
  {
    hide DigitsLength, ValueOf, Decimal;
    DecimalReads(m, suffix);
    assert ("-" + Decimal(m) + suffix)[1..] == Decimal(m) + suffix;
  }

  lemma IntReads(n: int, suffix: string)
    requires I64_MIN <= n <= I64_MAX && (suffix == "" || !IsDigit(suffix[0]))
    ensures ParseInt(Signed(n) + suffix) == Done(VInt(n), suffix)
  {
    hide ParseInt;
    if n < 0 {
      NegativeReads(-n, suffix);
    } else {
      PositiveReads(n, suffix);
    }
  }

  lemma IdentifierReads(u: CharClass, s: string, suffix: string)
    requires IsIdentifier(u, s) && IdentifierTail(u, suffix) == 0
    ensures ParseIdentifier(u, s + suffix) == Done(VString(s), suffix)
  {
    hide IdentifierTail;
    var text := s + suffix;
    assert text[1..] == s[1..] + suffix;
    TailConcat(u, s[1..], suffix);
    assert text[..|s|] == s && text[|s|..] == suffix;
  }

  lemma BoolReads(b: bool, suffix: string)
    ensures ParseBool((if b then "true" else "false") + suffix) == Done(VBool(b), suffix)
  {
    var flat := if b then "true" else "false";
    var text := flat + suffix;
    assert text[..|flat|] == flat && text[|flat|..] == suffix;
    if !b {
      assert text[0] == 'f';
    }
  }

  lemma AtomReads(u: CharClass, t: Ty, v: Value, suffix: string)
    requires HasType(u, t, v) && Ends(u, v, suffix)
    requires v.VInt? || v.VNat? || v.VBool? || v.VString? || v.VNone?
    ensures Parse(u, t, Flat(v) + suffix) == Done(v, suffix)
  {
    hide IdentifierTail, IsIdentifier, DigitsLength, ValueOf, ParseInt, ParseIdentifier, ParseBool;
    match v
    case VInt(n) => IntReads(n, suffix);
    case VNat(n) => DecimalReads(n, suffix);
    case VString(s) => IdentifierReads(u, s, suffix);
    case VBool(b) => BoolReads(b, suffix);
    case VNone =>
      var text := "none" + suffix;
      assert text[..4] == "none" && text[4..] == suffix;
  }

  lemma SplitItems(xs: seq<Value>, tail: string)
    requires xs != []
    ensures FlatItems(xs) + tail == Flat(xs[0]) + (FlatSeparator(|xs| > 1) + (FlatItems(xs[1..]) + tail))
  {
    hide Flat, FlatSeparator;
  }

  /** Every representable value is read back from its flat text. */
  lemma {:induction false} FlatRoundTrip(u: CharClass, t: Ty, v: Value, suffix: string)
    requires Faithful(u) && HasType(u, t, v) && Canonical(v) && Ends(u, v, suffix)
    ensures Parse(u, t, Flat(v) + suffix) == Done(v, Rest(v, suffix))
    decreases v, 3
  {
    match v
    case VInt(_) | VNat(_) | VBool(_) | VString(_) | VNone => AtomReads(u, t, v, suffix);
    case VSome(x) =>
      FlatRoundTrip(u, t.payload, x, suffix);
      DoesNotReadNone(u, t.payload, x, suffix);
    case VVec(xs) => VecReads(u, t, xs, suffix);
    case VMap(es) => MapReads(u, t, es, suffix);
    case VEntry(x, y) => EntryReads(u, t, x, y, suffix);
    case VPair(x, y) => PairReads(u, t, x, y, suffix);
    case VTriple(x, y, z) => TripleReads(u, t, x, y, z, suffix);
  }

  /** A mark and a value, wherever white space was skipped before the mark. */
  lemma {:induction false} AfterReads(u: CharClass, mark: char, blank: string, t: Ty, v: Value, s: string,
                                      after: string)
    requires Faithful(u) && HasType(u, t, v) && Canonical(v) && Ends(u, v, after) && !IsWs(mark)
        && (blank == "" || blank == " ")
    requires Expect(mark, s) == Expect(mark, [mark] + (blank + (Flat(v) + after)))
    ensures ParseAfter(u, mark, t, s) == Done(v, Rest(v, after))
    decreases v, 4
  {
    hide Flat, Faithful, HasType, Canonical, Ends, Expect, Rest;
    MarkThenFlat(u, t, v, mark, blank, after);
    FlatRoundTrip(u, t, v, after);
  }

  lemma {:induction false} EntryReads(u: CharClass, t: Ty, x: Value, y: Value, suffix: string)
    requires Faithful(u) && HasType(u, t, VEntry(x, y)) && Canonical(VEntry(x, y)) && Ends(u, y, suffix)
    ensures Parse(u, t, Flat(VEntry(x, y)) + suffix) == Done(VEntry(x, y), Rest(y, suffix))
    decreases VEntry(x, y), 2
  {
    hide Ends, Expect, Faithful, Rest;
    var after := [':'] + (" " + (Flat(y) + suffix));
    EntryShape(Flat(x), Flat(y), suffix);
    PunctuationEnds(u, x, ':', " " + (Flat(y) + suffix));
    FlatRoundTrip(u, t.key, x, after);
    ExpectAfterRest(x, ':', after);
    AfterReads(u, ':', " ", t.value, y, Rest(x, after), suffix);
  }

  lemma PairShape(a: string, b: string, suffix: string)
    ensures "(" + a + ", " + b + ")" + suffix == ['('] + ("" + (a + ([','] + (" " + (b + ([')'] + suffix))))))
  {
    assert ", " + b + ")" + suffix == [','] + (" " + (b + ([')'] + suffix)));
  }

  lemma {:induction false} PairReads(u: CharClass, t: Ty, x: Value, y: Value, suffix: string)
    requires Faithful(u) && HasType(u, t, VPair(x, y)) && Canonical(VPair(x, y))
    ensures Parse(u, t, Flat(VPair(x, y)) + suffix) == Done(VPair(x, y), SkipWs(suffix))
    decreases VPair(x, y), 2
  {
    hide Ends, Expect, Faithful, Rest;
    var s2 := [')'] + suffix;
    var s1 := [','] + (" " + (Flat(y) + s2));
    var s0 := ['('] + ("" + (Flat(x) + s1));
    PairShape(Flat(x), Flat(y), suffix);
    PunctuationEnds(u, y, ')', suffix);
    PunctuationEnds(u, x, ',', " " + (Flat(y) + s2));
    AfterReads(u, '(', "", t.first, x, s0, s1);
    ExpectAfterRest(x, ',', s1);
    AfterReads(u, ',', " ", t.second, y, Rest(x, s1), s2);
    ExpectAfterRest(y, ')', s2);
    ExpectMark(')', suffix);
  }

  lemma TripleShape(a: string, b: string, c: string, suffix: string)
    ensures "(" + a + ", " + b + ", " + c + ")" + suffix ==
            ['('] + ("" + (a + ([','] + (" " + (b + ([','] + (" " + (c + ([')'] + suffix)))))))))
  {
    var s3 := [')'] + suffix;
    var s2 := [','] + (" " + (c + s3));
    assert ", " + c + ")" + suffix == s2;
    assert ", " + b + (", " + c + ")" + suffix) == [','] + (" " + (b + s2));
  }

  lemma {:induction false} TripleReads(u: CharClass, t: Ty, x: Value, y: Value, z: Value, suffix: string)
    requires Faithful(u) && HasType(u, t, VTriple(x, y, z)) && Canonical(VTriple(x, y, z))
    ensures Parse(u, t, Flat(VTriple(x, y, z)) + suffix) == Done(VTriple(x, y, z), SkipWs(suffix))
    decreases VTriple(x, y, z), 2
  {
    hide Ends, Expect, Faithful, Rest;
    var s3 := [')'] + suffix;
    var s2 := [','] + (" " + (Flat(z) + s3));
    var s1 := [','] + (" " + (Flat(y) + s2));
    var s0 := ['('] + ("" + (Flat(x) + s1));
    TripleShape(Flat(x), Flat(y), Flat(z), suffix);
    PunctuationEnds(u, z, ')', suffix);
    PunctuationEnds(u, y, ',', " " + (Flat(z) + s3));
    PunctuationEnds(u, x, ',', " " + (Flat(y) + s2));
    AfterReads(u, '(', "", t.first, x, s0, s1);
    ExpectAfterRest(x, ',', s1);
    AfterReads(u, ',', " ", t.second, y, Rest(x, s1), s2);
    ExpectAfterRest(y, ',', s2);
    AfterReads(u, ',', " ", t.third, z, Rest(y, s2), s3);
    ExpectAfterRest(z, ')', s3);
    ExpectMark(')', suffix);
  }

  lemma BracketShape(open: char, close: char, items: string, suffix: string)
    ensures [open, close] + suffix == [open] + ([close] + suffix)
    ensures [open, ' '] + items + [close] + suffix == [open] + (" " + (items + ([close] + suffix)))
  {
  }

  lemma {:induction false} VecReads(u: CharClass, t: Ty, xs: seq<Value>, suffix: string)
    requires Faithful(u) && HasType(u, t, VVec(xs)) && Canonical(VVec(xs))
    ensures Parse(u, t, Flat(VVec(xs)) + suffix) == Done(VVec(xs), SkipWs(suffix))
    decreases VVec(xs), 2
  {
    hide Ends, Expect, Faithful, FlatItems, ParseBrackets;
    BracketsRead(u, t.item, xs, '[', ']', suffix);
    BracketShape('[', ']', FlatItems(xs), suffix);
    assert "[]" == ['[', ']'] && "[ " == ['[', ' '] && "]" == [']'];
  }

  lemma {:induction false} MapReads(u: CharClass, t: Ty, es: seq<Value>, suffix: string)
    requires Faithful(u) && HasType(u, t, VMap(es)) && Canonical(VMap(es))
    ensures Parse(u, t, Flat(VMap(es)) + suffix) == Done(VMap(es), SkipWs(suffix))
    decreases VMap(es), 2
  {
    hide Ends, Expect, Faithful, Rest, FlatItems, ParseBrackets, Collect;
    BracketsRead(u, TEntry(t.key, t.value), es, '{', '}', suffix);
    CollectKeepsAscending(es);
    BracketShape('{', '}', FlatItems(es), suffix);
    assert "{}" == ['{', '}'] && "{ " == ['{', ' '] && "}" == ['}'];
  }

  /** A bracketed list, empty or not. */
  lemma {:induction false} BracketsRead(u: CharClass, t: Ty, xs: seq<Value>, open: char, close: char, suffix: string)
    requires Faithful(u) && (forall x :: x in xs ==> HasType(u, t, x) && Canonical(x))
    requires open in "[{" && close in "]}"
    ensures var s := if xs == [] then [open] + ([close] + suffix)
        else [open] + (" " + (FlatItems(xs) + ([close] + suffix)));
            ParseBrackets(u, t, open, close, s) == Done(xs, SkipWs(suffix))
    decreases xs, 6
  {
    hide HasType, Canonical, Faithful, Parse, ParseMore, FlatItems, Flat;
    var tail := [close] + suffix;
    ExpectMark(close, suffix);
    ExpectMark(open, tail);
    if xs == [] {
      NothingAtClose(u, t, tail);
    } else {
      assert xs[0] in xs;
      SplitItems(xs, tail);
      FlatStarts(u, t, xs[0], FlatSeparator(|xs| > 1) + (FlatItems(xs[1..]) + tail));
      ExpectMark(open, " " + (FlatItems(xs) + tail));
      ItemsRead(u, t, xs, tail);
      var rest := ParseItems(u, t, FlatItems(xs) + tail).1;
      assert SkipWs(tail) == SkipWs(rest);
    }
  }

  /** What follows an item: a comma and the items after it, or a blank and the closing bracket. */
  lemma SeparatorReads(u: CharClass, t: Ty, xs: seq<Value>, v: Value, tail: string)
    requires Faithful(u) && tail != "" && tail[0] in "]}"
    ensures var after := FlatSeparator(xs != []) + (FlatItems(xs) + tail);
            Ends(u, v, after) && SkipWs(Rest(v, after)) == if xs == [] then tail
                else [','] + (" " + (FlatItems(xs) + tail))
  {
    hide Faithful, Ends, Rest, SkipWs, Flat;
    var after := FlatSeparator(xs != []) + (FlatItems(xs) + tail);
    ExpectAfterRest(v, ',', after);
    if xs == [] {
      assert after == [' '] + tail;
      assert tail == [tail[0]] + tail[1..];
      PunctuationEnds(u, v, ' ', tail);
      ExpectMark(tail[0], tail[1..]);
      assert after == " " + ([tail[0]] + tail[1..]);
    } else {
      assert after == [','] + (" " + (FlatItems(xs) + tail));
      PunctuationEnds(u, v, ',', " " + (FlatItems(xs) + tail));
      ExpectMark(',', " " + (FlatItems(xs) + tail));
    }
  }

  lemma {:induction false} ItemsRead(u: CharClass, t: Ty, xs: seq<Value>, tail: string)
    requires Faithful(u) && xs != [] && (forall x :: x in xs ==> HasType(u, t, x) && Canonical(x))
    requires tail != "" && tail[0] in "]}"
    ensures var r := ParseItems(u, t, FlatItems(xs) + tail); r.0 == xs && SkipWs(r.1) == tail
    decreases xs, 5
  {
    hide HasType, Canonical, Faithful, Ends, Rest, Expect, SkipWs, FlatItems, FlatSeparator, Parse, ParseMore, Flat;
    assert xs[0] in xs;
    var after := FlatSeparator(|xs| > 1) + (FlatItems(xs[1..]) + tail);
    SplitItems(xs, tail);
    SeparatorReads(u, t, xs[1..], xs[0], tail);
    FlatRoundTrip(u, t, xs[0], after);
    MoreRead(u, t, xs[1..], Rest(xs[0], after), tail);
    assert [xs[0]] + xs[1..] == xs;
  }

  lemma CommaRead(u: CharClass, t: Ty, v: Value, s: string, after: string)
    requires Faithful(u) && HasType(u, t, v)
    requires SkipWs(s) == [','] + (" " + (Flat(v) + after))
    ensures Expect(',', s) == Done(',', Flat(v) + after)
  {
    hide HasType, Faithful, Flat;
    MarkThenFlat(u, t, v, ',', " ", after);
    SkipAgain(s);
    assert Expect(',', s) == Expect(',', SkipWs(s));
  }

  lemma {:induction false} MoreRead(u: CharClass, t: Ty, xs: seq<Value>, s: string, tail: string)
    requires Faithful(u) && (forall x :: x in xs ==> HasType(u, t, x) && Canonical(x))
    requires tail != "" && tail[0] in "]}"
    requires SkipWs(s) == if xs == [] then tail else [','] + (" " + (FlatItems(xs) + tail))
    ensures var r := ParseMore(u, t, s); r.0 == xs && SkipWs(r.1) == tail
    decreases xs, 4
  {
    hide HasType, Canonical, Faithful, Ends, Rest, FlatItems, FlatSeparator, Parse, Flat;
    if xs == [] {
      assert Expect(',', s).Failed?;
    } else {
      hide Expect, SkipWs;
      assert xs[0] in xs;
      var after := FlatSeparator(|xs| > 1) + (FlatItems(xs[1..]) + tail);
      SplitItems(xs, tail);
      SeparatorReads(u, t, xs[1..], xs[0], tail);
      CommaRead(u, t, xs[0], s, after);
      FlatRoundTrip(u, t, xs[0], after);
      MoreRead(u, t, xs[1..], Rest(xs[0], after), tail);
      assert [xs[0]] + xs[1..] == xs;
    }
  }

  // ---- The main results ----------------------------------------------------------------

  /** The printed text and the flat text read alike, whatever follows them. */
  lemma PrintedReadsAsFlat(u: CharClass, t: Ty, v: Value, suffix: string)
    requires Faithful(u) && HasType(u, t, v)
    ensures Alike(Print(v) + suffix, Flat(v) + suffix)
    ensures Print(v) != "" && !IsWs(Print(v)[|Print(v)| - 1])
  {
    hide Print, Flat, Squashed, HasType, Faithful;
    PrintLaysOut(u, t, v);
    SquashedConcat(false, Print(v), suffix);
    SquashedConcat(false, Flat(v), suffix);
    SquashedTwice(false, Print(v));
    FlatEnds(Print(v));
  }

  lemma FlatEnds(s: string)
    requires s != "" && !IsWs(s[|s| - 1])
    ensures var f := Squashed(false, s); f != "" && !IsWs(f[|f| - 1])
  {
    var n := |s| - 1;
    assert s == s[..n] + [s[n]];
    SquashedConcat(false, s[..n], [s[n]]);
    assert Squashed(OpenAfter(false, s[..n]), [s[n]]) == [s[n]];
  }

  lemma {:induction false} RestIsCut(v: Value, text: string, suffix: string)
    requires text != "" && !IsWs(text[|text| - 1])
    ensures IsCut(text + suffix, Rest(v, suffix))
    decreases v
  {
    if v.VSome? {
      RestIsCut(v.payload, text, suffix);
    } else if v.VEntry? {
      RestIsCut(v.value, text, suffix);
    } else {
      VisibleCuts(text + suffix, |text|);
      assert (text + suffix)[|text|..] == suffix;
      SkipCuts(suffix);
      CutTransitive(text + suffix, suffix, SkipWs(suffix));
    }
  }

  /**
   * A representable value, printed at any depth of nesting, is read back exactly, and only its own text is consumed.
   */
  lemma CanonicalRoundTrip(u: CharClass, t: Ty, v: Value, suffix: string)
    requires Faithful(u) && HasType(u, t, v) && Ends(u, v, suffix) && Canonical(v)
    ensures Parse(u, t, Print(v) + suffix) == Done(v, Rest(v, suffix))
  {
    hide Faithful, HasType, Ends, Canonical, Print, Flat, IsCut, Alike, Parse, Rest, IsWs;
    var text := Print(v) + suffix;
    PrintedReadsAsFlat(u, t, v, suffix);
    FlatRoundTrip(u, t, v, suffix);
    ParseAlike(u, t, text, Flat(v) + suffix);
    var rest := Parse(u, t, text).rest;
    ParseCuts(u, t, text);
    RestIsCut(v, Print(v), suffix);
    SameCut(text, rest, Rest(v, suffix));
  }

  lemma SameCut(s: string, a: string, b: string)
    requires IsCut(s, a) && IsCut(s, b) && Alike(a, b)
    ensures a == b
  {
    if |a| <= |b| {
      CutsAgree(s, a, b);
    } else {
      CutsAgree(s, b, a);
    }
  }

  /** Whatever text was accepted, the value read from it survives being printed and read again. */
  lemma ParsedComesBack(u: CharClass, t: Ty, s: string)
    requires Faithful(u) && Parse(u, t, s).Done?
    ensures var v := Parse(u, t, s).value; HasType(u, t, v) && Parse(u, t, Print(v)) == Done(v, "")
  {
    hide Faithful, HasType, Ends, Canonical, Print, Parse;
    var v := Parse(u, t, s).value;
    ParseSound(u, t, s);
    NothingEnds(u, v);
    CanonicalRoundTrip(u, t, v, "");
    assert Print(v) + "" == Print(v);
    NothingRests(v);
  }

  lemma {:induction false} NothingRests(v: Value)
    ensures Rest(v, "") == ""
    decreases v
  {
    if v.VSome? {
      NothingRests(v.payload);
    } else if v.VEntry? {
      NothingRests(v.value);
    }
  }
}
