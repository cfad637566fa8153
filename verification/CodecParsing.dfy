/** What the parser does not depend on, and what it can return. */
module CodecParsing {
  import opened Text
  import opened Numerals
  import opened Squash
  import opened CodecValues
  import opened Codec

  // ---- The amount of white space does not matter ------------------------------

  lemma {:induction false} SkipSquashes(s: string)
    ensures Squashed(true, s) == Squashed(false, SkipWs(s)) && StartsVisibly(SkipWs(s))
  {
    if s != "" && IsWs(s[0]) {
      SkipSquashes(s[1..]);
      assert "" + Squashed(true, s[1..]) == Squashed(true, s[1..]);
    } else {
      OpenDoesNotMatter(s);
    }
  }

  lemma AlikeHead(s: string, t: string)
    requires Alike(s, t)
    ensures s == "" <==> t == ""
    ensures s != "" ==> IsWs(s[0]) == IsWs(t[0])
    ensures s != "" && !IsWs(s[0]) ==> s[0] == t[0] && Alike(s[1..], t[1..])
    ensures Alike(SkipWs(s), SkipWs(t))
  {
    SkipSquashes(s);
    SkipSquashes(t);
    var a, b := Squashed(false, s), Squashed(false, t);
    if s != "" && t != "" {
      assert a[0] == b[0] && a[1..] == b[1..];
      assert a[1..] == Squashed(IsWs(s[0]), s[1..]) && b[1..] == Squashed(IsWs(t[0]), t[1..]);
      if !IsWs(s[0]) {
        OpenDoesNotMatter(s);
        OpenDoesNotMatter(t);
      } else {
        assert "" + Squashed(true, s[1..]) == Squashed(true, s) && "" + Squashed(true, t[1..]) == Squashed(true, t);
      }
    }
  }

  /** Two answers with the same value, and rests that differ in white space only. */
  ghost predicate Matches<T>(r: Parsed<T>, r': Parsed<T>) {
    && (r.Done? <==> r'.Done?)
    && (r.Done? ==> r.value == r'.value && Alike(r.rest, r'.rest))
  }

  lemma ExpectAlike(c: char, s: string, t: string)
    requires Alike(s, t)
    ensures Matches(Expect(c, s), Expect(c, t))
  {
    hide Alike, IsWs;
    AlikeHead(s, t);
    var s', t' := SkipWs(s), SkipWs(t);
    SkipSquashes(s);
    SkipSquashes(t);
    AlikeHead(s', t');
    if s' != "" {
      assert !IsWs(s'[0]) && !IsWs(t'[0]);
      AlikeHead(s'[1..], t'[1..]);
    }
  }

  lemma {:induction false} TagAlike(tag: string, s: string, t: string)
    requires Alike(s, t) && forall c :: c in tag ==> !IsWs(c)
    ensures tag <= s <==> tag <= t
    ensures tag <= s ==> Alike(s[|tag|..], t[|tag|..])
  {
    hide Alike, IsWs;
    AlikeHead(s, t);
    if tag != "" && s != "" && s[0] == tag[0] {
      assert tag[0] in tag;
      TagAlike(tag[1..], s[1..], t[1..]);
      assert tag == [tag[0]] + tag[1..] && s == [s[0]] + s[1..] && t == [t[0]] + t[1..];
    }
  }

  lemma {:induction false} DigitsAlike(s: string, t: string)
    requires Alike(s, t)
    ensures var k := DigitsLength(s); DigitsLength(t) == k && t[..k] == s[..k] && Alike(s[k..], t[k..])
  {
    hide Alike;
    AlikeHead(s, t);
    if s != "" && IsDigit(s[0]) {
      DigitsAlike(s[1..], t[1..]);
      var k := DigitsLength(s[1..]);
      assert s[..k + 1] == [s[0]] + s[1..][..k] && t[..k + 1] == [t[0]] + t[1..][..k];
      assert s[k + 1..] == s[1..][k..] && t[k + 1..] == t[1..][k..];
    } else {
      assert s[0..] == s && t[0..] == t;
    }
  }

  predicate TwoColons(s: string) {
    |s| > 1 && s[0] == ':' && s[1] == ':'
  }

  /** The three ways an identifier can go on. */
  lemma TailCases(u: CharClass, s: string)
    ensures s == "" ==> IdentifierTail(u, s) == 0
    ensures s != "" && ContinuesIdentifier(u, s[0]) ==> IdentifierTail(u, s) == 1 + IdentifierTail(u, s[1..])
    ensures s != "" && !ContinuesIdentifier(u, s[0]) ==>
              IdentifierTail(u, s) == if TwoColons(s) then 2 + IdentifierTail(u, s[2..]) else 0
  {
  }

  lemma WsContinuesNothing(u: CharClass, c: char)
    requires Faithful(u) && IsWs(c)
    ensures !ContinuesIdentifier(u, c) && c != ':'
  {
    assert IsTrimmed(c) && c < '\U{80}';
  }

  lemma ColonsAlike(s: string, t: string)
    requires Alike(s, t)
    ensures TwoColons(s) <==> TwoColons(t)
    ensures TwoColons(s) ==> Alike(s[2..], t[2..])
  {
    TagAlike("::", s, t);
    assert TwoColons(s) <==> "::" <= s;
    assert TwoColons(t) <==> "::" <= t;
  }

  lemma {:induction false} TailAlike(u: CharClass, s: string, t: string)
    requires Alike(s, t) && Faithful(u)
    ensures var k := IdentifierTail(u, s);
            IdentifierTail(u, t) == k && t[..k] == s[..k] && Alike(s[k..], t[k..])
  {
    hide Alike, IdentifierTail, Faithful, ContinuesIdentifier, IsWs, TwoColons;
    AlikeHead(s, t);
    TailCases(u, s);
    TailCases(u, t);
    ColonsAlike(s, t);
    assert s[0..] == s && t[0..] == t;
    if s != "" {
      if IsWs(s[0]) {
        WsContinuesNothing(u, s[0]);
        WsContinuesNothing(u, t[0]);
        assert !TwoColons(s) by {
          NotColons(s);
        }
      } else if ContinuesIdentifier(u, s[0]) {
        TailAlike(u, s[1..], t[1..]);
        TakeOne(s, IdentifierTail(u, s[1..]));
        TakeOne(t, IdentifierTail(u, t[1..]));
      } else if TwoColons(s) {
        TailAlike(u, s[2..], t[2..]);
        TakeTwo(s, IdentifierTail(u, s[2..]));
        TakeTwo(t, IdentifierTail(u, t[2..]));
      }
    }
  }

  lemma NotColons(s: string)
    requires s != "" && s[0] != ':'
    ensures !TwoColons(s)
  {
  }

  lemma TakeTwo(s: string, k: nat)
    requires TwoColons(s) && k <= |s| - 2
    ensures s[..k + 2] == "::" + s[2..][..k] && s[k + 2..] == s[2..][k..]
  {
  }

  lemma TakeOne(s: string, k: nat)
    requires k < |s|
    ensures s[..k + 1] == [s[0]] + s[1..][..k] && s[k + 1..] == s[1..][k..]
  {
  }

  lemma IntAlike(s: string, s': string)
    requires Alike(s, s')
    ensures Matches(ParseInt(s), ParseInt(s'))
  {
    hide Alike, DigitsLength, ValueOf;
    AlikeHead(s, s');
    var negative := s != "" && s[0] == '-';
    if negative {
      assert !IsWs(s[0]);
      DigitsAlike(s[1..], s'[1..]);
    } else {
      DigitsAlike(s, s');
    }
  }

  lemma IdentifierAlike(u: CharClass, s: string, s': string)
    requires Alike(s, s') && Faithful(u)
    ensures Matches(ParseIdentifier(u, s), ParseIdentifier(u, s'))
  {
    hide Alike, Faithful, IdentifierTail, IsWs, StartsIdentifier;
    AlikeHead(s, s');
    if s != "" {
      if IsWs(s[0]) {
        WsStartsNothing(u, s[0]);
        WsStartsNothing(u, s'[0]);
      } else {
        TailAlike(u, s[1..], s'[1..]);
        var k := IdentifierTail(u, s[1..]);
        TakeOne(s, k);
        TakeOne(s', k);
      }
    }
  }

  lemma AtomAlike(u: CharClass, t: Ty, s: string, s': string)
    requires Alike(s, s') && Faithful(u) && (t.TInt? || t.TNat? || t.TBool? || t.TString?)
    ensures Matches(Parse(u, t, s), Parse(u, t, s'))
  {
    hide Alike, Faithful, DigitsLength, ValueOf, IdentifierTail, ParseInt, ParseIdentifier;
    match t
    case TInt => IntAlike(s, s');
    case TNat => DigitsAlike(s, s');
    case TBool =>
      TagAlike("true", s, s');
      TagAlike("false", s, s');
    case TString => IdentifierAlike(u, s, s');
  }

  lemma WsStartsNothing(u: CharClass, c: char)
    requires Faithful(u) && IsWs(c)
    ensures !StartsIdentifier(u, c)
  {
    assert IsTrimmed(c);
  }

  /** The parser reads the same value from texts that differ in the amount of white space only. */
  lemma {:induction false} ParseAlike(u: CharClass, t: Ty, s: string, s': string)
    requires Alike(s, s') && Faithful(u)
    ensures Matches(Parse(u, t, s), Parse(u, t, s'))
    decreases Rank(t), 0, |s|
  {
    hide Alike, Faithful, Expect;
    match t
    case TInt | TNat | TBool | TString => AtomAlike(u, t, s, s');
    case TOption(p) =>
      TagAlike("none", s, s');
      ParseAlike(u, p, s, s');
    case TVec(i) =>
      BracketsAlike(u, i, '[', ']', s, s');
    case TMap(k, w) =>
      BracketsAlike(u, TEntry(k, w), '{', '}', s, s');
    case TEntry(k, w) =>
      ParseAlike(u, k, s, s');
      if Parse(u, k, s).Done? {
        AfterAlike(u, ':', w, Parse(u, k, s).rest, Parse(u, k, s').rest);
      }
    case TPair(a, b) =>
      AfterAlike(u, '(', a, s, s');
      var r, r' := ParseAfter(u, '(', a, s), ParseAfter(u, '(', a, s');
      if r.Done? {
        AfterAlike(u, ',', b, r.rest, r'.rest);
        var q, q' := ParseAfter(u, ',', b, r.rest), ParseAfter(u, ',', b, r'.rest);
        if q.Done? {
          ExpectAlike(')', q.rest, q'.rest);
        }
      }
    case TTriple(a, b, c) =>
      AfterAlike(u, '(', a, s, s');
      var r, r' := ParseAfter(u, '(', a, s), ParseAfter(u, '(', a, s');
      if r.Done? {
        AfterAlike(u, ',', b, r.rest, r'.rest);
        var q, q' := ParseAfter(u, ',', b, r.rest), ParseAfter(u, ',', b, r'.rest);
        if q.Done? {
          AfterAlike(u, ',', c, q.rest, q'.rest);
          var p, p' := ParseAfter(u, ',', c, q.rest), ParseAfter(u, ',', c, q'.rest);
          if p.Done? {
            ExpectAlike(')', p.rest, p'.rest);
          }
        }
      }
  }

  lemma {:induction false} AfterAlike(u: CharClass, mark: char, t: Ty, s: string, s': string)
    requires Alike(s, s') && Faithful(u)
    ensures Matches(ParseAfter(u, mark, t, s), ParseAfter(u, mark, t, s'))
    decreases Rank(t), 1, |s|
  {
    hide Alike, Faithful, Expect, Parse;
    ExpectAlike(mark, s, s');
    if Expect(mark, s).Done? {
      ParseAlike(u, t, Expect(mark, s).rest, Expect(mark, s').rest);
    }
  }

  lemma {:induction false} BracketsAlike(u: CharClass, t: Ty, open: char, close: char, s: string, s': string)
    requires Alike(s, s') && Faithful(u)
    ensures Matches(ParseBrackets(u, t, open, close, s), ParseBrackets(u, t, open, close, s'))
    decreases Rank(t), 3, |s|
  {
    hide Alike, Faithful, Expect, Parse, ParseItems;
    ExpectAlike(open, s, s');
    if Expect(open, s).Done? {
      var s1, s1' := Expect(open, s).rest, Expect(open, s').rest;
      ItemsAlike(u, t, s1, s1');
      ExpectAlike(close, ParseItems(u, t, s1).1, ParseItems(u, t, s1').1);
    }
  }

  lemma {:induction false} ItemsAlike(u: CharClass, t: Ty, s: string, s': string)
    requires Alike(s, s') && Faithful(u)
    ensures ParseItems(u, t, s).0 == ParseItems(u, t, s').0 && Alike(ParseItems(u, t, s).1, ParseItems(u, t, s').1)
    decreases Rank(t), 2, |s|
  {
    hide Alike, Faithful, Expect, Parse, ParseMore;
    ParseAlike(u, t, s, s');
    if Parse(u, t, s).Done? {
      MoreAlike(u, t, Parse(u, t, s).rest, Parse(u, t, s').rest);
    }
  }

  lemma {:induction false} MoreAlike(u: CharClass, t: Ty, s: string, s': string)
    requires Alike(s, s') && Faithful(u)
    ensures ParseMore(u, t, s).0 == ParseMore(u, t, s').0 && Alike(ParseMore(u, t, s).1, ParseMore(u, t, s').1)
    decreases Rank(t), 1, |s|
  {
    hide Alike, Faithful, Expect, Parse;
    ExpectAlike(',', s, s');
    if Expect(',', s).Done? {
      var s1, s1' := Expect(',', s).rest, Expect(',', s').rest;
      ParseAlike(u, t, s1, s1');
      if Parse(u, t, s1).Done? {
        MoreAlike(u, t, Parse(u, t, s1).rest, Parse(u, t, s1').rest);
      }
    }
  }

  // ---- Where a parser stops -----------------------------------------------------

  predicate IsSuffix(rest: string, s: string) {
    |rest| <= |s| && rest == s[|s| - |rest|..]
  }

  /** A rest that was not cut inside a run of white space. */
  predicate IsCut(s: string, rest: string) {
    && IsSuffix(rest, s)
    && (StartsVisibly(rest) || (|rest| < |s| && !IsWs(s[|s| - |rest| - 1])))
  }

  lemma CutTransitive(a: string, b: string, c: string)
    requires IsSuffix(b, a)
    ensures IsSuffix(c, b) ==> IsSuffix(c, a)
    ensures IsCut(b, c) ==> IsCut(a, c)
  {
    if IsSuffix(c, b) {
      assert b[|b| - |c|..] == a[|a| - |c|..];
      if |c| < |b| {
        assert b[|b| - |c| - 1] == a[|a| - |c| - 1];
      }
    }
  }

  lemma {:induction false} SkipCuts(s: string)
    ensures IsCut(s, SkipWs(s))
  {
    if s != "" && IsWs(s[0]) {
      SkipCuts(s[1..]);
      CutTransitive(s, s[1..], SkipWs(s[1..]));
    }
  }

  lemma ExpectCuts(c: char, s: string)
    ensures Expect(c, s).Done? ==> IsCut(s, Expect(c, s).rest)
  {
    hide IsWs, StartsVisibly;
    SkipCuts(s);
    var t := SkipWs(s);
    if t != "" {
      SkipCuts(t[1..]);
      CutTransitive(t, t[1..], SkipWs(t[1..]));
      CutTransitive(s, t, SkipWs(t[1..]));
    }
  }

  lemma {:induction false} TailIsVisible(u: CharClass, s: string)
    requires Faithful(u)
    ensures forall i :: 0 <= i < IdentifierTail(u, s) ==> !IsWs(s[i])
  {
    if s != "" {
      if ContinuesIdentifier(u, s[0]) {
        TailIsVisible(u, s[1..]);
        forall i | 0 <= i < IdentifierTail(u, s) ensures !IsWs(s[i]) {
          if i == 0 {
            assert IsWs(s[0]) ==> IsTrimmed(s[0]);
          } else {
            assert s[i] == s[1..][i - 1];
          }
        }
      } else if s[0] == ':' && |s| > 1 && s[1] == ':' {
        TailIsVisible(u, s[2..]);
        forall i | 2 <= i < IdentifierTail(u, s) ensures !IsWs(s[i]) {
          assert s[i] == s[2..][i - 2];
        }
      }
    }
  }

  /** A nonempty visible prefix may be cut off anywhere. */
  lemma VisibleCuts(s: string, k: nat)
    requires 0 < k <= |s| && !IsWs(s[k - 1])
    ensures IsCut(s, s[k..])
  {
  }

  lemma IdentifierCuts(u: CharClass, s: string)
    requires Faithful(u) && ParseIdentifier(u, s).Done?
    ensures IsCut(s, ParseIdentifier(u, s).rest)
  {
    hide IsCut, Faithful, IsWs, StartsIdentifier;
    var k := IdentifierTail(u, s[1..]);
    if IsWs(s[0]) {
      WsStartsNothing(u, s[0]);
    }
    TailIsVisible(u, s[1..]);
    assert s[k] == if k == 0 then s[0] else s[1..][k - 1];
    VisibleCuts(s, k + 1);
  }

  lemma IntCuts(s: string)
    requires ParseInt(s).Done?
    ensures IsCut(s, ParseInt(s).rest)
  {
    hide IsCut, ValueOf;
    var negative := s[0] == '-';
    var digits := if negative then s[1..] else s;
    var k := DigitsLength(digits);
    assert digits[k - 1] in digits[..k];
    VisibleCuts(s, if negative then k + 1 else k);
    if negative {
      assert s[1..][k..] == s[k + 1..];
    }
  }

  lemma NatCuts(s: string)
    requires ParseNat(s).Done?
    ensures IsCut(s, ParseNat(s).rest)
  {
    hide IsCut, ValueOf;
    var k := DigitsLength(s);
    assert s[k - 1] in s[..k];
    VisibleCuts(s, k);
  }

  lemma BoolCuts(s: string)
    requires ParseBool(s).Done?
    ensures IsCut(s, ParseBool(s).rest)
  {
    VisibleCuts(s, if "true" <= s then 4 else 5);
  }

  /** Every parser stops at a clean cut of its input. */
  lemma {:induction false} ParseCuts(u: CharClass, t: Ty, s: string)
    requires Faithful(u)
    ensures Parse(u, t, s).Done? ==> IsCut(s, Parse(u, t, s).rest)
    decreases Rank(t), 0, |s|
  {
    hide IsCut, Faithful, Expect, IsSuffix, ParseInt, ParseNat, ParseBool, ParseIdentifier, ParseAfter, ParseBrackets;
    var r := Parse(u, t, s);
    if r.Done? {
      match t
      case TInt => IntCuts(s);
      case TNat => NatCuts(s);
      case TBool => BoolCuts(s);
      case TString => IdentifierCuts(u, s);
      case TOption(p) =>
        if "none" <= s {
          VisibleCuts(s, 4);
        } else {
          ParseCuts(u, p, s);
        }
      case TVec(i) => BracketsCut(u, i, '[', ']', s);
      case TMap(k, w) => BracketsCut(u, TEntry(k, w), '{', '}', s);
      case TEntry(k, w) =>
        var s1 := Parse(u, k, s).rest;
        ParseCuts(u, k, s);
        AfterCuts(u, ':', w, s1);
        CutIsSuffix(s, s1);
        CutTransitive(s, s1, r.rest);
      case TPair(a, b) =>
        var s1 := ParseAfter(u, '(', a, s).rest;
        var s2 := ParseAfter(u, ',', b, s1).rest;
        AfterCuts(u, '(', a, s);
        AfterCuts(u, ',', b, s1);
        ExpectCuts(')', s2);
        ChainCuts(s, s1, s2, s2, r.rest);
      case TTriple(a, b, c) =>
        var s1 := ParseAfter(u, '(', a, s).rest;
        var s2 := ParseAfter(u, ',', b, s1).rest;
        var s3 := ParseAfter(u, ',', c, s2).rest;
        AfterCuts(u, '(', a, s);
        AfterCuts(u, ',', b, s1);
        AfterCuts(u, ',', c, s2);
        ExpectCuts(')', s3);
        CutIsSuffix(s2, s3);
        ChainCuts(s, s1, s2, s3, r.rest);
    }
  }

  lemma CutIsSuffix(s: string, rest: string)
    ensures IsCut(s, rest) ==> IsSuffix(rest, s)
    ensures IsSuffix(s, s)
  {
  }

  lemma ChainCuts(s: string, s1: string, s2: string, s3: string, rest: string)
    requires IsCut(s, s1) && IsCut(s1, s2) && (s2 == s3 || IsSuffix(s3, s2)) && IsCut(s3, rest)
    ensures IsCut(s, rest)
  {
    hide StartsVisibly, IsWs;
    CutTransitive(s, s1, s2);
    CutTransitive(s, s2, s3);
    CutTransitive(s, s3, rest);
  }

  lemma {:induction false} AfterCuts(u: CharClass, mark: char, t: Ty, s: string)
    requires Faithful(u)
    ensures ParseAfter(u, mark, t, s).Done? ==> IsCut(s, ParseAfter(u, mark, t, s).rest)
    decreases Rank(t), 1, |s|
  {
    hide IsCut, Faithful, Expect, IsSuffix, Parse;
    if ParseAfter(u, mark, t, s).Done? {
      var s1 := Expect(mark, s).rest;
      ExpectCuts(mark, s);
      ParseCuts(u, t, s1);
      CutIsSuffix(s, s1);
      CutTransitive(s, s1, Parse(u, t, s1).rest);
    }
  }

  lemma {:induction false} BracketsCut(u: CharClass, t: Ty, open: char, close: char, s: string)
    requires Faithful(u)
    ensures ParseBrackets(u, t, open, close, s).Done? ==> IsCut(s, ParseBrackets(u, t, open, close, s).rest)
    decreases Rank(t), 3, |s|
  {
    hide IsCut, Faithful, Expect, IsSuffix, ParseItems;
    if ParseBrackets(u, t, open, close, s).Done? {
      var s1 := Expect(open, s).rest;
      var s2 := ParseItems(u, t, s1).1;
      ExpectCuts(open, s);
      ItemsStopAtSuffix(u, t, s1);
      ExpectCuts(close, s2);
      CutIsSuffix(s, s1);
      CutTransitive(s, s1, s2);
      CutTransitive(s, s2, Expect(close, s2).rest);
    }
  }

  lemma {:induction false} ItemsStopAtSuffix(u: CharClass, t: Ty, s: string)
    requires Faithful(u)
    ensures IsSuffix(ParseItems(u, t, s).1, s)
    decreases Rank(t), 2, |s|
  {
    hide IsCut, Faithful, Expect, IsSuffix, Parse, ParseMore;
    CutIsSuffix(s, s);
    if Parse(u, t, s).Done? {
      var s1 := Parse(u, t, s).rest;
      ParseCuts(u, t, s);
      MoreStopsAtSuffix(u, t, s1);
      CutIsSuffix(s, s1);
      CutTransitive(s, s1, ParseMore(u, t, s1).1);
    }
  }

  lemma {:induction false} MoreStopsAtSuffix(u: CharClass, t: Ty, s: string)
    requires Faithful(u)
    ensures IsSuffix(ParseMore(u, t, s).1, s)
    decreases Rank(t), 1, |s|
  {
    hide IsCut, Faithful, Expect, IsSuffix, Parse;
    CutIsSuffix(s, s);
    if Expect(',', s).Done? {
      var s1 := Expect(',', s).rest;
      if Parse(u, t, s1).Done? {
        var s2 := Parse(u, t, s1).rest;
        ExpectCuts(',', s);
        ParseCuts(u, t, s1);
        MoreStopsAtSuffix(u, t, s2);
        CutIsSuffix(s, s1);
        CutIsSuffix(s1, s2);
        CutTransitive(s, s1, s2);
        CutTransitive(s, s2, ParseMore(u, t, s2).1);
      }
    }
  }

  /** Two clean cuts of one text that are alike are the same cut. */
  lemma CutsAgree(s: string, a: string, b: string)
    requires IsCut(s, a) && IsCut(s, b) && Alike(a, b) && |a| <= |b|
    ensures a == b
  {
    if |a| < |b| {
      var x := b[..|b| - |a|];
      assert b == x + a;
      assert x[|x| - 1] == s[|s| - |a| - 1];
      if OpenAfter(false, x) {
        OpenDoesNotMatter(a);
      }
      SquashedConcat(false, x, a);
    }
  }
}
