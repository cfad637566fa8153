/** Exactly which values, and the values of which types, survive printing and parsing. */
module CodecTypes {
  import opened Text
  import opened CodecValues
  import opened Codec
  import opened CodecRoundTrip

  // ---- Values --------------------------------------------------------------

  lemma {:induction false} TypedIffLegible(u: CharClass, t: Ty, v: Value)
    ensures HasType(u, t, v) <==> HasRustType(t, v) && Legible(u, v)
    decreases v
  {
    hide IsIdentifier, Ascending, Compare;
    match (t, v)
    case (TOption(p), VSome(x)) => TypedIffLegible(u, p, x);
    case (TVec(i), VVec(xs)) =>
      forall x | x in xs ensures HasType(u, i, x) <==> HasRustType(i, x) && Legible(u, x) {
        TypedIffLegible(u, i, x);
      }
    case (TMap(k, w), VMap(es)) =>
      forall e | e in es ensures HasType(u, TEntry(k, w), e) <==> HasRustType(TEntry(k, w), e) && Legible(u, e) {
        TypedIffLegible(u, TEntry(k, w), e);
      }
    case (TEntry(k, w), VEntry(x, y)) =>
      TypedIffLegible(u, k, x);
      TypedIffLegible(u, w, y);
    case (TPair(a, b), VPair(x, y)) =>
      TypedIffLegible(u, a, x);
      TypedIffLegible(u, b, y);
    case (TTriple(a, b, c), VTriple(x, y, z)) =>
      TypedIffLegible(u, a, x);
      TypedIffLegible(u, b, y);
      TypedIffLegible(u, c, z);
    case _ =>
  }

  /**
   * Printing and parsing undo each other exactly on the values of the type whose strings are all identifiers and
   * whose options hold no payload that reads as `none`; any other value is never returned for any text.
   */
  lemma RoundTripIff(u: CharClass, t: Ty, v: Value, suffix: string)
    requires Faithful(u) && Ends(u, v, suffix)
    ensures Parse(u, t, Print(v) + suffix) == Done(v, Rest(v, suffix)) <==>
            HasRustType(t, v) && Legible(u, v) && Canonical(v)
    ensures !(HasRustType(t, v) && Legible(u, v) && Canonical(v)) ==> forall s :: Parse(u, t, s).Done? ==>
        Parse(u, t, s).value != v
  {
    hide Faithful, HasType, HasRustType, Legible, Ends, Canonical, Print, Parse, Rest;
    TypedIffLegible(u, t, v);
    if HasType(u, t, v) && Canonical(v) {
      CanonicalRoundTrip(u, t, v, suffix);
    } else {
      forall s | Parse(u, t, s).Done? ensures Parse(u, t, s).value != v {
        ParseSound(u, t, s);
      }
    }
  }

  // ---- Types ---------------------------------------------------------------

  /** No option over an option or a string, anywhere. */
  predicate Unambiguous(t: Ty) {
    match t
    case TInt | TNat | TBool | TString => true
    case TOption(p) => Unambiguous(p) && !ReadsNone(p)
    case TVec(i) => Unambiguous(i)
    case TMap(k, w) => Unambiguous(k) && Unambiguous(w)
    case TEntry(k, w) => Unambiguous(k) && Unambiguous(w)
    case TPair(a, b) => Unambiguous(a) && Unambiguous(b)
    case TTriple(a, b, c) => Unambiguous(a) && Unambiguous(b) && Unambiguous(c)
  }

  /** A type with a value whose text starts with `none`. */
  predicate ReadsNone(t: Ty) {
    match t
    case TOption(_) | TString => true
    case TEntry(k, _) => ReadsNone(k)
    case _ => false
  }

  lemma {:induction false} OnlyNoneTypesStartNone(u: CharClass, t: Ty, v: Value)
    requires HasType(u, t, v) && StartsNone(v)
    ensures ReadsNone(t)
    decreases v
  {
    if v.VEntry? {
      OnlyNoneTypesStartNone(u, t.key, v.key);
    }
  }

  lemma {:induction false} UnambiguousIsCanonical(u: CharClass, t: Ty, v: Value)
    requires HasType(u, t, v) && Unambiguous(t)
    ensures Canonical(v)
    decreases v
  {
    match v
    case VInt(_) | VNat(_) | VBool(_) | VString(_) | VNone =>
    case VSome(x) =>
      UnambiguousIsCanonical(u, t.payload, x);
      if StartsNone(x) {
        OnlyNoneTypesStartNone(u, t.payload, x);
      }
    case VVec(xs) =>
      forall x | x in xs ensures Canonical(x) {
        UnambiguousIsCanonical(u, t.item, x);
      }
    case VMap(es) =>
      forall e | e in es ensures Canonical(e) {
        UnambiguousIsCanonical(u, TEntry(t.key, t.value), e);
      }
    case VEntry(x, y) =>
      UnambiguousIsCanonical(u, t.key, x);
      UnambiguousIsCanonical(u, t.value, y);
    case VPair(x, y) =>
      UnambiguousIsCanonical(u, t.first, x);
      UnambiguousIsCanonical(u, t.second, y);
    case VTriple(x, y, z) =>
      UnambiguousIsCanonical(u, t.first, x);
      UnambiguousIsCanonical(u, t.second, y);
      UnambiguousIsCanonical(u, t.third, z);
  }

  /** Some value of the type whose text starts with `none` where that is possible. */
  function Sample(t: Ty): Value {
    match t
    case TInt => VInt(0)
    case TNat => VNat(0)
    case TBool => VBool(true)
    case TString => VString("none")
    case TOption(_) => VNone
    case TVec(_) => VVec([])
    case TMap(_, _) => VMap([])
    case TEntry(k, w) => VEntry(Sample(k), Sample(w))
    case TPair(a, b) => VPair(Sample(a), Sample(b))
    case TTriple(a, b, c) => VTriple(Sample(a), Sample(b), Sample(c))
  }

  lemma {:induction false} LettersContinue(u: CharClass, s: string)
    requires Faithful(u) && forall c :: c in s ==> 'a' <= c <= 'z'
    ensures IdentifierTail(u, s) == |s|
  {
    if s != "" {
      assert s[0] in s && s[0] < '\U{80}';
      assert forall c :: c in s[1..] ==> c in s;
      LettersContinue(u, s[1..]);
    }
  }

  lemma NoneIsIdentifier(u: CharClass)
    requires Faithful(u)
    ensures IsIdentifier(u, "none")
  {
    hide IdentifierTail;
    assert "none"[1..] == "one";
    LettersContinue(u, "one");
  }

  lemma {:induction false} SampleHasType(u: CharClass, t: Ty)
    requires Faithful(u)
    ensures HasType(u, t, Sample(t)) && (ReadsNone(t) ==> StartsNone(Sample(t)))
  {
    hide IdentifierTail, Faithful, IsIdentifier;
    match t
    case TString => NoneIsIdentifier(u);
    case TEntry(k, w) =>
      SampleHasType(u, k);
      SampleHasType(u, w);
    case TPair(a, b) =>
      SampleHasType(u, a);
      SampleHasType(u, b);
    case TTriple(a, b, c) =>
      SampleHasType(u, a);
      SampleHasType(u, b);
      SampleHasType(u, c);
    case _ =>
  }

  /** An ambiguous type has a value that cannot be represented. */
  lemma {:induction false} AmbiguousLoses(u: CharClass, t: Ty) returns (v: Value)
    requires Faithful(u) && !Unambiguous(t)
    ensures HasType(u, t, v) && !Canonical(v)
    decreases Rank(t), 1
  {
    match t
    case TOption(p) =>
      if ReadsNone(p) {
        SampleHasType(u, p);
        v := VSome(Sample(p));
      } else {
        var x := AmbiguousLoses(u, p);
        v := VSome(x);
      }
    case TVec(i) =>
      var x := AmbiguousLoses(u, i);
      v := VVec([x]);
      assert x in v.items;
    case TMap(k, w) =>
      var e := AmbiguousLoses(u, TEntry(k, w));
      v := VMap([e]);
      assert e in v.entries;
    case TEntry(k, w) =>
      v := AmbiguousPart(u, k, w);
    case TPair(a, b) =>
      var e := AmbiguousPart(u, a, b);
      v := VPair(e.key, e.value);
    case TTriple(a, b, c) =>
      SampleHasType(u, c);
      SampleHasType(u, a);
      SampleHasType(u, b);
      if !Unambiguous(c) {
        var z := AmbiguousLoses(u, c);
        v := VTriple(Sample(a), Sample(b), z);
      } else {
        var e := AmbiguousPart(u, a, b);
        v := VTriple(e.key, e.value, Sample(c));
      }
  }

  lemma {:induction false} AmbiguousPart(u: CharClass, a: Ty, b: Ty) returns (e: Value)
    requires Faithful(u) && !(Unambiguous(a) && Unambiguous(b))
    ensures HasType(u, TEntry(a, b), e) && !Canonical(e)
    decreases 1 + Rank(a) + Rank(b), 0
  {
    SampleHasType(u, a);
    SampleHasType(u, b);
    if !Unambiguous(a) {
      var x := AmbiguousLoses(u, a);
      e := VEntry(x, Sample(b));
    } else {
      var y := AmbiguousLoses(u, b);
      e := VEntry(Sample(a), y);
    }
  }

  /**
   * Among values whose strings are identifiers: all of a type survive iff no option in it holds an option or a string.
   */
  lemma LegibleTypeRoundTripsIff(u: CharClass, t: Ty)
    requires Faithful(u)
    ensures Unambiguous(t) <==> forall v :: HasType(u, t, v) ==> Parse(u, t, Print(v)) == Done(v, "")
  {
    hide Faithful, HasType, HasRustType, Legible, Ends, Canonical, Print, Parse, Unambiguous;
    forall v | HasType(u, t, v) ensures Parse(u, t, Print(v)) == Done(v, "") <==> Canonical(v) {
      SurvivesIff(u, t, v);
      TypedIffLegible(u, t, v);
    }
    if Unambiguous(t) {
      forall v | HasType(u, t, v) ensures Canonical(v) {
        UnambiguousIsCanonical(u, t, v);
      }
    } else {
      var v := AmbiguousLoses(u, t);
      assert HasType(u, t, v);
    }
  }

  lemma SurvivesIff(u: CharClass, t: Ty, v: Value)
    requires Faithful(u)
    ensures Parse(u, t, Print(v)) == Done(v, "") <==> HasRustType(t, v) && Legible(u, v) && Canonical(v)
  {
    hide Faithful, HasRustType, Legible, Ends, Canonical, Print, Parse;
    NothingEnds(u, v);
    RoundTripIff(u, t, v, "");
    NothingRests(v);
    assert Print(v) + "" == Print(v);
  }

  predicate StringFree(t: Ty) {
    match t
    case TInt | TNat | TBool => true
    case TString => false
    case TOption(p) => StringFree(p)
    case TVec(i) => StringFree(i)
    case TMap(k, w) => StringFree(k) && StringFree(w)
    case TEntry(k, w) => StringFree(k) && StringFree(w)
    case TPair(a, b) => StringFree(a) && StringFree(b)
    case TTriple(a, b, c) => StringFree(a) && StringFree(b) && StringFree(c)
  }

  lemma {:induction false} StringFreeIsLegible(u: CharClass, t: Ty, v: Value)
    requires HasRustType(t, v) && StringFree(t)
    ensures Legible(u, v)
    decreases v
  {
    match v
    case VInt(_) | VNat(_) | VBool(_) | VString(_) | VNone =>
    case VSome(x) => StringFreeIsLegible(u, t.payload, x);
    case VVec(xs) =>
      forall x | x in xs ensures Legible(u, x) {
        StringFreeIsLegible(u, t.item, x);
      }
    case VMap(es) =>
      forall e | e in es ensures Legible(u, e) {
        StringFreeIsLegible(u, TEntry(t.key, t.value), e);
      }
    case VEntry(x, y) =>
      StringFreeIsLegible(u, t.key, x);
      StringFreeIsLegible(u, t.value, y);
    case VPair(x, y) =>
      StringFreeIsLegible(u, t.first, x);
      StringFreeIsLegible(u, t.second, y);
    case VTriple(x, y, z) =>
      StringFreeIsLegible(u, t.first, x);
      StringFreeIsLegible(u, t.second, y);
      StringFreeIsLegible(u, t.third, z);
  }

  /** A value of the type in which every part is present and every string is empty. */
  function Blank(t: Ty): Value
    decreases Rank(t)
  {
    match t
    case TInt => VInt(0)
    case TNat => VNat(0)
    case TBool => VBool(true)
    case TString => VString("")
    case TOption(p) => VSome(Blank(p))
    case TVec(i) => VVec([Blank(i)])
    case TMap(k, w) => VMap([Blank(TEntry(k, w))])
    case TEntry(k, w) => VEntry(Blank(k), Blank(w))
    case TPair(a, b) => VPair(Blank(a), Blank(b))
    case TTriple(a, b, c) => VTriple(Blank(a), Blank(b), Blank(c))
  }

  lemma OneItem(t: Ty, x: Value)
    requires HasRustType(t, x)
    ensures HasRustType(TVec(t), VVec([x]))
  {
  }

  lemma OneEntry(k: Ty, w: Ty, e: Value)
    requires HasRustType(TEntry(k, w), e) && e.VEntry?
    ensures HasRustType(TMap(k, w), VMap([e]))
  {
  }

  lemma {:induction false} BlankHasRustType(t: Ty)
    ensures HasRustType(t, Blank(t))
    decreases Rank(t)
  {
    hide Ascending, AllEntries;
    match t
    case TInt | TNat | TBool | TString =>
    case TOption(p) => BlankHasRustType(p);
    case TVec(i) =>
      BlankHasRustType(i);
      OneItem(i, Blank(i));
    case TMap(k, w) =>
      BlankHasRustType(TEntry(k, w));
      OneEntry(k, w, Blank(TEntry(k, w)));
    case TEntry(k, w) =>
      BlankHasRustType(k);
      BlankHasRustType(w);
    case TPair(a, b) =>
      BlankHasRustType(a);
      BlankHasRustType(b);
    case TTriple(a, b, c) =>
      BlankHasRustType(a);
      BlankHasRustType(b);
      BlankHasRustType(c);
  }

  lemma {:induction false} BlankIsIllegible(u: CharClass, t: Ty)
    ensures Legible(u, Blank(t)) ==> StringFree(t)
    decreases Rank(t)
  {
    match t
    case TInt | TNat | TBool | TString =>
    case TOption(p) => BlankIsIllegible(u, p);
    case TVec(i) =>
      BlankIsIllegible(u, i);
      assert Blank(i) in [Blank(i)];
    case TMap(k, w) =>
      BlankIsIllegible(u, TEntry(k, w));
      assert Blank(TEntry(k, w)) in [Blank(TEntry(k, w))];
    case TEntry(k, w) =>
      BlankIsIllegible(u, k);
      BlankIsIllegible(u, w);
    case TPair(a, b) =>
      BlankIsIllegible(u, a);
      BlankIsIllegible(u, b);
    case TTriple(a, b, c) =>
      BlankIsIllegible(u, a);
      BlankIsIllegible(u, b);
      BlankIsIllegible(u, c);
  }

  /**
   * Every value of a Rust type survives printing and parsing iff no string occurs in it and no option holds an option.
   */
  lemma TypeRoundTripsIff(u: CharClass, t: Ty)
    requires Faithful(u)
    ensures StringFree(t) && Unambiguous(t) <==> forall v :: HasRustType(t, v) ==> Parse(u, t, Print(v)) == Done(v, "")
  {
    hide Faithful, HasType, HasRustType, Legible, Ends, Canonical, Print, Parse, Unambiguous, StringFree;
    forall v | HasRustType(t, v) ensures Parse(u, t, Print(v)) == Done(v, "") <==> Legible(u, v) && Canonical(v) {
      SurvivesIff(u, t, v);
    }
    if !StringFree(t) {
      BlankHasRustType(t);
      BlankIsIllegible(u, t);
    } else if !Unambiguous(t) {
      var v := AmbiguousLoses(u, t);
      TypedIffLegible(u, t, v);
    } else {
      forall v | HasRustType(t, v) ensures Legible(u, v) && Canonical(v) {
        StringFreeIsLegible(u, t, v);
        TypedIffLegible(u, t, v);
        UnambiguousIsCanonical(u, t, v);
      }
    }
  }

  // ---- Concrete losses -----------------------------------------------------

  /** A string with a blank in it reads as what stands before the blank. */
  lemma BlankIsLost(u: CharClass)
    requires Faithful(u)
    ensures HasRustType(TString, VString("a b")) && Parse(u, TString, Print(VString("a b"))) == Done(VString("a"), " b")
  {
    assert "a b"[1..] == " b" && IsTrimmed(' ');
    assert "a b"[..1] == "a";
  }

  /**
   * A concrete loss: an optional name that starts with `none` reads as nothing, with the rest of the name behind it.
   */
  lemma NameIsLost(u: CharClass)
    requires Faithful(u)
    ensures var v := VSome(VString("nonempty"));
            HasType(u, TOption(TString), v) && Parse(u, TOption(TString), Print(v)) == Done(VNone, "mpty")
  {
    assert "nonempty"[..4] == "none" && "nonempty"[4..] == "mpty";
    LettersContinue(u, "onempty");
  }
}
