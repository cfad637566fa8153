/** The key order is a total order on each type, and collecting entries sorts them. */
module CodecOrder {
  import opened CodecValues

  function Flip(o: Ordering): Ordering {
    match o
    case Less => Greater
    case Equal => Equal
    case Greater => Less
  }

  /** Two comparisons that chain: they do not point in opposite directions. */
  predicate Chains(x: Ordering, y: Ordering) {
    x == y || x.Equal? || y.Equal?
  }

  /** How the comparisons of three keys must fit together. */
  predicate Fits(ab: Ordering, ba: Ordering, bc: Ordering, ac: Ordering) {
    ba == Flip(ab) && (Chains(ab, bc) ==> ac == Then(ab, bc))
  }

  predicate KeysFit(a: Value, b: Value, c: Value) {
    Fits(Compare(a, b), Compare(b, a), Compare(b, c), Compare(a, c))
  }

  predicate ItemsFit(a: seq<Value>, b: seq<Value>, c: seq<Value>) {
    Fits(CompareAll(a, b), CompareAll(b, a), CompareAll(b, c), CompareAll(a, c))
  }

  /** Lexicographic comparison keeps the fit. */
  lemma ThenFits(ab: Ordering, ba: Ordering, bc: Ordering, ac: Ordering, ab': Ordering, ba': Ordering, bc': Ordering,
                 ac': Ordering)
    requires Fits(ab, ba, bc, ac) && Fits(ab', ba', bc', ac')
    ensures Fits(Then(ab, ab'), Then(ba, ba'), Then(bc, bc'), Then(ac, ac'))
  {
  }

  lemma {:induction false} TextOrder(a: string, b: string, c: string)
    ensures Fits(CompareText(a, b), CompareText(b, a), CompareText(b, c), CompareText(a, c))
  {
    if a != "" && b != "" {
      TextOrder(a[1..], b[1..], if c == "" then "" else c[1..]);
    }
  }

  lemma EntriesFit(a: Value, b: Value, c: Value)
    requires a.VEntry? && b.VEntry? && c.VEntry?
    requires KeysFit(a.key, b.key, c.key) && KeysFit(a.value, b.value, c.value)
    ensures KeysFit(a, b, c)
  {
    hide Fits, Then;
    ThenFits(Compare(a.key, b.key), Compare(b.key, a.key), Compare(b.key, c.key), Compare(a.key, c.key),
             Compare(a.value, b.value), Compare(b.value, a.value), Compare(b.value, c.value),
                 Compare(a.value, c.value));
  }

  lemma PairsFit(a: Value, b: Value, c: Value)
    requires a.VPair? && b.VPair? && c.VPair?
    requires KeysFit(a.first, b.first, c.first) && KeysFit(a.second, b.second, c.second)
    ensures KeysFit(a, b, c)
  {
    EntriesFit(VEntry(a.first, a.second), VEntry(b.first, b.second), VEntry(c.first, c.second));
  }

  lemma TriplesFit(a: Value, b: Value, c: Value)
    requires a.VTriple? && b.VTriple? && c.VTriple?
    requires KeysFit(a.first, b.first, c.first) && KeysFit(a.second, b.second, c.second)
        && KeysFit(a.third, b.third, c.third)
    ensures KeysFit(a, b, c)
  {
    var a', b', c' := VEntry(a.second, a.third), VEntry(b.second, b.third), VEntry(c.second, c.third);
    EntriesFit(a', b', c');
    EntriesFit(VEntry(a.first, a'), VEntry(b.first, b'), VEntry(c.first, c'));
  }

  lemma VectorsFit(a: seq<Value>, b: seq<Value>, c: seq<Value>)
    requires a != [] && b != [] && c != [] && KeysFit(a[0], b[0], c[0]) && ItemsFit(a[1..], b[1..], c[1..])
    ensures ItemsFit(a, b, c)
  {
    hide Fits, Then, Compare;
    ThenFits(Compare(a[0], b[0]), Compare(b[0], a[0]), Compare(b[0], c[0]), Compare(a[0], c[0]),
             CompareAll(a[1..], b[1..]), CompareAll(b[1..], a[1..]), CompareAll(b[1..], c[1..]),
                 CompareAll(a[1..], c[1..]));
  }

  lemma OptionsFit(a: Value, b: Value, c: Value)
    requires (a.VNone? || a.VSome?) && (b.VNone? || b.VSome?) && (c.VNone? || c.VSome?)
    requires a.VSome? && b.VSome? ==> KeysFit(a.payload, b.payload, if c.VSome? then c.payload else b.payload)
    ensures KeysFit(a, b, c)
  {
  }

  /** On the values of one type, comparing the other way round flips the result, and comparisons that chain compose. */
  lemma {:induction false} KeyOrder(u: CharClass, t: Ty, a: Value, b: Value, c: Value)
    requires HasType(u, t, a) && HasType(u, t, b) && HasType(u, t, c)
    ensures KeysFit(a, b, c)
    decreases a, 0
  {
    match t
    case TInt | TNat | TBool =>
    case TString => TextOrder(a.s, b.s, c.s);
    case TOption(p) =>
      hide KeysFit;
      if a.VSome? && b.VSome? {
        KeyOrder(u, p, a.payload, b.payload, if c.VSome? then c.payload else b.payload);
      }
      OptionsFit(a, b, c);
    case TVec(i) =>
      hide Fits;
      ItemsOrder(u, i, a.items, b.items, c.items);
    case TMap(k, w) =>
      hide Fits;
      ItemsOrder(u, TEntry(k, w), a.entries, b.entries, c.entries);
    case TEntry(k, w) =>
      hide KeysFit;
      KeyOrder(u, k, a.key, b.key, c.key);
      KeyOrder(u, w, a.value, b.value, c.value);
      EntriesFit(a, b, c);
    case TPair(k, w) =>
      hide KeysFit;
      KeyOrder(u, k, a.first, b.first, c.first);
      KeyOrder(u, w, a.second, b.second, c.second);
      PairsFit(a, b, c);
    case TTriple(x, y, z) =>
      hide KeysFit;
      KeyOrder(u, x, a.first, b.first, c.first);
      KeyOrder(u, y, a.second, b.second, c.second);
      KeyOrder(u, z, a.third, b.third, c.third);
      TriplesFit(a, b, c);
  }

  lemma {:induction false} ItemsOrder(u: CharClass, t: Ty, a: seq<Value>, b: seq<Value>, c: seq<Value>)
    requires forall x :: x in a || x in b || x in c ==> HasType(u, t, x)
    ensures ItemsFit(a, b, c)
    decreases a, 1
  {
    if a != [] && b != [] {
      assert a[0] in a && b[0] in b;
      if c == [] {
        KeyOrder(u, t, a[0], b[0], b[0]);
        ItemsOrder(u, t, a[1..], b[1..], []);
      } else {
        assert c[0] in c;
        KeyOrder(u, t, a[0], b[0], c[0]);
        ItemsOrder(u, t, a[1..], b[1..], c[1..]);
        VectorsFit(a, b, c);
      }
    }
  }

  predicate EntriesHaveType(u: CharClass, t: Ty, es: seq<Value>) {
    t.TEntry? && AllEntries(es) && forall e :: e in es ==> HasType(u, t, e)
  }

  /** Below every key of `es`. */
  predicate Below(k: Value, es: seq<Value>)
    requires AllEntries(es)
  {
    forall i :: 0 <= i < |es| ==> Compare(k, es[i].key) == Less
  }

  /** Below the head and its followers, once below the head. */
  lemma BelowHead(u: CharClass, t: Ty, k: Value, es: seq<Value>)
    requires EntriesHaveType(u, t, es) && Ascending(es) && HasType(u, t.key, k)
    requires es != [] && Compare(k, es[0].key) == Less
    ensures Below(k, es)
  {
    forall i | 0 <= i < |es| ensures Compare(k, es[i].key) == Less {
      assert es[0] in es && es[i] in es;
      KeyOrder(u, t.key, k, es[0].key, es[i].key);
    }
  }

  lemma ConsAscends(e: Value, es: seq<Value>)
    requires AllEntries(es) && Ascending(es) && e.VEntry? && Below(e.key, es)
    ensures AllEntries([e] + es) && Ascending([e] + es)
  {
    var r := [e] + es;
    forall i, j | 0 <= i < j < |r| ensures Compare(r[i].key, r[j].key) == Less {
      assert r[j] == es[j - 1];
      if i > 0 {
        assert r[i] == es[i - 1];
      }
    }
  }

  lemma TailAscends(es: seq<Value>)
    requires AllEntries(es) && Ascending(es) && es != []
    ensures AllEntries(es[1..]) && Ascending(es[1..]) && Below(es[0].key, es[1..])
  {
    assert forall i :: 0 <= i < |es| - 1 ==> es[1..][i] == es[i + 1];
  }

  /** Inserting keeps entries ascending and well typed, and any lower bound of all the keys. */
  lemma {:induction false} InsertKeepsAscending(u: CharClass, t: Ty, es: seq<Value>, e: Value, k: Value)
    requires EntriesHaveType(u, t, es) && Ascending(es) && HasType(u, t, e)
    requires HasType(u, t.key, k)
    ensures EntriesHaveType(u, t, Insert(es, e)) && Ascending(Insert(es, e))
    ensures Below(k, es) && Compare(k, e.key) == Less ==> Below(k, Insert(es, e))
  {
    hide Ascending, Compare, Below;
    if es == [] {
      assert Ascending([e]) && (Compare(k, e.key) == Less ==> Below(k, [e])) by {
        Singleton(e, k);
      }
    } else {
      var h := es[0];
      assert h in es;
      KeyOrder(u, t.key, h.key, e.key, e.key);
      TailAscends(es);
      if Compare(h.key, e.key) == Less {
        InsertKeepsAscending(u, t, es[1..], e, h.key);
        InsertKeepsAscending(u, t, es[1..], e, k);
        ConsAscends(h, Insert(es[1..], e));
        BelowCons(k, h, Insert(es[1..], e), es);
      } else if Compare(h.key, e.key) == Equal {
        var e' := VEntry(h.key, e.value);
        ConsAscends(e', es[1..]);
        BelowCons(k, e', es[1..], es);
      } else {
        BelowHead(u, t, e.key, es);
        ConsAscends(e, es);
        BelowCons(k, e, es, [e]);
      }
    }
  }

  lemma Singleton(e: Value, k: Value)
    requires e.VEntry?
    ensures Ascending([e]) && (Compare(k, e.key) == Less ==> Below(k, [e]))
  {
  }

  /** A lower bound of the tail and of the head is one of the whole; `es` has that head key. */
  lemma BelowCons(k: Value, h: Value, rest: seq<Value>, es: seq<Value>)
    requires h.VEntry? && AllEntries(rest) && AllEntries(es) && es != [] && es[0].key == h.key
    ensures Below(k, es) ==> Compare(k, h.key) == Less && Below(k, es[1..])
    ensures Compare(k, h.key) == Less && Below(k, rest) ==> Below(k, [h] + rest)
  {
    if Below(k, es) {
      forall i | 0 <= i < |es| - 1 ensures Compare(k, es[1..][i].key) == Less {
        assert es[1..][i] == es[i + 1];
      }
    }
  }

  /** Whatever the entries and their order, a collected map is well formed. */
  lemma {:induction false} CollectAscends(u: CharClass, t: Ty, es: seq<Value>)
    requires EntriesHaveType(u, t, es)
    ensures EntriesHaveType(u, t, Collect(es)) && Ascending(Collect(es))
  {
    if es != [] {
      var n := |es| - 1;
      assert es[n] in es;
      CollectAscends(u, t, es[..n]);
      InsertKeepsAscending(u, t, Collect(es[..n]), es[n], es[n].key);
    }
  }

  lemma {:induction false} InsertLast(es: seq<Value>, e: Value)
    requires AllEntries(es) && e.VEntry?
    requires forall i :: 0 <= i < |es| ==> Compare(es[i].key, e.key) == Less
    ensures Insert(es, e) == es + [e]
  {
    if es != [] {
      assert es[0] in es;
      InsertLast(es[1..], e);
    }
  }

  /** Entries that are already in order are collected as they stand. */
  lemma {:induction false} CollectKeepsAscending(es: seq<Value>)
    requires AllEntries(es) && Ascending(es)
    ensures Collect(es) == es
  {
    if es != [] {
      var n := |es| - 1;
      assert es[n] in es;
      CollectKeepsAscending(es[..n]);
      InsertLast(es[..n], es[n]);
      assert es == es[..n] + [es[n]];
    }
  }
}
