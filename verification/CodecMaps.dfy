/** Which entries a parsed map has: those of the text, in key order, later ones replacing earlier ones. */
module CodecMaps {
  import opened CodecValues
  import opened CodecOrder
  import opened Codec
  import opened CodecLayout
  import opened CodecRoundTrip

  // ---- Equal keys are the same key -----------------------------------------

  lemma {:induction false} SameText(a: string, b: string)
    ensures CompareText(a, b) == Equal <==> a == b
  {
    if a != "" && b != "" {
      SameText(a[1..], b[1..]);
      assert a == [a[0]] + a[1..] && b == [b[0]] + b[1..];
    }
  }

  /** Within a type, values compare equal only to themselves. */
  lemma {:induction false} SameKey(u: CharClass, t: Ty, a: Value, b: Value)
    requires HasType(u, t, a) && HasType(u, t, b)
    ensures Compare(a, b) == Equal <==> a == b
    decreases a, 0
  {
    match t
    case TInt | TNat | TBool =>
    case TString => SameText(a.s, b.s);
    case TOption(p) =>
      if a.VSome? && b.VSome? {
        SameKey(u, p, a.payload, b.payload);
      }
    case TVec(i) => SameItems(u, i, a.items, b.items);
    case TMap(k, w) => SameItems(u, TEntry(k, w), a.entries, b.entries);
    case TEntry(k, w) =>
      SameKey(u, k, a.key, b.key);
      SameKey(u, w, a.value, b.value);
    case TPair(k, w) =>
      SameKey(u, k, a.first, b.first);
      SameKey(u, w, a.second, b.second);
    case TTriple(x, y, z) =>
      SameKey(u, x, a.first, b.first);
      SameKey(u, y, a.second, b.second);
      SameKey(u, z, a.third, b.third);
  }

  lemma {:induction false} SameItems(u: CharClass, t: Ty, a: seq<Value>, b: seq<Value>)
    requires forall x :: x in a || x in b ==> HasType(u, t, x)
    ensures CompareAll(a, b) == Equal <==> a == b
    decreases a, 1
  {
    if a != [] && b != [] {
      assert a[0] in a && b[0] in b;
      SameKey(u, t, a[0], b[0]);
      SameItems(u, t, a[1..], b[1..]);
      assert a == [a[0]] + a[1..] && b == [b[0]] + b[1..];
    }
  }

  /** Alphabetical order: after a common beginning of `k` characters one text ends, or has the smaller character. */
  predicate ComesBefore(a: string, b: string, k: nat) {
    && k <= |a| && k < |b| && a[..k] == b[..k]
    && (k < |a| ==> a[k] < b[k])
  }

  lemma {:induction false} TextIsAlphabetical(a: string, b: string)
    ensures CompareText(a, b) == Less <==> exists k: nat :: ComesBefore(a, b, k)
  {
    if a == "" || b == "" {
      if b != "" {
        assert ComesBefore(a, b, 0);
      }
    } else {
      TextIsAlphabetical(a[1..], b[1..]);
      if a[0] < b[0] {
        assert ComesBefore(a, b, 0);
      } else if a[0] == b[0] {
        ShiftedBefore(a, b);
      } else {
        forall k: nat ensures !ComesBefore(a, b, k) {
          LargerFirst(a, b, k);
        }
      }
    }
  }

  lemma LargerFirst(a: string, b: string, k: nat)
    requires a != "" && b != "" && a[0] > b[0]
    ensures !ComesBefore(a, b, k)
  {
    if 0 < k <= |a| && k < |b| {
      assert a[..k][0] == a[0] && b[..k][0] == b[0];
    }
  }

  lemma ShiftedBefore(a: string, b: string)
    requires a != "" && b != "" && a[0] == b[0]
    ensures (exists k: nat :: ComesBefore(a[1..], b[1..], k)) <==> (exists k: nat :: ComesBefore(a, b, k))
  {
    if k: nat :| ComesBefore(a[1..], b[1..], k) {
      assert a[..k + 1] == [a[0]] + a[1..][..k] && b[..k + 1] == [b[0]] + b[1..][..k];
      assert ComesBefore(a, b, k + 1);
    }
    if k: nat :| ComesBefore(a, b, k) {
      assert k > 0;
      assert a[1..][..k - 1] == a[..k][1..] && b[1..][..k - 1] == b[..k][1..];
      assert ComesBefore(a[1..], b[1..], k - 1);
    }
  }

  /** The keys of a map in ascending order: integers by size, names alphabetically. */
  lemma KeysAscend(u: CharClass, t: Ty, es: seq<Value>, i: nat, j: nat)
    requires EntriesHaveType(u, t, es) && Ascending(es) && i < j < |es|
    ensures t.key == TInt ==> es[i].key.VInt? && es[j].key.VInt? && es[i].key.n < es[j].key.n
    ensures t.key == TString ==>
              es[i].key.VString? && es[j].key.VString? && exists k: nat :: ComesBefore(es[i].key.s, es[j].key.s, k)
  {
    assert es[i] in es && es[j] in es;
    assert HasType(u, t.key, es[i].key) && HasType(u, t.key, es[j].key);
    if t.key == TString {
      TextIsAlphabetical(es[i].key.s, es[j].key.s);
    }
  }

  // ---- What is collected -----------------------------------------------------

  /** An entry that no later entry under the same key replaces. */
  ghost predicate Survives(es: seq<Value>, e: Value)
    requires AllEntries(es)
  {
    exists i :: 0 <= i < |es| && es[i] == e && forall j :: i < j < |es| ==> es[j].key != e.key
  }

  ghost predicate HasKey(es: seq<Value>, k: Value)
    requires AllEntries(es)
  {
    exists e :: e in es && e.key == k
  }

  lemma {:induction false} InsertReplaces(u: CharClass, t: Ty, es: seq<Value>, e: Value, x: Value)
    requires EntriesHaveType(u, t, es) && Ascending(es) && HasType(u, t, e)
    ensures x in Insert(es, e) <==> x == e || (x in es && x.key != e.key)
  {
    hide Compare, Below;
    if es != [] {
      var h := es[0];
      assert h in es && es == [h] + es[1..];
      SameKey(u, t.key, h.key, e.key);
      TailAscends(es);
      if Compare(h.key, e.key) == Less {
        InsertReplaces(u, t, es[1..], e, x);
      } else if Compare(h.key, e.key) == Equal {
        BelowDiffers(u, t, h.key, es[1..], x);
      } else {
        KeyOrder(u, t.key, h.key, e.key, e.key);
        BelowHead(u, t, e.key, es);
        BelowDiffers(u, t, e.key, es, x);
      }
    }
  }

  lemma BelowDiffers(u: CharClass, t: Ty, k: Value, es: seq<Value>, x: Value)
    requires EntriesHaveType(u, t, es) && HasType(u, t.key, k) && Below(k, es)
    ensures x in es ==> x.key != k
  {
    if x in es {
      SameKey(u, t.key, k, x.key);
    }
  }

  lemma OneMoreSurvivor(es: seq<Value>, x: Value)
    requires AllEntries(es) && es != []
    ensures AllEntries(es[..|es| - 1])
    ensures var last := es[|es| - 1];
            Survives(es, x) <==> x == last || (Survives(es[..|es| - 1], x) && x.key != last.key)
  {
    var n := |es| - 1;
    if Survives(es, x) && x != es[n] {
      var i :| 0 <= i < |es| && es[i] == x && forall j :: i < j < |es| ==> es[j].key != x.key;
      assert es[..n][i] == x;
    }
    if Survives(es[..n], x) && x.key != es[n].key {
      var i :| 0 <= i < n && es[..n][i] == x && forall j :: i < j < n ==> es[..n][j].key != x.key;
      forall j | i < j < |es| ensures es[j].key != x.key {
        if j < n {
          assert es[..n][j] == es[j];
        }
      }
      assert es[i] == x;
    }
  }

  /**
   * A collected map has exactly the entries that survive: no key of the list is missing, none is added, and each has
   * the value it was given last.
   */
  lemma {:induction false} CollectSurvivors(u: CharClass, t: Ty, es: seq<Value>, x: Value)
    requires EntriesHaveType(u, t, es)
    ensures x in Collect(es) <==> Survives(es, x)
  {
    if es != [] {
      var n := |es| - 1;
      assert es[n] in es;
      CollectAscends(u, t, es[..n]);
      CollectSurvivors(u, t, es[..n], x);
      InsertReplaces(u, t, Collect(es[..n]), es[n], x);
      hide Survives, Ascending;
      OneMoreSurvivor(es, x);
    }
  }

  /** Every key of the list survives, with the value of its last entry. */
  lemma {:induction false} LastValue(es: seq<Value>, k: Value) returns (e: Value)
    requires AllEntries(es) && HasKey(es, k)
    ensures Survives(es, e) && e.key == k
  {
    var n := |es| - 1;
    assert es[n] in es;
    if es[n].key == k {
      e := es[n];
    } else {
      var d :| d in es && d.key == k;
      assert d in es[..n];
      e := LastValue(es[..n], k);
    }
    OneMoreSurvivor(es, e);
  }

  // ---- What is parsed ----------------------------------------------------------

  /** In key order, `entries` are those of `given` that survive, and no key is missing. */
  ghost predicate HoldsEntries(entries: seq<Value>, given: seq<Value>) {
    && AllEntries(entries) && AllEntries(given) && Ascending(entries)
    && (forall e :: e in entries <==> Survives(given, e))
    && (forall k :: HasKey(entries, k) <==> HasKey(given, k))
  }

  lemma CollectHolds(u: CharClass, t: Ty, es: seq<Value>)
    requires EntriesHaveType(u, t, es)
    ensures HoldsEntries(Collect(es), es)
  {
    CollectAscends(u, t, es);
    forall e ensures e in Collect(es) <==> Survives(es, e) {
      CollectSurvivors(u, t, es, e);
    }
    forall k ensures HasKey(Collect(es), k) <==> HasKey(es, k) {
      if HasKey(es, k) {
        var e := LastValue(es, k);
        assert e in Collect(es) && e.key == k;
      }
    }
  }

  /** Whatever text was accepted as a map, the map holds the entries read between its brackets. */
  lemma ParsedMapHolds(u: CharClass, k: Ty, w: Ty, s: string)
    requires Parse(u, TMap(k, w), s).Done?
    ensures Parse(u, TMap(k, w), s).value.VMap?
    ensures ParseBrackets(u, TEntry(k, w), '{', '}', s).Done?
    ensures HoldsEntries(Parse(u, TMap(k, w), s).value.entries, ParseBrackets(u, TEntry(k, w), '{', '}', s).value)
  {
    hide HasType, Canonical, Collect, ParseBrackets, HoldsEntries;
    BracketsSound(u, TEntry(k, w), '{', '}', s);
    var es := ParseBrackets(u, TEntry(k, w), '{', '}', s).value;
    forall e | e in es ensures HasType(u, TEntry(k, w), e) {
      assert Sound(u, TEntry(k, w), e);
    }
    CollectHolds(u, TEntry(k, w), es);
  }

  /** A map written down with its entries in any order, keys repeated or not, is read with all of them. */
  lemma MapTextReads(u: CharClass, k: Ty, w: Ty, es: seq<Value>, suffix: string)
    requires Faithful(u) && EntriesHaveType(u, TEntry(k, w), es) && forall e :: e in es ==> Canonical(e)
    ensures var r := Parse(u, TMap(k, w), Flat(VMap(es)) + suffix);
            r.Done? && r.rest == SkipWs(suffix) && r.value.VMap? && HoldsEntries(r.value.entries, es)
  {
    hide Faithful, FlatItems, ParseBrackets, Collect, HoldsEntries, HasType, Canonical;
    BracketsRead(u, TEntry(k, w), es, '{', '}', suffix);
    BracketShape('{', '}', FlatItems(es), suffix);
    assert "{}" == ['{', '}'] && "{ " == ['{', ' '] && "}" == ['}'];
    CollectHolds(u, TEntry(k, w), es);
  }
}
