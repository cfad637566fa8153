/** The two phases of a collection, as the emitted loops perform them on memory. */
module GcCollect {
  import opened Bytes
  import opened GcHeap

  // ---- What marking means --------------------------------------------------

  /** `w` points into the data of the object at `h`. */
  predicate PointsInto(m: Memory, h: nat, w: nat)
    requires h + 8 <= |m|
  {
    h + 8 <= w < h + SizeAt(m, h)
  }

  /** Some 8-byte stack word in `[bottom, sp)` points into the object at `h`. */
  ghost predicate Hit(m: Memory, h: nat, bottom: nat, sp: nat)
    requires h + 8 <= |m| && sp + 8 <= |m|
  {
    exists a: nat :: bottom <= a < sp && (a - bottom) % 8 == 0 && PointsInto(m, h, LoadDouble(m, a))
  }

  /** Memory after marking: exactly the headers of hit objects gain the mark bit. */
  ghost function Marking(m: Memory, lo: nat, end: nat, bottom: nat, sp: nat): Memory
    requires end <= |m| && Tiled(m, lo, end) && sp + 8 <= |m|
  {
    seq(|m|, i requires 0 <= i < |m| =>
      if i in Objects(m, lo, end) && i + 8 <= |m| && Hit(m, i, bottom, sp) then WithMark(m[i]) else m[i])
  }

  /** The stack lies outside the heap. */
  predicate Apart(lo: nat, end: nat, bottom: nat, top: nat) {
    top <= lo || end <= bottom
  }

  lemma {:induction false} NextObject(m: Memory, lo: nat, end: nat, h: nat)
    requires end <= |m| && Tiled(m, lo, end) && h in Objects(m, lo, end)
    ensures ObjectAt(m, h, end)
    ensures h + SizeAt(m, h) == end || h + SizeAt(m, h) in Objects(m, lo, end)
    ensures Tiled(m, h, end)
    decreases end - lo
  {
    hide SizeAt;
    if h == lo {
      if lo + SizeAt(m, lo) != end {
        assert Objects(m, lo + SizeAt(m, lo), end)[0] == lo + SizeAt(m, lo);
      }
    } else {
      NextObject(m, lo + SizeAt(m, lo), end, h);
    }
  }

  /** Changing first bytes of headers leaves the tiling and all sizes alone. */
  lemma {:induction false} HeaderBytesKeepTiling(m: Memory, n: Memory, lo: nat, end: nat)
    requires end <= |m| == |n| && Tiled(m, lo, end)
    requires forall i :: lo <= i < end && i !in Objects(m, lo, end) ==> n[i] == m[i]
    ensures Tiled(n, lo, end) && Objects(n, lo, end) == Objects(m, lo, end)
    decreases end - lo
  {
    hide SizeAt;
    if lo != end {
      var next := lo + SizeAt(m, lo);
      forall i | lo < i < next ensures n[i] == m[i] {
        if i in Objects(m, lo, end) {
          ObjectsWithin(m, lo, end, i);
        }
      }
      SameSize(m, n, lo);
      forall i | next <= i < end && i !in Objects(m, next, end) ensures n[i] == m[i] {
      }
      HeaderBytesKeepTiling(m, n, next, end);
    }
  }

  lemma MarkingBasics(m: Memory, lo: nat, end: nat, bottom: nat, sp: nat)
    requires end <= |m| && Tiled(m, lo, end) && sp + 8 <= |m|
    ensures var n := Marking(m, lo, end, bottom, sp);
            && |n| == |m|
            && Tiled(n, lo, end) && Objects(n, lo, end) == Objects(m, lo, end)
            && (forall i :: 0 <= i < |m| && !(lo <= i < end) ==> n[i] == m[i])
  {
    var n := Marking(m, lo, end, bottom, sp);
    forall i | 0 <= i < |m| && !(lo <= i < end) ensures n[i] == m[i] {
      if i in Objects(m, lo, end) {
        ObjectsWithin(m, lo, end, i);
      }
    }
    HeaderBytesKeepTiling(m, n, lo, end);
  }

  /** Marking is exact: marked afterwards means marked before or hit; everything else is untouched. */
  lemma MarkingExact(m: Memory, lo: nat, end: nat, bottom: nat, sp: nat, h: nat)
    requires end <= |m| && Tiled(m, lo, end) && sp + 8 <= |m|
    requires h in Objects(m, lo, end)
    ensures var n := Marking(m, lo, end, bottom, sp);
            && |n| == |m| && h + 16 <= |m|
            && (IsMarked(n[h]) <==> IsMarked(m[h]) || Hit(m, h, bottom, sp))
            && SizeAt(n, h) == SizeAt(m, h)
            && ObjectAt(m, h, end)
            && (forall i :: h < i < h + SizeAt(m, h) ==> n[i] == m[i])
  {
    var n := Marking(m, lo, end, bottom, sp);
    ObjectsWithin(m, lo, end, h);
    forall i | h < i < h + SizeAt(m, h) ensures n[i] == m[i] {
      if i in Objects(m, lo, end) {
        ObjectsDisjoint(m, lo, end, h, i);
      }
    }
  }

  // ---- The mark loops ------------------------------------------------------

  /** Headers below `limit` that `w` points into have been marked, nothing else has changed. */
  ghost predicate MarkedUpTo(m: Memory, n: Memory, lo: nat, end: nat, w: nat, limit: nat)
    requires end <= |m| && Tiled(m, lo, end)
  {
    && |n| == |m|
    && forall i :: 0 <= i < |m| ==>
         n[i] == if i in Objects(m, lo, end) && i < limit && i + 8 <= |m| && PointsInto(m, i, w) then WithMark(m[i])
             else m[i]
  }

  lemma MarkedUpToNext(m: Memory, n: Memory, n': Memory, lo: nat, end: nat, w: nat, h: nat)
    requires end <= |m| && Tiled(m, lo, end) && h in Objects(m, lo, end)
    requires MarkedUpTo(m, n, lo, end, w, h)
    requires ObjectAt(m, h, end)
    requires n' == if PointsInto(m, h, w) then n[h := WithMark(n[h])] else n
    ensures MarkedUpTo(m, n', lo, end, w, h + SizeAt(m, h))
  {
    hide SizeAt;
    forall i | 0 <= i < |m|
      ensures n'[i] == if i in Objects(m, lo, end) && i < h + SizeAt(m, h) && i + 8 <= |m| && PointsInto(m, i, w)
                       then WithMark(m[i]) else m[i]
    {
      if i in Objects(m, lo, end) && h < i {
        ObjectsDisjoint(m, lo, end, h, i);
      }
    }
  }

  lemma NothingMarkedBelow(m: Memory, lo: nat, end: nat, w: nat)
    requires end <= |m| && Tiled(m, lo, end)
    ensures MarkedUpTo(m, m, lo, end, w, lo)
    ensures lo == end || lo in Objects(m, lo, end)
  {
    hide SizeAt;
    forall i | i in Objects(m, lo, end) ensures lo <= i {
      ObjectsWithin(m, lo, end, i);
    }
  }

  /** find_loop: walks all objects and marks the one whose data contains `w`, if it is not yet marked. */
  method FindAndMark(mem: array<Byte>, lo: nat, end: nat, w: nat)
    requires lo <= end <= mem.Length && Tiled(mem[..], lo, end)
    modifies mem
    ensures MarkedUpTo(old(mem[..]), mem[..], lo, end, w, end)
  {
    hide SizeAt;
    ghost var m := mem[..];
    var t2 := lo;
    NothingMarkedBelow(m, lo, end, w);
    while t2 < end
      invariant t2 <= end && (t2 == end || t2 in Objects(m, lo, end))
      invariant MarkedUpTo(m, mem[..], lo, end, w, t2)
      decreases end - t2
    {
      ghost var before := mem[..];
      NextObject(m, lo, end, t2);
      SameSize(m, before, t2);
      var t3 := SizeAt(mem[..], t2);
      if t2 + 8 <= w && w < t2 + t3 {
        var bit := AndOne(LoadByte(mem[t2]));
        if bit == 0 {
          mem[t2] := LowByte(OrOne(LoadByte(mem[t2])));
        }
        assert mem[..] == before[t2 := WithMark(before[t2])];
      }
      MarkedUpToNext(m, before, mem[..], lo, end, w, t2);
      t2 := t2 + t3;
    }
  }

  lemma SameDouble(m: Memory, n: Memory, a: nat)
    requires a + 8 <= |m| == |n|
    requires forall i :: a <= i < a + 8 ==> n[i] == m[i]
    ensures LoadDouble(n, a) == LoadDouble(m, a)
  {
  }

  lemma SamePointer(m: Memory, n: Memory, h: nat, w: nat)
    requires h + 8 <= |m| == |n| && SizeAt(n, h) == SizeAt(m, h)
    ensures PointsInto(n, h, w) == PointsInto(m, h, w)
  {
  }

  /** The words at `bottom`, `bottom + 8`, ... below `a`, and then the one at `a`. */
  lemma MarkingNextWord(m: Memory, n: Memory, n': Memory, lo: nat, end: nat, bottom: nat, a: nat)
    requires end <= |m| && Tiled(m, lo, end) && a + 16 <= |m|
    requires bottom <= a && (a - bottom) % 8 == 0 && Apart(lo, end, bottom, a + 16)
    requires n == Marking(m, lo, end, bottom, a)
    requires Tiled(n, lo, end) && MarkedUpTo(n, n', lo, end, LoadDouble(n, a), end)
    ensures n' == Marking(m, lo, end, bottom, a + 8)
  {
    hide SizeAt, LoadDouble, Hit, PointsInto;
    MarkingBasics(m, lo, end, bottom, a);
    SameDouble(m, n, a);
    var target := Marking(m, lo, end, bottom, a + 8);
    forall i | 0 <= i < |m| ensures n'[i] == target[i] {
      if i in Objects(m, lo, end) {
        MarkingExact(m, lo, end, bottom, a, i);
        SamePointer(m, n, i, LoadDouble(m, a));
        HitNext(m, i, bottom, a);
      }
    }
  }

  lemma HitNext(m: Memory, h: nat, bottom: nat, a: nat)
    requires h + 8 <= |m| && a + 16 <= |m| && bottom <= a && (a - bottom) % 8 == 0
    ensures Hit(m, h, bottom, a + 8) <==> Hit(m, h, bottom, a) || PointsInto(m, h, LoadDouble(m, a))
  {
    hide PointsInto, LoadDouble;
    if Hit(m, h, bottom, a + 8) && !PointsInto(m, h, LoadDouble(m, a)) {
      var x: nat :| bottom <= x < a + 8 && (x - bottom) % 8 == 0 && PointsInto(m, h, LoadDouble(m, x));
      assert x != a;
      assert x < a;
    }
  }

  /** scan_loop: every word of the virtual stack that points into the heap marks its object. */
  method MarkFromStack(mem: array<Byte>, lo: nat, end: nat, bottom: nat, sp: nat)
    requires lo <= end <= mem.Length && Tiled(mem[..], lo, end)
    requires bottom + 8 <= mem.Length && sp + 16 <= mem.Length && Apart(lo, end, bottom, sp + 16)
    modifies mem
    ensures Tiled(old(mem[..]), lo, end)
    ensures mem[..] == Marking(old(mem[..]), lo, end, bottom, sp)
  {
    hide Hit, LoadDouble, SizeAt, PointsInto, Marking, MarkedUpTo, Tiled, Objects;
    ghost var m := mem[..];
    var t0 := bottom;
    NothingHit(m, lo, end, bottom);
    while t0 < sp
      invariant bottom <= t0 && (t0 - bottom) % 8 == 0
      invariant t0 < sp + 8 || t0 == bottom
      invariant mem[..] == Marking(m, lo, end, bottom, t0)
    {
      MarkingBasics(m, lo, end, bottom, t0);
      ghost var n := mem[..];
      var t1 := LoadDouble(mem[..], t0);
      if t1 < lo {
        NoObjectAt(n, lo, end, t1);
      } else if t1 >= end {
        NoObjectAt(n, lo, end, t1);
      } else {
        FindAndMark(mem, lo, end, t1);
      }
      MarkingNextWord(m, n, mem[..], lo, end, bottom, t0);
      t0 := t0 + 8;
    }
    LastWord(m, lo, end, bottom, sp, t0);
  }

  lemma NothingHit(m: Memory, lo: nat, end: nat, bottom: nat)
    requires end <= |m| && Tiled(m, lo, end) && bottom + 8 <= |m|
    ensures Marking(m, lo, end, bottom, bottom) == m
  {
    hide PointsInto, LoadDouble;
  }

  lemma NoObjectAt(m: Memory, lo: nat, end: nat, w: nat)
    requires end <= |m| && Tiled(m, lo, end) && !(lo <= w < end)
    ensures MarkedUpTo(m, m, lo, end, w, end)
  {
    hide SizeAt;
    forall i | 0 <= i < |m| && i in Objects(m, lo, end) ensures i + 8 <= |m| && !PointsInto(m, i, w) {
      ObjectsWithin(m, lo, end, i);
    }
  }

  /** The scan may step past `sp`, but reads no word that starts at or after it. */
  lemma LastWord(m: Memory, lo: nat, end: nat, bottom: nat, sp: nat, t0: nat)
    requires end <= |m| && Tiled(m, lo, end) && sp <= t0 && t0 + 8 <= |m|
    requires bottom <= t0 && (t0 - bottom) % 8 == 0
    requires t0 < sp + 8 || t0 == bottom
    ensures Marking(m, lo, end, bottom, t0) == Marking(m, lo, end, bottom, sp)
  {
    hide Hit, SizeAt;
    var n, target := Marking(m, lo, end, bottom, t0), Marking(m, lo, end, bottom, sp);
    forall i | 0 <= i < |m| ensures n[i] == target[i] {
      if i + 8 <= |m| {
        HitLast(m, i, bottom, sp, t0);
      }
    }
  }

  lemma HitLast(m: Memory, h: nat, bottom: nat, sp: nat, t0: nat)
    requires h + 8 <= |m| && sp <= t0 && t0 + 8 <= |m|
    requires bottom <= t0 && (t0 - bottom) % 8 == 0
    requires t0 < sp + 8 || t0 == bottom
    ensures Hit(m, h, bottom, t0) <==> Hit(m, h, bottom, sp)
  {
    hide PointsInto, LoadDouble;
    if Hit(m, h, bottom, t0) {
      var x: nat :| bottom <= x < t0 && (x - bottom) % 8 == 0 && PointsInto(m, h, LoadDouble(m, x));
      assert x < sp;
    }
  }
}
