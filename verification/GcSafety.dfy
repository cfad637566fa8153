/** What a collection keeps, told by the addresses on the virtual stack. */
module GcSafety {
  import opened Wrappers
  import opened Bytes
  import opened GcHeap
  import opened GcCollect
  import opened GcRuntime

  /** One of the 8-byte slots from `bottom` up to `sp` holds an address inside the data of the object at `o`. */
  ghost predicate Rooted(m: Memory, bottom: nat, sp: nat, o: nat)
    requires o + 8 <= |m| && sp + 8 <= |m|
  {
    exists k: nat :: SlotPoints(m, bottom, sp, o, k)
  }

  predicate SlotPoints(m: Memory, bottom: nat, sp: nat, o: nat, k: nat)
    requires o + 8 <= |m| && sp + 8 <= |m|
  {
    bottom + 8 * k < sp && o + 8 <= LoadDouble(m, bottom + 8 * k) < o + SizeAt(m, o)
  }

  lemma RootedIsHit(m: Memory, bottom: nat, sp: nat, o: nat)
    requires o + 8 <= |m| && sp + 8 <= |m|
    ensures Rooted(m, bottom, sp, o) <==> Hit(m, o, bottom, sp)
  {
    hide LoadDouble, SizeAt;
    if k: nat :| SlotPoints(m, bottom, sp, o, k) {
      var a := bottom + 8 * k;
      assert (a - bottom) % 8 == 0;
      assert PointsInto(m, o, LoadDouble(m, a));
    }
    if a: nat :| bottom <= a < sp && (a - bottom) % 8 == 0 && PointsInto(m, o, LoadDouble(m, a)) {
      var k: nat := (a - bottom) / 8;
      assert a == bottom + 8 * k;
      assert SlotPoints(m, bottom, sp, o, k);
    }
  }

  /** The object at `o'` of `n` has the size and all bytes but the first of the object at `o` of `m`. */
  ghost predicate SameObject(m: Memory, o: nat, n: Memory, o': nat)
    requires o + 8 <= |m| && o' + 8 <= |n|
  {
    var size := SizeAt(m, o);
    && SizeAt(n, o') == size && 16 <= size && o + size <= |m| && o' + size <= |n|
    && n[o' + 1..o' + size] == m[o + 1..o + size]
  }

  lemma {:induction false} SurvivorIn(m: Memory, a: nat, end: nat, bottom: nat, sp: nat, o: nat)
    requires end <= |m| && Tiled(m, a, end) && sp + 8 <= |m| && o in Objects(m, a, end)
    ensures ObjectAt(m, o, end)
    ensures IsMarked(m[o]) || Hit(m, o, bottom, sp) ==>
              ImageAt(m, o, end)[0 := WithoutMark(m[o])] in Survivors(m, a, end, bottom, sp)
    decreases end - a
  {
    hide SizeAt, Hit, IsMarked, WithoutMark;
    if o != a {
      SurvivorIn(m, a + SizeAt(m, a), end, bottom, sp, o);
    }
  }

  lemma {:induction false} SurvivorFrom(m: Memory, a: nat, end: nat, bottom: nat, sp: nat, image: Memory)
    returns (o: nat)
    requires end <= |m| && Tiled(m, a, end) && sp + 8 <= |m| && image in Survivors(m, a, end, bottom, sp)
    ensures o in Objects(m, a, end) && ObjectAt(m, o, end) && (IsMarked(m[o]) || Hit(m, o, bottom, sp))
    ensures image == ImageAt(m, o, end)[0 := WithoutMark(m[o])]
    decreases end - a
  {
    hide SizeAt, Hit, IsMarked, WithoutMark;
    var next := a + SizeAt(m, a);
    if image in Survivors(m, next, end, bottom, sp) {
      o := SurvivorFrom(m, next, end, bottom, sp, image);
    } else {
      o := a;
    }
  }

  lemma {:induction false} ImageOfSome(m: Memory, a: nat, end: nat, image: Memory) returns (o: nat)
    requires end <= |m| && Tiled(m, a, end) && image in Images(m, a, end)
    ensures o in Objects(m, a, end) && ObjectAt(m, o, end) && ImageAt(m, o, end) == image
    decreases end - a
  {
    hide SizeAt;
    var next := a + SizeAt(m, a);
    if image in Images(m, next, end) {
      o := ImageOfSome(m, next, end, image);
    } else {
      o := a;
    }
  }

  lemma {:induction false} ImageOfObject(m: Memory, a: nat, end: nat, o: nat)
    requires end <= |m| && Tiled(m, a, end) && o in Objects(m, a, end)
    ensures ObjectAt(m, o, end) && ImageAt(m, o, end) in Images(m, a, end)
    decreases end - a
  {
    hide SizeAt;
    if o != a {
      ImageOfObject(m, a + SizeAt(m, a), end, o);
    }
  }

  lemma SameImage(m: Memory, o: nat, end: nat, n: Memory, o': nat, end': nat)
    requires end <= |m| && end' <= |n| && ObjectAt(m, o, end) && ObjectAt(n, o', end')
    requires ImageAt(n, o', end') == ImageAt(m, o, end)[0 := WithoutMark(m[o])]
    ensures SameObject(m, o, n, o')
  {
    hide WithoutMark;
    var size := SizeAt(m, o);
    assert |ImageAt(n, o', end')| == SizeAt(n, o') == size;
    assert n[o' + 1..o' + size] == ImageAt(n, o', end')[1..];
    assert m[o + 1..o + size] == ImageAt(m, o, end)[1..];
  }

  /** An object the stack points into, or marked before, is still there after a collection, with the same contents. */
  lemma RootedSurvives(lay: Layout, h: Heap, vmSp: nat, h': Heap, o: nat) returns (o': nat)
    requires WellFormed(lay, h) && vmSp <= lay.stackTop && IsCollected(lay, h, vmSp, h')
    requires o in Objects(h.mem, lay.heapStart, h.bump) && o + 8 <= |h.mem|
    requires IsMarked(h.mem[o]) || Rooted(h.mem, lay.stackBottom, vmSp, o)
    ensures o' in Objects(h'.mem, lay.heapStart, h'.bump) && o' + 8 <= |h'.mem|
    ensures SameObject(h.mem, o, h'.mem, o')
  {
    hide SizeAt, Hit, Rooted, IsMarked, Survivors, Images, Objects, SameObject, ImageAt;
    RootedIsHit(h.mem, lay.stackBottom, vmSp, o);
    SurvivorIn(h.mem, lay.heapStart, h.bump, lay.stackBottom, vmSp, o);
    var image := ImageAt(h.mem, o, h.bump)[0 := WithoutMark(h.mem[o])];
    o' := ImageOfSome(h'.mem, lay.heapStart, h'.bump, image);
    SameImage(h.mem, o, h.bump, h'.mem, o', h'.bump);
  }

  /** And nothing else is: every object after a collection is one of those. */
  lemma OnlyRootedSurvive(lay: Layout, h: Heap, vmSp: nat, h': Heap, o': nat) returns (o: nat)
    requires WellFormed(lay, h) && vmSp <= lay.stackTop && IsCollected(lay, h, vmSp, h')
    requires o' in Objects(h'.mem, lay.heapStart, h'.bump) && o' + 8 <= |h'.mem|
    ensures o in Objects(h.mem, lay.heapStart, h.bump) && o + 8 <= |h.mem|
    ensures IsMarked(h.mem[o]) || Rooted(h.mem, lay.stackBottom, vmSp, o)
    ensures SameObject(h.mem, o, h'.mem, o')
  {
    hide SizeAt, Hit, Rooted, IsMarked, Survivors, Images, Objects, SameObject, ImageAt;
    ImageOfObject(h'.mem, lay.heapStart, h'.bump, o');
    var image := ImageAt(h'.mem, o', h'.bump);
    o := SurvivorFrom(h.mem, lay.heapStart, h.bump, lay.stackBottom, vmSp, image);
    RootedIsHit(h.mem, lay.stackBottom, vmSp, o);
    SameImage(h.mem, o, h.bump, h'.mem, o', h'.bump);
  }

  /** The object an allocation appends. */
  lemma AllocatedObject(lay: Layout, h: Heap, size: nat)
    requires WellFormed(lay, h) && NoWrap(h, size) && Allocate(lay, h, size).1.Some?
    ensures var (h1, p) := Allocate(lay, h, size);
            && WellFormed(lay, h1) && p == Some(h.bump + 8) && h.bump + 8 <= |h1.mem|
            && h.bump in Objects(h1.mem, lay.heapStart, h1.bump) && 8 + size <= SizeAt(h1.mem, h.bump)
  {
    hide StoreWord, Tiled, SizeAt, Objects, Add64, AndMinusSixteen;
    AllocateExact(lay, h, size);
    TotalSizeRounds(size);
  }

  /**
   * A payload that has just been allocated keeps its bytes through the next collection if some stack slot holds an
   * address inside it.
   */
  lemma PayloadSurvives(lay: Layout, h: Heap, size: nat, vmSp: nat, k: nat) returns (q: nat)
    requires WellFormed(lay, h) && NoWrap(h, size) && Allocate(lay, h, size).1.Some? && 0 < vmSp <= lay.stackTop
    requires lay.stackBottom + 8 * k < vmSp
    requires var (h1, p) := Allocate(lay, h, size);
             vmSp + 8 <= |h1.mem| && p.value <= LoadDouble(h1.mem, lay.stackBottom + 8 * k) < p.value + size
    ensures var (h1, p) := Allocate(lay, h, size);
            && WellFormed(lay, h1) && p.value + size <= |h1.mem|
            && var h2 := Collect(lay, h1, vmSp);
            && q + size <= |h2.mem| && h2.mem[q..q + size] == h1.mem[p.value..p.value + size]
  {
    hide LoadDouble, Survivors, Images, Tiled, Collect, Allocate, SameObject, Objects, SizeAt;
    AllocatedObject(lay, h, size);
    var (h1, p) := Allocate(lay, h, size);
    q := SlotKeepsData(lay, h1, vmSp, h.bump, size, k);
  }

  lemma SlotKeepsData(lay: Layout, h: Heap, vmSp: nat, o: nat, size: nat, k: nat) returns (q: nat)
    requires WellFormed(lay, h) && 0 < vmSp <= lay.stackTop && lay.stackBottom + 8 * k < vmSp
    requires o in Objects(h.mem, lay.heapStart, h.bump) && o + 8 <= |h.mem| && 8 + size <= SizeAt(h.mem, o)
    requires o + 8 <= LoadDouble(h.mem, lay.stackBottom + 8 * k) < o + 8 + size
    ensures var h' := Collect(lay, h, vmSp);
            && o + 8 + size <= |h.mem| && q + size <= |h'.mem|
            && h'.mem[q..q + size] == h.mem[o + 8..o + 8 + size]
  {
    hide LoadDouble, Survivors, Images, Tiled, Collect, SameObject, Objects, SizeAt;
    CollectExact(lay, h, vmSp);
    assert SlotPoints(h.mem, lay.stackBottom, vmSp, o, k);
    var o' := RootedSurvives(lay, h, vmSp, Collect(lay, h, vmSp), o);
    q := o' + 8;
    SameData(h.mem, o, Collect(lay, h, vmSp).mem, o', size);
  }

  lemma SameData(m: Memory, o: nat, n: Memory, o': nat, size: nat)
    requires o + 8 <= |m| && o' + 8 <= |n| && SameObject(m, o, n, o') && 8 + size <= SizeAt(m, o)
    ensures o' + 8 + size <= |n| && o + 8 + size <= |m|
    ensures n[o' + 8..o' + 8 + size] == m[o + 8..o + 8 + size]
  {
    hide SizeAt;
    var total := SizeAt(m, o);
    SliceOfSlice(n, o' + 1, o' + total, size);
    SliceOfSlice(m, o + 1, o + total, size);
  }

  lemma SliceOfSlice(m: Memory, a: nat, b: nat, size: nat)
    requires a + 7 + size <= b <= |m|
    ensures m[a..b][7..7 + size] == m[a + 7..a + 7 + size]
  {
    var s := m[a..b];
    var x, y := s[7..7 + size], m[a + 7..a + 7 + size];
    forall i | 0 <= i < size ensures x[i] == y[i] {
      assert s[7 + i] == m[a + (7 + i)];
    }
    assert x == y;
  }
}
