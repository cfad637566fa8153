/** The emitted RISC-V runtime: bump allocation, collection, safepoints, and what every run of them keeps. */
module GcRuntime {
  import opened Arithmetic
  import opened Wrappers
  import opened Bytes
  import opened GcHeap
  import opened GcCollect

  function Add64(x: nat, y: nat): nat {
    (x + y) % TWO_64
  }

  function Sub64(x: nat, y: nat): nat {
    (x - y) % TWO_64
  }

  /** ANDI with -16. */
  function AndMinusSixteen(x: nat): nat {
    x - x % 16
  }

  function Signed64(x: nat): int {
    if x < TWO_64 / 2 then x else x - TWO_64
  }

  // ---- State ---------------------------------------------------------------

  /** Where the start-up code placed the heap and the virtual stack. */
  datatype Layout = Layout(heapStart: nat, heapLimit: nat, stackBottom: nat, stackTop: nat) {
    predicate Fits(length: nat) {
      && heapStart < heapLimit <= length < TWO_64
      && heapLimit - heapStart < 0x8000_0000 && (heapLimit - heapStart) % 16 == 0
      && stackBottom + 8 <= stackTop + 16 <= length
      && Apart(heapStart, heapLimit, stackBottom, stackTop + 16)
    }
  }

  datatype Heap = Heap(mem: Memory, bump: nat, allocCount: nat, threshold: nat)

  ghost predicate WellFormed(lay: Layout, h: Heap) {
    && lay.Fits(|h.mem|)
    && lay.heapStart <= h.bump < lay.heapLimit && (h.bump - lay.heapStart) % 16 == 0
    && Tiled(h.mem, lay.heapStart, h.bump)
  }

  lemma {:induction false} TiledLength(m: Memory, a: nat, end: nat)
    requires a <= end <= |m| && Tiled(m, a, end)
    ensures (end - a) % 16 == 0
    decreases end - a
  {
    hide SizeAt;
    if a != end {
      TiledLength(m, a + SizeAt(m, a), end);
    }
  }

  // ---- Allocation ----------------------------------------------------------

  /** Header and data, rounded up to a multiple of 16, in 64-bit arithmetic. */
  function TotalSize(size: nat): nat {
    AndMinusSixteen(Add64(Add64(8, size), 15))
  }

  /** Whatever the size, the next header lies below the limit. */
  lemma HeaderFits(lay: Layout, h: Heap)
    requires WellFormed(lay, h)
    ensures h.bump + 16 <= lay.heapLimit <= |h.mem|
  {
    var used, all := (h.bump - lay.heapStart) / 16, (lay.heapLimit - lay.heapStart) / 16;
    assert h.bump == lay.heapStart + 16 * used && lay.heapLimit == lay.heapStart + 16 * all;
  }

  /** One attempt at allocation; None is the overflow branch. */
  ghost function Allocate(lay: Layout, h: Heap, size: nat): (Heap, Option<nat>)
    requires WellFormed(lay, h)
  {
    var newBump := Add64(h.bump, TotalSize(size));
    HeaderFits(lay, h);
    if newBump >= lay.heapLimit then (h, None)
    else
      (Heap(StoreWord(h.mem, h.bump + 4, TotalSize(size)), newBump, Add64(h.allocCount, 1), h.threshold),
          Some(h.bump + 8))
  }

  /** Neither the rounded size nor the new bump pointer leaves 64 bits. */
  predicate NoWrap(h: Heap, size: nat) {
    size + 23 < TWO_64 && h.bump + AndMinusSixteen(size + 23) < TWO_64
  }

  lemma TotalSizeRounds(size: nat)
    requires size + 23 < TWO_64
    ensures TotalSize(size) == AndMinusSixteen(size + 23)
    ensures TotalSize(size) % 16 == 0 && 16 <= TotalSize(size) && size + 8 <= TotalSize(size) < size + 8 + 16
  {
    var x := size + 23;
    assert Add64(Add64(8, size), 15) == x;
    hide Add64;
    assert x == 16 * (x / 16) + x % 16;
    DivModUnique(x - x % 16, 16, x / 16, 0);
  }

  lemma SumOfSixteens(a: int, b: int)
    requires a % 16 == 0 && b % 16 == 0
    ensures (a + b) % 16 == 0
  {
    DivModUnique(a + b, 16, a / 16 + b / 16, 0);
  }

  lemma TotalFits(size: nat)
    ensures TotalSize(size) < TWO_64
  {
  }

  /** Without wrap-around an attempt either changes nothing or appends exactly one object. */
  lemma AllocateExact(lay: Layout, h: Heap, size: nat)
    requires WellFormed(lay, h) && NoWrap(h, size)
    ensures var (h', p) := Allocate(lay, h, size);
            if h.bump + TotalSize(size) >= lay.heapLimit then h' == h && p == None
            else
              && WellFormed(lay, h')
              && p == Some(h.bump + 8) && h.bump + 8 + size <= h'.bump
              && h'.bump == h.bump + TotalSize(size) < h.bump + 8 + size + 16
              && h'.allocCount == (h.allocCount + 1) % TWO_64 && h'.threshold == h.threshold
              && Objects(h'.mem, lay.heapStart, h'.bump) == Objects(h.mem, lay.heapStart, h.bump) + [h.bump]
              && SizeAt(h'.mem, h.bump) == TotalSize(size)
              && (forall i :: 0 <= i < |h.mem| && !(h.bump + 4 <= i < h.bump + 8) ==> h'.mem[i] == h.mem[i])
  {
    hide TotalSize, Word32, StoreWord, AndMinusSixteen, Images, LiveImages;
    var (h', p) := Allocate(lay, h, size);
    assert Add64(h.allocCount, 1) == (h.allocCount + 1) % TWO_64;
    hide Add64;
    TotalSizeRounds(size);
    Add64Cases(h.bump, TotalSize(size));
    if p.Some? {
      var total := TotalSize(size);
      SumOfSixteens(h.bump - lay.heapStart, total);
      assert h'.bump - lay.heapStart == h.bump - lay.heapStart + total;
      StoreThenLoad(h.mem, h.bump + 4, total);
      assert SizeAt(h'.mem, h.bump) == total;
      TilingDependsOnBytes(h.mem, h'.mem, lay.heapStart, h.bump);
      TilingExtends(h'.mem, lay.heapStart, h.bump, h'.bump);
    }
  }

  /** The returned payload lies inside its own object and meets no other object. */
  lemma PayloadIsolated(lay: Layout, h: Heap, size: nat, other: nat)
    requires WellFormed(lay, h) && NoWrap(h, size)
    requires Allocate(lay, h, size).1.Some?
    ensures var (h', p) := Allocate(lay, h, size);
            && WellFormed(lay, h')
            && h.bump + 8 == p.value && p.value + size <= h.bump + TotalSize(size)
            && (other in Objects(h'.mem, lay.heapStart, h'.bump) && other != h.bump ==>
                  ObjectAt(h'.mem, other, h'.bump) && other + SizeAt(h'.mem, other) <= h.bump)
  {
    AllocateExact(lay, h, size);
    var h' := Allocate(lay, h, size).0;
    if other in Objects(h'.mem, lay.heapStart, h'.bump) && other != h.bump {
      ObjectsWithin(h.mem, lay.heapStart, h.bump, other);
      ObjectsDisjoint(h'.mem, lay.heapStart, h'.bump, other, h.bump);
    }
  }

  /** A successful attempt serves the requested bytes exactly when its 64-bit arithmetic does not wrap around. */
  lemma AllocateServesIff(lay: Layout, h: Heap, size: nat)
    requires WellFormed(lay, h) && size < TWO_64
    requires Allocate(lay, h, size).1.Some?
    ensures Allocate(lay, h, size).1.value + size <= Allocate(lay, h, size).0.bump <==> NoWrap(h, size)
  {
    hide StoreWord, TotalSize, Add64, Tiled;
    ServesArithmetic(h.bump, size);
  }

  lemma ServesArithmetic(bump: nat, size: nat)
    requires bump + 16 < TWO_64 && size < TWO_64
    ensures bump + 8 + size <= Add64(bump, TotalSize(size)) <==>
            (size + 23 < TWO_64 && bump + AndMinusSixteen(size + 23) < TWO_64)
  {
    var total := TotalSize(size);
    if size + 23 < TWO_64 {
      TotalSizeRounds(size);
      Add64Cases(bump, total);
    } else {
      Add64Cases(8, size);
      Add64Cases(Add64(8, size), 15);
      assert total <= 16;
      Add64Cases(bump, total);
    }
  }

  lemma Add64Cases(x: nat, y: nat)
    requires x < TWO_64 && y < TWO_64
    ensures Add64(x, y) == if x + y < TWO_64 then x + y else x + y - TWO_64
  {
  }

  /** The condition matters: a request of 2^64 - 32 bytes takes the success branch and moves the bump pointer back. */
  lemma WrappingRequestShrinksHeap(lay: Layout, h: Heap)
    requires WellFormed(lay, h) && h.bump >= 16
    ensures var (h', p) := Allocate(lay, h, TWO_64 - 32);
            p.Some? && h'.bump == h.bump - 16
  {
    hide Tiled, StoreWord;
    assert TotalSize(TWO_64 - 32) == TWO_64 - 16;
  }

  // ---- Collection ----------------------------------------------------------

  /** Memory and bump pointer after sliding the live objects of `[lo, end)` down. */
  function Compacted(m: Memory, lo: nat, end: nat): (r: (Memory, nat))
    requires lo <= end <= |m| && Tiled(m, lo, end)
    ensures |r.0| == |m| && lo <= r.1 <= end
  {
    var live := Flatten(LiveImages(m, lo, end));
    LiveImagesWellFormed(m, lo, end);
    (m[..lo] + live + m[lo + |live|..], lo + |live|)
  }

  /** A whole collection; a stack pointer of zero skips it. */
  ghost function Collect(lay: Layout, h: Heap, vmSp: nat): Heap
    requires WellFormed(lay, h) && vmSp <= lay.stackTop
  {
    if vmSp == 0 then h
    else
      var marked := Marking(h.mem, lay.heapStart, h.bump, lay.stackBottom, vmSp);
      MarkingBasics(h.mem, lay.heapStart, h.bump, lay.stackBottom, vmSp);
      var (mem, bump) := Compacted(marked, lay.heapStart, h.bump);
      Heap(mem, bump, 0, h.threshold)
  }

  /** The images of the objects that are marked already or hit from the stack, mark bits cleared, in address order. */
  ghost function Survivors(m: Memory, a: nat, end: nat, bottom: nat, sp: nat): seq<Memory>
    requires end <= |m| && Tiled(m, a, end) && sp + 8 <= |m|
    decreases end - a
  {
    if a == end then []
    else
      var rest := Survivors(m, a + SizeAt(m, a), end, bottom, sp);
      if IsMarked(m[a]) || Hit(m, a, bottom, sp) then [ImageAt(m, a, end)[0 := WithoutMark(m[a])]] + rest else rest
  }

  /** From `a` on, marking and then selecting the marked objects selects the survivors. */
  lemma {:induction false} MarkedAreSurvivors(m: Memory, lo: nat, a: nat, end: nat, bottom: nat, sp: nat)
    requires lo <= end <= |m| && Tiled(m, lo, end) && sp + 8 <= |m|
    requires a == end || a in Objects(m, lo, end)
    ensures Tiled(m, a, end) && Tiled(Marking(m, lo, end, bottom, sp), a, end)
    ensures LiveImages(Marking(m, lo, end, bottom, sp), a, end) == Survivors(m, a, end, bottom, sp)
    decreases end - a
  {
    hide SizeAt, Hit, Marking;
    var n := Marking(m, lo, end, bottom, sp);
    MarkingBasics(m, lo, end, bottom, sp);
    if a != end {
      ObjectsWithin(m, lo, end, a);
      NextObject(m, lo, end, a);
      MarkingExact(m, lo, end, bottom, sp, a);
      MarkedAreSurvivors(m, lo, a + SizeAt(m, a), end, bottom, sp);
      if IsMarked(n[a]) {
        HeaderCleared(m, lo, end, bottom, sp, a);
        assert ImageAt(n, a, end)[0 := WithoutMark(n[a])] == ImageAt(m, a, end)[0 := WithoutMark(m[a])];
      }
    }
  }

  lemma HeaderCleared(m: Memory, lo: nat, end: nat, bottom: nat, sp: nat, h: nat)
    requires end <= |m| && Tiled(m, lo, end) && sp + 8 <= |m| && h < |m|
    ensures |Marking(m, lo, end, bottom, sp)| == |m|
    ensures WithoutMark(Marking(m, lo, end, bottom, sp)[h]) == WithoutMark(m[h])
  {
    hide SizeAt, Hit;
    UnmarkMark(m[h]);
  }

  lemma UnmarkMark(b: Byte)
    ensures WithoutMark(WithMark(b)) == WithoutMark(b)
  {
    ByteArithmetic(b);
    ByteArithmetic(WithMark(b));
  }

  /**
   * A collection leaves exactly the survivors, in address order, each changed only in its mark bit; the bytes
   * outside the old heap are untouched, and the heap is again a tiling.
   */
  lemma CollectExact(lay: Layout, h: Heap, vmSp: nat)
    requires WellFormed(lay, h) && 0 < vmSp <= lay.stackTop
    ensures var h' := Collect(lay, h, vmSp);
            && WellFormed(lay, h') && |h'.mem| == |h.mem| && h'.bump <= h.bump
            && h'.allocCount == 0 && h'.threshold == h.threshold
            && Images(h'.mem, lay.heapStart, h'.bump) == Survivors(h.mem, lay.heapStart, h.bump, lay.stackBottom, vmSp)
            && (forall i :: 0 <= i < |h.mem| && !(lay.heapStart <= i < h.bump) ==> h'.mem[i] == h.mem[i])
  {
    hide SizeAt, Hit, Marking, Survivors, LiveImages, Flatten, Images, Objects;
    var lo := lay.heapStart;
    var marked := Marking(h.mem, lo, h.bump, lay.stackBottom, vmSp);
    MarkingBasics(h.mem, lo, h.bump, lay.stackBottom, vmSp);
    NothingMarkedBelow(h.mem, lo, h.bump, 0);
    MarkedAreSurvivors(h.mem, lo, lo, h.bump, lay.stackBottom, vmSp);
    var images := LiveImages(marked, lo, h.bump);
    LiveImagesWellFormed(marked, lo, h.bump);
    var h' := Collect(lay, h, vmSp);
    var live := Flatten(images);
    assert h'.mem[lo..lo + |live|] == live;
    LaidOutIsTiled(h'.mem, lo, images);
    TiledLength(h'.mem, lo, h'.bump);
    forall i | 0 <= i < |h.mem| && !(lo <= i < h.bump) ensures h'.mem[i] == h.mem[i] {
      assert h'.mem[i] == marked[i];
    }
  }

  /** A safepoint collects when the allocation count, read as a signed number, has reached the threshold. */
  ghost function Safepoint(lay: Layout, h: Heap, vmSp: nat): Heap
    requires WellFormed(lay, h) && vmSp <= lay.stackTop
  {
    if Signed64(h.allocCount) < Signed64(h.threshold) then h else Collect(lay, h, vmSp)
  }

  /** Both numbers are positive when read as signed ones. */
  predicate CountsArePositive(h: Heap) {
    h.allocCount < TWO_64 / 2 && h.threshold < TWO_64 / 2
  }

  /** Comparing as signed numbers is comparing with the sign bit flipped. */
  predicate BelowThreshold(h: Heap) {
    (h.allocCount + TWO_64 / 2) % TWO_64 < (h.threshold + TWO_64 / 2) % TWO_64
  }

  /** What a collection leaves of the heap `h`: exactly the survivors, and a counter of zero. */
  ghost predicate IsCollected(lay: Layout, h: Heap, vmSp: nat, h': Heap)
    requires WellFormed(lay, h) && vmSp <= lay.stackTop
  {
    && WellFormed(lay, h') && |h'.mem| == |h.mem|
    && h'.allocCount == 0 && h'.threshold == h.threshold
    && Images(h'.mem, lay.heapStart, h'.bump) == Survivors(h.mem, lay.heapStart, h.bump, lay.stackBottom, vmSp)
    && forall i :: 0 <= i < |h.mem| && !(lay.heapStart <= i < h.bump) ==> h'.mem[i] == h.mem[i]
  }

  /** Below the threshold a safepoint changes nothing; from the threshold on it collects. */
  lemma SafepointExact(lay: Layout, h: Heap, vmSp: nat)
    requires WellFormed(lay, h) && vmSp <= lay.stackTop && h.allocCount < TWO_64 && h.threshold < TWO_64
    ensures BelowThreshold(h) ==> Safepoint(lay, h, vmSp) == h
    ensures !BelowThreshold(h) && vmSp > 0 ==> IsCollected(lay, h, vmSp, Safepoint(lay, h, vmSp))
    ensures CountsArePositive(h) ==> (BelowThreshold(h) <==> h.allocCount < h.threshold)
  {
    hide Survivors, Tiled, Images, Signed64, Collect;
    SignBitFlipped(h.allocCount);
    SignBitFlipped(h.threshold);
    hide BelowThreshold;
    if vmSp > 0 {
      CollectExact(lay, h, vmSp);
    }
  }

  lemma SignBitFlipped(x: nat)
    requires x < TWO_64
    ensures (x + TWO_64 / 2) % TWO_64 == Signed64(x) + TWO_64 / 2
    ensures x < TWO_64 / 2 ==> Signed64(x) == x
  {
  }

  // ---- Runs ----------------------------------------------------------------

  /** What can happen to the heap; a store is the compiled program writing one byte. */
  datatype Event =
    | Alloc(size: nat)
    | Collection(vmSp: nat)
    | SafepointCall(vmSp: nat)
    | Store(address: nat, value: Byte)

  /** The program stores outside the heap or into the data of a current object. */
  ghost predicate Allowed(lay: Layout, h: Heap, e: Event)
    requires WellFormed(lay, h)
  {
    match e
    case Alloc(size) => NoWrap(h, size)
    case Collection(vmSp) => vmSp <= lay.stackTop
    case SafepointCall(vmSp) => vmSp <= lay.stackTop
    case Store(address, _) =>
      && address < |h.mem|
      && (lay.heapStart <= address < lay.heapLimit ==>
            exists o :: o in Objects(h.mem, lay.heapStart, h.bump) && o + 8 <= |h.mem| && PointsInto(h.mem, o, address))
  }

  ghost function After(lay: Layout, h: Heap, e: Event): Heap
    requires WellFormed(lay, h) && Allowed(lay, h, e)
  {
    match e
    case Alloc(size) => Allocate(lay, h, size).0
    case Collection(vmSp) => Collect(lay, h, vmSp)
    case SafepointCall(vmSp) => Safepoint(lay, h, vmSp)
    case Store(address, value) => h.(mem := h.mem[address := value])
  }

  lemma {:induction false} StoreKeepsTiling(m: Memory, lo: nat, end: nat, address: nat, value: Byte)
    requires end <= |m| && Tiled(m, lo, end) && address < |m|
    requires lo <= address < end ==> exists o :: o in Objects(m, lo, end) && o + 8 <= |m| && PointsInto(m, o, address)
    ensures Tiled(m[address := value], lo, end)
    ensures Objects(m[address := value], lo, end) == Objects(m, lo, end)
    decreases end - lo
  {
    hide LoadWord, SizeAt;
    var n := m[address := value];
    if lo <= address < end {
      var o :| o in Objects(m, lo, end) && o + 8 <= |m| && PointsInto(m, o, address);
      var next := lo + SizeAt(m, lo);
      if o == lo {
        TilingDependsOnBytes(m, n, next, end);
        SameSize(m, n, lo);
        assert ObjectAt(n, lo, end);
      } else {
        ObjectsWithin(m, lo, end, o);
        SameSize(m, n, lo);
        StoreKeepsTiling(m, next, end, address, value);
        assert ObjectAt(n, lo, end);
      }
    } else {
      TilingDependsOnBytes(m, n, lo, end);
    }
  }

  /** Every event keeps the heap tiled and the bump pointer below the limit. */
  lemma EventKeepsWellFormed(lay: Layout, h: Heap, e: Event)
    requires WellFormed(lay, h) && Allowed(lay, h, e)
    ensures WellFormed(lay, After(lay, h, e))
  {
    hide SizeAt, Hit, Marking, Tiled, Collect;
    match e
    case Alloc(size) =>
      AllocateExact(lay, h, size);
    case Collection(vmSp) => CollectKeepsWellFormed(lay, h, vmSp);
    case SafepointCall(vmSp) => CollectKeepsWellFormed(lay, h, vmSp);
    case Store(address, value) => StoreKeepsTiling(h.mem, lay.heapStart, h.bump, address, value);
  }

  lemma CollectKeepsWellFormed(lay: Layout, h: Heap, vmSp: nat)
    requires WellFormed(lay, h) && vmSp <= lay.stackTop
    ensures WellFormed(lay, Collect(lay, h, vmSp))
  {
    if vmSp > 0 {
      CollectExact(lay, h, vmSp);
    }
  }

  /** `events` is a run from `h`, and `h'` is where it ends. */
  ghost predicate IsRun(lay: Layout, h: Heap, events: seq<Event>, h': Heap)
    requires WellFormed(lay, h)
    decreases |events|
  {
    if events == [] then h' == h
    else
      && Allowed(lay, h, events[0])
      && (EventKeepsWellFormed(lay, h, events[0]);
          IsRun(lay, After(lay, h, events[0]), events[1..], h'))
  }

  /** After every run the heap is tiled below the limit, and its objects are pairwise disjoint. */
  lemma {:induction false} RunKeepsHeap(lay: Layout, h: Heap, events: seq<Event>, h': Heap)
    requires WellFormed(lay, h) && IsRun(lay, h, events, h')
    ensures WellFormed(lay, h')
    ensures var objects := Objects(h'.mem, lay.heapStart, h'.bump);
            forall g, o :: g in objects && o in objects && g < o ==>
              ObjectAt(h'.mem, g, h'.bump) && g + SizeAt(h'.mem, g) <= o
    decreases |events|
  {
    hide Allowed, After, SizeAt;
    if events == [] {
      forall g, o | g in Objects(h'.mem, lay.heapStart, h'.bump) && o in Objects(h'.mem, lay.heapStart, h'.bump)
          && g < o
        ensures ObjectAt(h'.mem, g, h'.bump) && g + SizeAt(h'.mem, g) <= o
      {
        ObjectsDisjoint(h'.mem, lay.heapStart, h'.bump, g, o);
      }
    } else {
      EventKeepsWellFormed(lay, h, events[0]);
      RunKeepsHeap(lay, After(lay, h, events[0]), events[1..], h');
    }
  }

  /** Whatever happened before, an allocation that fits 64 bits returns a payload no other object shares. */
  lemma RunPayloadIsolated(lay: Layout, h: Heap, events: seq<Event>, h': Heap, size: nat, other: nat)
    requires WellFormed(lay, h) && IsRun(lay, h, events, h')
    requires WellFormed(lay, h') ==> NoWrap(h', size) && Allocate(lay, h', size).1.Some?
    ensures WellFormed(lay, h')
    ensures var (h'', p) := Allocate(lay, h', size);
            && WellFormed(lay, h'')
            && h'.bump + 8 == p.value && p.value + size <= h''.bump
            && (other in Objects(h''.mem, lay.heapStart, h''.bump) && other != h'.bump ==>
                  ObjectAt(h''.mem, other, h''.bump) && other + SizeAt(h''.mem, other) <= h'.bump)
  {
    hide IsRun, SizeAt, Tiled;
    RunKeepsHeap(lay, h, events, h');
    PayloadIsolated(lay, h', size, other);
    AllocateExact(lay, h', size);
  }

  /** The event leads to a collection: asked for, or at a safepoint because the threshold has been reached. */
  predicate Collects(h: Heap, e: Event) {
    match e
    case Alloc(_) => false
    case Collection(vmSp) => vmSp > 0
    case SafepointCall(vmSp) => vmSp > 0 && h.allocCount >= h.threshold
    case Store(_, _) => false
  }

  /** How many allocations of a run succeed. */
  ghost function Served(lay: Layout, h: Heap, events: seq<Event>, h': Heap): nat
    requires WellFormed(lay, h) && IsRun(lay, h, events, h')
    decreases |events|
  {
    if events == [] then 0
    else
      EventKeepsWellFormed(lay, h, events[0]);
      (if events[0].Alloc? && Allocate(lay, h, events[0].size).1.Some? then 1 else 0)
      + Served(lay, After(lay, h, events[0]), events[1..], h')
  }

  /** No event of the run leads to a collection. */
  ghost predicate NeverCollects(lay: Layout, h: Heap, events: seq<Event>, h': Heap)
    requires WellFormed(lay, h) && IsRun(lay, h, events, h')
    decreases |events|
  {
    events != [] ==>
      && !Collects(h, events[0])
      && (EventKeepsWellFormed(lay, h, events[0]);
          NeverCollects(lay, After(lay, h, events[0]), events[1..], h'))
  }

  lemma EventCounts(lay: Layout, h: Heap, e: Event)
    requires WellFormed(lay, h) && Allowed(lay, h, e) && !Collects(h, e)
    requires CountsArePositive(h) && h.allocCount + 1 < TWO_64 / 2
    ensures var h' := After(lay, h, e);
            && h'.threshold == h.threshold
            && h'.allocCount == h.allocCount + if e.Alloc? && Allocate(lay, h, e.size).1.Some? then 1 else 0
  {
    hide StoreWord, TotalSize, Tiled, Objects;
    match e
    case Alloc(size) => AllocateExact(lay, h, size);
    case SafepointCall(vmSp) => SafepointExact(lay, h, vmSp);
    case _ =>
  }

  /** As long as nothing collects, the counter counts the successful allocations. */
  lemma {:induction false} RunCounts(lay: Layout, h: Heap, events: seq<Event>, h': Heap)
    requires WellFormed(lay, h) && IsRun(lay, h, events, h') && NeverCollects(lay, h, events, h')
    requires CountsArePositive(h) && h.allocCount + |events| < TWO_64 / 2
    ensures h'.allocCount == h.allocCount + Served(lay, h, events, h') && h'.threshold == h.threshold
    ensures Served(lay, h, events, h') <= |events|
    decreases |events|
  {
    hide Allowed, After, Collects, WellFormed;
    if events != [] {
      EventKeepsWellFormed(lay, h, events[0]);
      EventCounts(lay, h, events[0]);
      RunCounts(lay, After(lay, h, events[0]), events[1..], h');
    }
  }

  /** The heap as the start-up code leaves it. */
  function StartHeap(lay: Layout, mem: Memory): (h: Heap)
    ensures lay.Fits(|mem|) ==> WellFormed(lay, h)
  {
    Heap(mem, lay.heapStart, 0, 256)
  }

  /**
   * From the start on, if nothing has collected yet, the next safepoint collects when 256 allocations have succeeded,
   * and changes nothing before.
   */
  lemma ThresholdCollects(lay: Layout, mem: Memory, events: seq<Event>, h: Heap, vmSp: nat)
    requires lay.Fits(|mem|) && IsRun(lay, StartHeap(lay, mem), events, h)
    requires NeverCollects(lay, StartHeap(lay, mem), events, h) && |events| < TWO_64 / 2
    requires 0 < vmSp <= lay.stackTop
    ensures WellFormed(lay, h)
    ensures var served := Served(lay, StartHeap(lay, mem), events, h);
            && (served >= 256 ==> IsCollected(lay, h, vmSp, After(lay, h, SafepointCall(vmSp))))
            && (served < 256 ==> After(lay, h, SafepointCall(vmSp)) == h)
  {
    hide IsRun, Survivors, IsCollected, NeverCollects, Served, WellFormed, Collect, Allocate;
    assert StartHeap(lay, mem).allocCount == 0 && StartHeap(lay, mem).threshold == 256;
    RunKeepsHeap(lay, StartHeap(lay, mem), events, h);
    RunCounts(lay, StartHeap(lay, mem), events, h);
    SafepointExact(lay, h, vmSp);
    assert After(lay, h, SafepointCall(vmSp)) == Safepoint(lay, h, vmSp);
  }

  // ---- The emitted routines ------------------------------------------------

  /** copy_loop: byte by byte, upwards; safe although the ranges may overlap, because `dest <= src`. */
  method CopyDown(mem: array<Byte>, dest: nat, src: nat, count: nat)
    requires dest <= src && src + count <= mem.Length
    modifies mem
    ensures mem[..] == old(mem[..dest]) + old(mem[src..src + count]) + old(mem[dest + count..])
  {
    var t3, t4, t2 := dest, src, count;
    while t2 != 0
      invariant 0 <= t2 <= count && t3 == dest + (count - t2) && t4 == src + (count - t2)
      invariant forall i :: dest <= i < t3 ==> mem[i] == old(mem[i + (src - dest)])
      invariant forall i :: 0 <= i < mem.Length && !(dest <= i < t3) ==> mem[i] == old(mem[i])
      decreases t2
    {
      var t6 := LoadByte(mem[t4]);
      mem[t3] := LowByte(t6);
      t4, t3, t2 := t4 + 1, t3 + 1, t2 - 1;
    }
    CopiedParts(old(mem[..]), mem[..], dest, src, count);
  }

  lemma CopiedParts(m: Memory, n: Memory, dest: nat, src: nat, count: nat)
    requires dest <= src && src + count <= |m| == |n|
    requires forall i :: dest <= i < dest + count ==> n[i] == m[i + (src - dest)]
    requires forall i :: 0 <= i < |m| && !(dest <= i < dest + count) ==> n[i] == m[i]
    ensures n == m[..dest] + m[src..src + count] + m[dest + count..]
  {
    assert n[..dest] == m[..dest] && n[dest..dest + count] == m[src..src + count];
    assert n[dest + count..] == m[dest + count..];
    assert n == n[..dest] + n[dest..dest + count] + n[dest + count..];
  }

  /** Memory after copying `size` bytes from `src` down to `dest` and clearing the mark bit there. */
  function Moved(m: Memory, dest: nat, src: nat, size: nat): Memory
    requires dest <= src && src + size <= |m| && size > 0
  {
    var copied := m[..dest] + m[src..src + size] + m[dest + size..];
    copied[dest := WithoutMark(copied[dest])]
  }

  /** Copies one object and clears the mark bit at its new place. */
  method MoveObject(mem: array<Byte>, dest: nat, src: nat, size: nat)
    requires dest <= src && src + size <= mem.Length && size > 0
    modifies mem
    ensures mem[..] == Moved(old(mem[..]), dest, src, size)
  {
    CopyDown(mem, dest, src, size);
    mem[dest] := LowByte(AndMinusTwo(LoadByte(mem[dest])));
  }

  lemma NextLive(m: Memory, a: nat, end: nat)
    requires a < end <= |m| && Tiled(m, a, end)
    ensures ObjectAt(m, a, end) && 16 <= SizeAt(m, a) <= end - a && Tiled(m, a + SizeAt(m, a), end)
    ensures Flatten(LiveImages(m, a, end)) ==
            (if IsMarked(m[a]) then ImageAt(m, a, end)[0 := WithoutMark(m[a])]
                else []) + Flatten(LiveImages(m, a + SizeAt(m, a), end))
  {
    hide SizeAt;
    var rest := LiveImages(m, a + SizeAt(m, a), end);
    if IsMarked(m[a]) {
      var image := ImageAt(m, a, end)[0 := WithoutMark(m[a])];
      assert ([image] + rest)[1..] == rest;
    }
  }

  /** The header about to be read still has its original bytes, because `dest <= src`. */
  lemma NotYetOverwritten(m: Memory, now: Memory, lo: nat, dest: nat, src: nat, placed: Memory)
    requires lo <= dest <= src && src + 8 <= |m| && dest == lo + |placed|
    requires now == m[..lo] + placed + m[dest..]
    ensures |now| == |m| && now[src] == m[src] && SizeAt(now, src) == SizeAt(m, src)
  {
    assert forall i :: dest <= i < |m| ==> now[i] == m[i];
    SameSize(m, now, src);
  }

  lemma NoneLive(m: Memory, end: nat)
    requires end <= |m|
    ensures Flatten(LiveImages(m, end, end)) == []
  {
  }

  /** The effect of copying one object down and clearing its mark, in terms of the original memory. */
  lemma PlaceImage(m: Memory, before: Memory, after: Memory, lo: nat, dest: nat, src: nat, end: nat, placed: Memory,
                   image: Memory)
    requires end <= |m| && ObjectAt(m, src, end) && lo <= dest <= src
    requires dest == lo + |placed| && before == m[..lo] + placed + m[dest..]
    requires image == ImageAt(m, src, end)[0 := WithoutMark(m[src])]
    requires after == Moved(before, dest, src, SizeAt(m, src))
    ensures after == m[..lo] + (placed + image) + m[dest + |image|..]
  {
    ImageBounds(m, src, end);
    hide SizeAt, WithoutMark, ObjectAt, Moved, ImageAt;
    var size := SizeAt(m, src);
    var front, raw := m[..lo] + placed, m[src..src + size];
    BehindFront(front, m, dest, src, size);
    MovedParts(before, dest, src, size);
    assert image == raw[0 := WithoutMark(raw[0])];
    Regrouped(m[..lo], placed, image, m[dest + size..]);
  }

  lemma Regrouped(a: Memory, b: Memory, c: Memory, d: Memory)
    ensures a + (b + c) + d == (a + b) + c + d
  {
    assert a + (b + c) == (a + b) + c;
  }

  lemma ImageBounds(m: Memory, src: nat, end: nat)
    requires end <= |m| && ObjectAt(m, src, end)
    ensures 0 < SizeAt(m, src) && src + SizeAt(m, src) <= |m|
    ensures ImageAt(m, src, end) == m[src..src + SizeAt(m, src)]
  {
  }

  lemma MovedParts(m: Memory, dest: nat, src: nat, size: nat)
    requires dest <= src && src + size <= |m| && size > 0
    ensures var raw := m[src..src + size];
            Moved(m, dest, src, size) == m[..dest] + raw[0 := WithoutMark(raw[0])] + m[dest + size..]
  {
    hide WithoutMark;
  }

  /** Replacing the first `dest` bytes leaves everything behind them in place. */
  lemma BehindFront(front: Memory, m: Memory, dest: nat, src: nat, size: nat)
    requires |front| == dest <= src && src + size <= |m|
    ensures var n := front + m[dest..];
            && |n| == |m| && n[..dest] == front
            && n[src..src + size] == m[src..src + size] && n[dest + size..] == m[dest + size..]
  {
  }

  lemma UnmarkedCopy(front: Memory, raw: Memory, back: Memory, b: Byte)
    requires raw != []
    ensures (front + raw + back)[|front| := b] == front + raw[0 := b] + back
  {
  }

  /** The live objects below `src` stand at `[lo, dest)` as `placed`; everything from `dest` on is as it was in `m`. */
  ghost predicate Placing(m: Memory, now: Memory, lo: nat, end: nat, dest: nat, src: nat, placed: Memory) {
    && lo <= dest <= src <= end <= |m| && dest == lo + |placed|
    && Tiled(m, lo, end) && Tiled(m, src, end)
    && placed + Flatten(LiveImages(m, src, end)) == Flatten(LiveImages(m, lo, end))
    && now == m[..lo] + placed + m[dest..]
  }

  lemma PlacingStarts(m: Memory, lo: nat, end: nat)
    requires lo <= end <= |m| && Tiled(m, lo, end)
    ensures Placing(m, m, lo, end, lo, lo, [])
  {
  }

  /** The next header is intact, and an unmarked object is skipped. */
  lemma PlacingNext(m: Memory, now: Memory, lo: nat, end: nat, dest: nat, src: nat, placed: Memory)
    requires Placing(m, now, lo, end, dest, src, placed) && src < end
    ensures |now| == |m| && ObjectAt(m, src, end) && 16 <= SizeAt(m, src) <= end - src
    ensures now[src] == m[src] && SizeAt(now, src) == SizeAt(m, src)
    ensures !IsMarked(m[src]) ==> Placing(m, now, lo, end, dest, src + SizeAt(m, src), placed)
  {
    hide SizeAt, Flatten, LiveImages, Tiled, IsMarked;
    NextLive(m, src, end);
    NotYetOverwritten(m, now, lo, dest, src, placed);
    if !IsMarked(m[src]) {
      assert [] + Flatten(LiveImages(m, src + SizeAt(m, src), end)) ==
          Flatten(LiveImages(m, src + SizeAt(m, src), end));
    }
  }

  /** Moving a marked object down places it. */
  lemma PlacingMoves(m: Memory, now: Memory, after: Memory, lo: nat, end: nat, dest: nat, src: nat, placed: Memory)
    requires Placing(m, now, lo, end, dest, src, placed) && src < end && IsMarked(m[src])
    requires ObjectAt(m, src, end) && |now| == |m|
    requires after == Moved(now, dest, src, SizeAt(m, src))
    ensures var image := ImageAt(m, src, end)[0 := WithoutMark(m[src])];
            Placing(m, after, lo, end, dest + SizeAt(m, src), src + SizeAt(m, src), placed + image)
  {
    hide SizeAt, Flatten, LiveImages, Tiled, WithoutMark;
    var image := ImageAt(m, src, end)[0 := WithoutMark(m[src])];
    NextLive(m, src, end);
    PlaceImage(m, now, after, lo, dest, src, end, placed, image);
    var rest := Flatten(LiveImages(m, src + SizeAt(m, src), end));
    assert placed + (image + rest) == (placed + image) + rest;
  }

  lemma PlacingEnds(m: Memory, now: Memory, lo: nat, end: nat, dest: nat, placed: Memory)
    requires Placing(m, now, lo, end, dest, end, placed)
    ensures (now, dest) == Compacted(m, lo, end)
  {
    NoneLive(m, end);
    assert placed + [] == placed;
  }

  /** compact_loop: slides every marked object down to the end of those already placed and clears its mark. */
  method Compact(mem: array<Byte>, lo: nat, end: nat) returns (s5: nat)
    requires lo <= end <= mem.Length && Tiled(mem[..], lo, end)
    modifies mem
    ensures Tiled(old(mem[..]), lo, end)
    ensures (mem[..], s5) == Compacted(old(mem[..]), lo, end)
  {
    hide SizeAt, LoadByte, AndOne, Placing, Tiled, Compacted, WithoutMark, Moved, ObjectAt;
    ghost var m := mem[..];
    s5 := lo;
    var t0 := lo;
    ghost var placed: Memory := [];
    PlacingStarts(m, lo, end);
    while t0 < end
      invariant s5 <= t0 <= end
      invariant Placing(m, mem[..], lo, end, s5, t0, placed)
      decreases end - t0
    {
      ghost var now := mem[..];
      PlacingNext(m, now, lo, end, s5, t0, placed);
      var t1 := SizeAt(mem[..], t0);
      var t2 := AndOne(LoadByte(mem[t0]));
      if t2 != 0 {
        MoveObject(mem, s5, t0, t1);
        PlacingMoves(m, now, mem[..], lo, end, s5, t0, placed);
        placed := placed + ImageAt(m, t0, end)[0 := WithoutMark(m[t0])];
        s5 := s5 + t1;
      }
      t0 := t0 + t1;
    }
    PlacingEnds(m, mem[..], lo, end, s5, placed);
  }

  class RiscvRuntime {
    const lay: Layout
    const mem: array<Byte>
    var bumpPtr: nat
    var allocCount: nat
    var gcThreshold: nat

    ghost function State(): Heap
      reads this, mem
    {
      Heap(mem[..], bumpPtr, allocCount, gcThreshold)
    }

    ghost predicate Valid()
      reads this, mem
    {
      WellFormed(lay, State())
    }

    /** The globals as the start-up code leaves them. */
    constructor (lay: Layout, mem: array<Byte>)
      requires lay.Fits(mem.Length)
      ensures Valid() && this.lay == lay && this.mem == mem
      ensures State() == StartHeap(lay, mem[..])
    {
      this.lay, this.mem := lay, mem;
      bumpPtr, allocCount, gcThreshold := lay.heapStart, 0, 256;
    }

    /** One attempt of the allocator; None is the branch that calls the collector and retries. */
    method GcAllocAligned(size: nat) returns (p: Option<nat>)
      requires Valid() && size < TWO_64
      modifies this, mem
      ensures (State(), p) == Allocate(lay, old(State()), size)
      ensures NoWrap(old(State()), size) ==> Valid()
    {
      hide Tiled, SizeAt, AndMinusSixteen, Add64, Sub64, StoreWord;
      ghost var h := State();
      if NoWrap(h, size) {
        AllocateExact(lay, h, size);
      }
      HeaderFits(lay, h);
      TotalFits(size);
      var t0 := Add64(8, size);
      t0 := Add64(t0, 15);
      t0 := AndMinusSixteen(t0);
      var s2 := t0;
      var t2 := Add64(bumpPtr, s2);
      if t2 >= lay.heapLimit {
        return None;
      }
      var t3 := Sub64(t2, s2);
      BumpRecovered(bumpPtr, s2);
      bumpPtr := t2;
      StoreWordAt(t3 + 4, s2);
      allocCount := Add64(allocCount, 1);
      return Some(t3 + 8);
    }

    method StoreWordAt(a: nat, v: nat)
      requires a + 4 <= mem.Length
      modifies mem
      ensures mem[..] == StoreWord(old(mem[..]), a, v)
    {
      var v1 := v / 0x100;
      var v2 := v1 / 0x100;
      var v3 := v2 / 0x100;
      mem[a], mem[a + 1], mem[a + 2], mem[a + 3] := v % 0x100, v1 % 0x100, v2 % 0x100, v3 % 0x100;
    }

    lemma BumpRecovered(bump: nat, total: nat)
      requires bump < TWO_64 && total < TWO_64
      ensures Sub64(Add64(bump, total), total) == bump
    {
    }

    /** Marks from the virtual stack, then compacts; a zero stack pointer skips both. */
    method GcCollect(vmSp: nat)
      requires Valid() && vmSp <= lay.stackTop
      modifies this, mem
      ensures State() == Collect(lay, old(State()), vmSp)
      ensures Valid()
    {
      hide Tiled, SizeAt, Marking, Compacted, Hit;
      CollectKeepsWellFormed(lay, State(), vmSp);
      if vmSp == 0 {
        return;
      }
      ghost var m := mem[..];
      MarkingBasics(m, lay.heapStart, bumpPtr, lay.stackBottom, vmSp);
      MarkFromStack(mem, lay.heapStart, bumpPtr, lay.stackBottom, vmSp);
      bumpPtr := Compact(mem, lay.heapStart, bumpPtr);
      allocCount := 0;
    }

    method GcSafepoint(vmSp: nat)
      requires Valid() && vmSp <= lay.stackTop
      modifies this, mem
      ensures State() == Safepoint(lay, old(State()), vmSp)
      ensures CountsArePositive(old(State())) && old(allocCount) < old(gcThreshold) ==> State() == old(State())
      ensures CountsArePositive(old(State())) && old(allocCount) >= old(gcThreshold) && vmSp > 0 ==>
                IsCollected(lay, old(State()), vmSp, State())
      ensures Valid()
    {
      hide Tiled, Collect, IsCollected;
      if allocCount < TWO_64 && gcThreshold < TWO_64 {
        SafepointExact(lay, State(), vmSp);
      }
      if Signed64(allocCount) < Signed64(gcThreshold) {
        return;
      }
      GcCollect(vmSp);
    }
  }
}
