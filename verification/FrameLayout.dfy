/** Stack frames: slots handed out downwards from the frame pointer. */
module FrameLayouts {
  import opened Alignment
  import opened BitFields

  const ISIZE_MIN: int := -0x8000_0000_0000_0000
  const FRAME_ALIGNMENT: nat := 16

  datatype StackSlot = StackSlot(offset: int, size: nat, alignment: nat)

  datatype Request = Request(size: nat, alignment: nat)

  // ---- The layout of a sequence of requests ------------------------------------

  predicate AllAligned(requests: seq<Request>) {
    forall r :: r in requests ==> r.alignment > 0
  }

  function Bottom(slots: seq<StackSlot>): int {
    if slots == [] then 0 else slots[|slots| - 1].offset
  }

  function Place(bottom: int, r: Request): StackSlot
    requires r.alignment > 0
  {
    StackSlot(AlignDown(bottom, r.alignment) - r.size, r.size, r.alignment)
  }

  function LayOut(requests: seq<Request>): (slots: seq<StackSlot>)
    requires AllAligned(requests)
    ensures |slots| == |requests|
  {
    if requests == [] then []
    else
      var n := |requests| - 1;
      assert requests[n] in requests;
      var slots := LayOut(requests[..n]);
      slots + [Place(Bottom(slots), requests[n])]
  }

  predicate Covers(slot: StackSlot, address: int) {
    slot.offset <= address < slot.offset + slot.size
  }

  /** A slot as requested that ends at the highest aligned address not above the ceiling. */
  ghost predicate Fills(slot: StackSlot, r: Request, ceiling: int) {
    && slot.size == r.size && slot.alignment == r.alignment > 0
    && var top := slot.offset + slot.size;
       && top % slot.alignment == 0 && top <= ceiling
       && forall m: int :: m % slot.alignment == 0 && m <= ceiling ==> m <= top
  }

  /** What a frame must be: each slot fills the space below the one before it. */
  ghost predicate IsFrame(requests: seq<Request>, slots: seq<StackSlot>) {
    && |slots| == |requests|
    && forall i :: 0 <= i < |slots| ==> Fills(slots[i], requests[i], Ceiling(slots, i))
  }

  function Ceiling(slots: seq<StackSlot>, i: nat): int
    requires i <= |slots|
  {
    if i == 0 then 0 else slots[i - 1].offset
  }

  lemma PlaceFills(bottom: int, r: Request)
    requires r.alignment > 0
    ensures Fills(Place(bottom, r), r, bottom)
  {
    AlignDownIsGreatest(bottom, r.alignment);
  }

  lemma {:induction false} LayOutIsFrame(requests: seq<Request>)
    requires AllAligned(requests)
    ensures IsFrame(requests, LayOut(requests))
  {
    hide Fills, Place;
    if requests != [] {
      var n := |requests| - 1;
      var before, slots := LayOut(requests[..n]), LayOut(requests);
      assert requests[n] in requests;
      LayOutIsFrame(requests[..n]);
      PlaceFills(Bottom(before), requests[n]);
      assert Ceiling(slots, n) == Bottom(before);
      forall i | 0 <= i < |slots| ensures Fills(slots[i], requests[i], Ceiling(slots, i)) {
        if i < n {
          assert Fills(before[i], requests[..n][i], Ceiling(before, i));
        }
      }
    }
  }

  lemma FillsUnique(a: StackSlot, b: StackSlot, r: Request, ceiling: int)
    requires Fills(a, r, ceiling) && Fills(b, r, ceiling)
    ensures a == b
  {
    assert a.offset + a.size <= b.offset + b.size <= a.offset + a.size;
  }

  /** Such a frame is unique. */
  lemma {:induction false} FrameUnique(requests: seq<Request>, a: seq<StackSlot>, b: seq<StackSlot>, n: nat)
    requires IsFrame(requests, a) && IsFrame(requests, b) && n <= |requests|
    ensures a[..n] == b[..n]
  {
    hide Fills;
    if n > 0 {
      FrameUnique(requests, a, b, n - 1);
      assert a[..n] == a[..n - 1] + [a[n - 1]] && b[..n] == b[..n - 1] + [b[n - 1]];
      if n > 1 {
        assert a[n - 2] == a[..n - 1][n - 2] && b[n - 2] == b[..n - 1][n - 2];
      }
      assert Ceiling(a, n - 1) == Ceiling(b, n - 1);
      FillsUnique(a[n - 1], b[n - 1], requests[n - 1], Ceiling(a, n - 1));
    }
  }

  lemma SlotBelowCeiling(requests: seq<Request>, slots: seq<StackSlot>, i: nat)
    requires IsFrame(requests, slots) && i < |slots|
    ensures slots[i].offset + slots[i].size <= Ceiling(slots, i)
  {
    assert Fills(slots[i], requests[i], Ceiling(slots, i));
  }

  /** Slots descend from the frame pointer, each wholly below the one before it. */
  lemma {:induction false} SlotsDescend(requests: seq<Request>, slots: seq<StackSlot>, i: nat, j: nat)
    requires IsFrame(requests, slots) && i <= j < |slots|
    ensures slots[j].offset + slots[j].size <= if i == j then 0 else slots[i].offset
    ensures slots[j].offset <= slots[i].offset
    decreases j
  {
    SlotBelowCeiling(requests, slots, j);
    if j > 0 {
      SlotsDescend(requests, slots, if i == j then i - 1 else i, j - 1);
    }
  }

  /** No address belongs to two slots. */
  lemma SlotsDisjoint(requests: seq<Request>, slots: seq<StackSlot>, i: nat, j: nat, address: int)
    requires IsFrame(requests, slots) && i < |slots| && j < |slots| && i != j
    ensures !(Covers(slots[i], address) && Covers(slots[j], address))
  {
    SlotsDescend(requests, slots, if i < j then i else j, if i < j then j else i);
  }

  /** A slot's base is aligned exactly when its size is a multiple of its alignment. */
  lemma BaseAlignedIff(requests: seq<Request>, slots: seq<StackSlot>, i: nat)
    requires IsFrame(requests, slots) && i < |slots|
    ensures slots[i].offset % slots[i].alignment == 0 <==> slots[i].size % slots[i].alignment == 0
  {
    var s := slots[i];
    var top := s.offset + s.size;
    assert Fills(s, requests[i], Ceiling(slots, i));
    if s.size % s.alignment == 0 {
      DifferenceModulo(s.alignment, top, s.size);
    }
    if s.offset % s.alignment == 0 {
      DifferenceModulo(s.alignment, top, s.offset);
    }
  }

  /** The first request for 8 bytes aligned to 16 is served at offset -8, which is not aligned to 16. */
  lemma BaseMisaligned()
    ensures LayOut([Request(8, 16)]) == [StackSlot(-8, 8, 16)] && -8 % 16 != 0
  {
    assert [Request(8, 16)][..0] == [] && LayOut([]) == [];
  }

  /** Stack frame bookkeeping. */
  class StackFrameLayout {
    var currentOffset: int
    var maxOffset: int
    var slots: seq<StackSlot>
    var alignment: nat

    /** What was asked for since the frame was last reset. */
    ghost var requests: seq<Request>

    ghost predicate Valid()
      reads this
    {
      && AllAligned(requests)
      && slots == LayOut(requests)
      && currentOffset == maxOffset == Bottom(slots)
      && ISIZE_MIN <= maxOffset <= 0
    }

    constructor ()
      ensures Valid() && requests == [] && slots == [] && alignment == 8
    {
      currentOffset := 0;
      maxOffset := 0;
      slots := [];
      alignment := 8;
      requests := [];
    }

    method Reset()
      modifies this
      ensures Valid() && requests == [] && slots == [] && alignment == old(alignment)
    {
      currentOffset := 0;
      maxOffset := 0;
      slots := [];
      requests := [];
    }

    /** Requires that the new offset still fits a signed 64-bit word. */
    method Allocate(size: nat, alignment: nat) returns (offset: int)
      requires Valid() && alignment > 0
      requires ISIZE_MIN <= AlignDown(currentOffset, alignment) - size
      modifies this
      ensures Valid() && requests == old(requests) + [Request(size, alignment)]
      ensures slots == old(slots) + [StackSlot(offset, size, alignment)]
      ensures this.alignment == if old(this.alignment) < alignment then alignment else old(this.alignment)
    {
      var alignedOffset := AlignDown(currentOffset, alignment);
      var newOffset := alignedOffset - size;
      var slot := StackSlot(newOffset, size, alignment);
      slots := slots + [slot];
      AlignDownIsGreatest(currentOffset, alignment);
      requests := requests + [Request(size, alignment)];
      assert requests[..|requests| - 1] == old(requests);
      currentOffset := newOffset;
      if newOffset < maxOffset {
        maxOffset := newOffset;
      }
      if this.alignment < alignment {
        this.alignment := alignment;
      }
      return newOffset;
    }

    /** The least multiple of 16 that covers every slot. */
    method TotalSize() returns (size: nat)
      requires Valid()
      ensures size % FRAME_ALIGNMENT == 0
      ensures forall s :: s in slots ==> 0 <= s.offset + size && s.offset + s.size <= 0
      ensures forall n: nat :: n % FRAME_ALIGNMENT == 0 && (forall s :: s in slots ==> 0 <= s.offset + n) ==> size <= n
    {
      hide AlignUp, Pow2, LayOut;
      Words();
      Powers();
      size := AlignUp(-maxOffset, FRAME_ALIGNMENT);
      FrameRounding(-maxOffset);
      LayOutIsFrame(requests);
      FrameBounds(requests, slots);
      forall n: nat | n % FRAME_ALIGNMENT == 0 && forall s :: s in slots ==> 0 <= s.offset + n ensures size <= n {
        if slots != [] {
          assert slots[|slots| - 1] in slots;
        }
      }
    }
  }

  lemma FrameRounding(value: nat)
    requires value <= -ISIZE_MIN
    ensures Pow2(64) == 0x1_0000_0000_0000_0000
    ensures var r := AlignUp(value, FRAME_ALIGNMENT);
            r % FRAME_ALIGNMENT == 0 && value <= r && forall m: nat :: m % FRAME_ALIGNMENT == 0 && value <= m ==> r <= m
  {
    hide AlignUp, Pow2;
    Words();
    Powers();
    AlignUpIsLeast(value, 4);
  }

  lemma FrameBounds(requests: seq<Request>, slots: seq<StackSlot>)
    requires IsFrame(requests, slots)
    ensures forall s :: s in slots ==> Bottom(slots) <= s.offset && s.offset + s.size <= 0
  {
    forall s | s in slots ensures Bottom(slots) <= s.offset && s.offset + s.size <= 0 {
      var i :| 0 <= i < |slots| && slots[i] == s;
      SlotsDescend(requests, slots, i, |slots| - 1);
      SlotsDescend(requests, slots, i, i);
    }
  }
}
