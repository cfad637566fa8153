/** The heap of the RISC-V runtime: memory, object headers, tilings and what a collection leaves behind. */
module GcHeap {
  import opened Bytes

  // ---- Loads, stores and register arithmetic -------------------------------

  /** LW: a 32-bit load, sign-extended. */
  function LoadWord(m: Memory, a: nat): int
    requires a + 4 <= |m|
  {
    if Word32(m, a) < 0x8000_0000 then Word32(m, a) else Word32(m, a) - 0x1_0000_0000
  }

  /** LB: a byte load, sign-extended. */
  function LoadByte(b: Byte): int {
    if b < 128 then b else b - 256
  }

  /** SB: keeps the low 8 bits of a register. */
  function LowByte(x: int): Byte {
    x % 256
  }

  /** Bit 0 of a register, as ANDI with 1 leaves it; `%` rounds down, so negative registers work too. */
  function AndOne(x: int): int {
    x % 2
  }

  function OrOne(x: int): int {
    if x % 2 == 0 then x + 1 else x
  }

  /** ANDI with -2. */
  function AndMinusTwo(x: int): int {
    x - x % 2
  }

  predicate IsMarked(b: Byte) {
    AndOne(LoadByte(b)) != 0
  }

  /** Sign extension does not reach the low byte: the register operations act on the byte itself. */
  lemma ByteArithmetic(b: Byte)
    ensures LoadByte(b) % 2 == b % 2
    ensures LowByte(OrOne(LoadByte(b))) == (if b % 2 == 0 then b + 1 else b)
    ensures LowByte(AndMinusTwo(LoadByte(b))) == b - b % 2
  {
    if b >= 128 {
      assert b - 256 == b + 256 * -1;
    }
  }

  function WithMark(b: Byte): (r: Byte)
    ensures IsMarked(r) && (IsMarked(b) ==> r == b)
  {
    ByteArithmetic(b);
    ByteArithmetic(if b % 2 == 0 then b + 1 else b);
    LowByte(OrOne(LoadByte(b)))
  }

  function WithoutMark(b: Byte): (r: Byte)
    ensures !IsMarked(r) && (!IsMarked(b) ==> r == b)
  {
    ByteArithmetic(b);
    ByteArithmetic(b - b % 2);
    LowByte(AndMinusTwo(LoadByte(b)))
  }

  // ---- Objects -------------------------------------------------------------

  /** The total size recorded in the header at `h`. */
  function SizeAt(m: Memory, h: nat): int
    requires h + 8 <= |m|
  {
    LoadWord(m, h + 4)
  }

  /** An object of positive size, a multiple of 16, starts at `h` and ends by `end`. */
  predicate ObjectAt(m: Memory, h: nat, end: nat)
    requires end <= |m|
  {
    h + 16 <= end && SizeAt(m, h) >= 16 && SizeAt(m, h) % 16 == 0 && h + SizeAt(m, h) <= end
  }

  /** `[a, end)` is exactly tiled by objects. */
  predicate Tiled(m: Memory, a: nat, end: nat)
    requires end <= |m|
    decreases end - a
  {
    a == end || (ObjectAt(m, a, end) && Tiled(m, a + SizeAt(m, a), end))
  }

  /** The header addresses of the objects in `[a, end)`, in address order. */
  function Objects(m: Memory, a: nat, end: nat): seq<nat>
    requires end <= |m| && Tiled(m, a, end)
    decreases end - a
  {
    if a == end then [] else [a] + Objects(m, a + SizeAt(m, a), end)
  }

  /** The bytes of the object at `h`. */
  function ImageAt(m: Memory, h: nat, end: nat): (r: Memory)
    requires end <= |m| && ObjectAt(m, h, end)
    ensures |r| == SizeAt(m, h)
  {
    m[h..h + SizeAt(m, h)]
  }

  function Images(m: Memory, a: nat, end: nat): seq<Memory>
    requires end <= |m| && Tiled(m, a, end)
    decreases end - a
  {
    if a == end then [] else [ImageAt(m, a, end)] + Images(m, a + SizeAt(m, a), end)
  }

  /** The images of the marked objects, with only the mark bit cleared. */
  function LiveImages(m: Memory, a: nat, end: nat): seq<Memory>
    requires end <= |m| && Tiled(m, a, end)
    decreases end - a
  {
    if a == end then []
    else
      var rest := LiveImages(m, a + SizeAt(m, a), end);
      if IsMarked(m[a]) then [ImageAt(m, a, end)[0 := WithoutMark(m[a])]] + rest else rest
  }

  function Flatten(images: seq<Memory>): Memory {
    if images == [] then [] else images[0] + Flatten(images[1..])
  }

  lemma SameSize(m: Memory, n: Memory, h: nat)
    requires h + 8 <= |m| && h + 8 <= |n|
    requires forall i :: h + 4 <= i < h + 8 ==> n[i] == m[i]
    ensures SizeAt(n, h) == SizeAt(m, h)
  {
  }

  /** The objects in `[a, end)` are determined by the bytes there. */
  lemma {:induction false} TilingDependsOnBytes(m: Memory, n: Memory, a: nat, end: nat)
    requires end <= |m| && end <= |n| && Tiled(m, a, end)
    requires forall i :: a <= i < end ==> m[i] == n[i]
    ensures Tiled(n, a, end)
    ensures Objects(n, a, end) == Objects(m, a, end)
    decreases end - a
  {
    hide LoadWord, SizeAt;
    if a != end {
      var next := a + SizeAt(m, a);
      SameSize(m, n, a);
      TilingDependsOnBytes(m, n, next, end);
      assert ObjectAt(n, a, end);
    }
  }

  lemma {:induction false} ObjectsWithin(m: Memory, a: nat, end: nat, h: nat)
    requires end <= |m| && Tiled(m, a, end) && h in Objects(m, a, end)
    ensures a <= h && ObjectAt(m, h, end) && (h - a) % 16 == 0
    ensures h != a ==> a + SizeAt(m, a) <= h
    decreases end - a
  {
    hide SizeAt;
    if h != a {
      ObjectsWithin(m, a + SizeAt(m, a), end, h);
    }
  }

  /** Two objects of a tiling never overlap. */
  lemma {:induction false} ObjectsDisjoint(m: Memory, a: nat, end: nat, g: nat, h: nat)
    requires end <= |m| && Tiled(m, a, end)
    requires g in Objects(m, a, end) && h in Objects(m, a, end) && g < h
    ensures ObjectAt(m, g, end) && g + SizeAt(m, g) <= h
    decreases end - a
  {
    hide SizeAt;
    ObjectsWithin(m, a, end, g);
    if g == a {
      ObjectsWithin(m, a, end, h);
    } else {
      ObjectsWithin(m, a + SizeAt(m, a), end, h);
      ObjectsDisjoint(m, a + SizeAt(m, a), end, g, h);
    }
  }

  /** A tiling can be extended by one object at its end. */
  lemma {:induction false} TilingExtends(m: Memory, a: nat, mid: nat, end: nat)
    requires mid <= end <= |m| && Tiled(m, a, mid) && ObjectAt(m, mid, end) && mid + SizeAt(m, mid) == end
    ensures Tiled(m, a, end) && Objects(m, a, end) == Objects(m, a, mid) + [mid]
    decreases mid - a
  {
    hide SizeAt;
    if a == mid {
      assert Tiled(m, end, end);
      assert Objects(m, end, end) == [];
    } else {
      TilingExtends(m, a + SizeAt(m, a), mid, end);
    }
  }

  // ---- Laying out images ---------------------------------------------------

  predicate WellFormedImage(image: Memory) {
    |image| >= 16 && |image| % 16 == 0 && LoadWord(image, 4) == |image|
  }

  lemma {:induction false} LiveImagesWellFormed(m: Memory, a: nat, end: nat)
    requires end <= |m| && Tiled(m, a, end)
    ensures forall image :: image in LiveImages(m, a, end) ==> WellFormedImage(image) && !IsMarked(image[0])
    ensures |Flatten(LiveImages(m, a, end))| <= end - a
    decreases end - a
  {
    if a != end {
      LiveImagesWellFormed(m, a + SizeAt(m, a), end);
      var image := ImageAt(m, a, end)[0 := WithoutMark(m[a])];
      assert forall i :: 4 <= i < 8 ==> image[i] == m[a + i];
      assert LoadWord(image, 4) == SizeAt(m, a);
    }
  }

  lemma ImageHeader(m: Memory, a: nat, image: Memory)
    requires a + |image| <= |m| && m[a..a + |image|] == image && |image| >= 16
    ensures SizeAt(m, a) == LoadWord(image, 4)
  {
    assert forall i :: 0 <= i < |image| ==> image[i] == m[a..a + |image|][i] == m[a + i];
  }

  /** Well-formed images laid end to end are a tiling with exactly these images. */
  lemma {:induction false} LaidOutIsTiled(m: Memory, a: nat, images: seq<Memory>)
    requires a + |Flatten(images)| <= |m|
    requires m[a..a + |Flatten(images)|] == Flatten(images)
    requires forall image :: image in images ==> WellFormedImage(image)
    ensures Tiled(m, a, a + |Flatten(images)|)
    ensures Images(m, a, a + |Flatten(images)|) == images
    decreases |images|
  {
    hide LoadWord;
    if images != [] {
      var end := a + |Flatten(images)|;
      var first, rest := images[0], images[1..];
      assert first in images;
      assert Flatten(images) == first + Flatten(rest);
      assert m[a..a + |first|] == first by {
        assert m[a..end][..|first|] == first;
      }
      assert m[a + |first|..end] == Flatten(rest) by {
        assert m[a..end][|first|..] == Flatten(rest);
      }
      ImageHeader(m, a, first);
      LaidOutIsTiled(m, a + |first|, rest);
    }
  }
}
