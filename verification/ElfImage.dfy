/**
 * The executable the ELF writer produces, and the memory image a loader makes of it according to the System V gABI,
 * chapter 5 (Program Header, Program Loading).
 */
module ElfImage {
  import opened BitFields
  import opened Bytes
  import Alignment

  const PAGE: nat := 0x1000
  const EHDR_SIZE: nat := 64
  const PHDR_SIZE: nat := 56
  const PT_LOAD: nat := 1
  const EXECUTE: nat := 1
  const WRITE: nat := 2
  const READ: nat := 4

  datatype ElfArch = X86_64 | AArch64 | Riscv64

  // ---- Little-endian numbers -----------------------------------------------

  function Pow256(n: nat): nat {
    if n == 0 then 1 else 256 * Pow256(n - 1)
  }

  /** The `count` low bytes of `n`. */
  function LittleEndian(n: nat, count: nat): (r: Memory)
    ensures |r| == count
  {
    if count == 0 then [] else [n % 256] + LittleEndian(n / 256, count - 1)
  }

  function Number(m: Memory): nat {
    if m == [] then 0 else (m[0] as int) + 256 * Number(m[1..])
  }

  lemma {:induction false} NumberOfLittleEndian(n: nat, count: nat)
    requires n < Pow256(count)
    ensures Number(LittleEndian(n, count)) == n
  {
    if count > 0 {
      NumberOfLittleEndian(n / 256, count - 1);
      assert LittleEndian(n, count)[1..] == LittleEndian(n / 256, count - 1);
    }
  }

  lemma Powers256()
    ensures Pow256(2) == 0x1_0000 && Pow256(4) == 0x1_0000_0000 && Pow256(8) == 0x1_0000_0000_0000_0000
  {
    assert Pow256(3) == 0x100_0000;
    assert Pow256(5) == 0x100_0000_0000 && Pow256(6) == 0x1_0000_0000_0000;
    assert Pow256(7) == 0x100_0000_0000_0000;
  }

  /** The number stored in `count` bytes at `offset`. */
  function FieldAt(file: Memory, offset: nat, count: nat): nat
    requires offset + count <= |file|
  {
    Number(file[offset..offset + count])
  }

  // ---- The file ------------------------------------------------------------

  function RoundUp(value: nat, alignment: nat): nat
    requires alignment > 0
  {
    (value + alignment - 1) / alignment * alignment
  }

  /** The writer masks instead of dividing; for page sizes that is the same. */
  lemma RoundUpMasks(value: nat)
    requires value < 0x1_0000_0000_0000_0000 - PAGE
    ensures RoundUp(value, PAGE) == Alignment.AlignUp(value, PAGE)
  {
    Powers();
    Words();
    hide Pow2, Alignment.AlignUp;
    Alignment.AlignUpIsDivision(value, 12);
  }

  function Machine(arch: ElfArch): nat {
    match arch
    case X86_64 => 62
    case AArch64 => 183
    case Riscv64 => 243
  }

  const IDENT: Memory := [0x7f, 69, 76, 70, 2, 1, 1, 0, 0, 0, 0, 0, 0, 0, 0, 0]

  /** The file header: identification, type and machine; entry; program header offset; and the rest. */
  function FileHeader(arch: ElfArch, entry: nat, segments: nat): (r: Memory)
    ensures |r| == EHDR_SIZE
  {
    (IDENT + LittleEndian(2, 2) + LittleEndian(Machine(arch), 2) + LittleEndian(1, 4))
    + (LittleEndian(entry, 8) + LittleEndian(EHDR_SIZE, 8))
    + (LittleEndian(0, 8) + LittleEndian(0, 4) + LittleEndian(EHDR_SIZE, 2) + LittleEndian(PHDR_SIZE, 2))
    + (LittleEndian(segments, 2) + (LittleEndian(0, 2) + LittleEndian(0, 2) + LittleEndian(0, 2)))
  }

  /** One PT_LOAD program header. */
  function ProgramHeader(flags: nat, fileOffset: nat, address: nat, size: nat): (r: Memory)
    ensures |r| == PHDR_SIZE
  {
    (LittleEndian(PT_LOAD, 4) + LittleEndian(flags, 4))
    + (LittleEndian(fileOffset, 8) + LittleEndian(address, 8))
    + (LittleEndian(address, 8) + LittleEndian(size, 8))
    + (LittleEndian(size, 8) + LittleEndian(PAGE, 8))
  }

  function Padding(n: nat): (r: Memory)
    ensures |r| == n
  {
    seq(n, i => 0)
  }

  /** Everything a writer has been given. */
  datatype Contents = Contents(arch: ElfArch, code: Memory, data: Memory, entryOffset: nat, codeBase: nat,
      dataBase: nat) {
    function Segments(): nat {
      if data == [] then 1 else 2
    }

    function CodeOffset(): nat {
      RoundUp(EHDR_SIZE + PHDR_SIZE * Segments(), PAGE)
    }

    function DataOffset(): nat {
      CodeOffset() + RoundUp(|code|, PAGE)
    }

    /** Addresses and sizes stay within 64 bits. */
    predicate Fits() {
      && codeBase + entryOffset < 0x1_0000_0000_0000_0000
      && codeBase + |code| < 0x1_0000_0000_0000_0000 && dataBase + |data| < 0x1_0000_0000_0000_0000
      && DataOffset() < 0x1_0000_0000_0000_0000
    }

    function Headers(): Memory {
      FileHeader(arch, codeBase + entryOffset, Segments())
      + ProgramHeader(READ + WRITE + EXECUTE, CodeOffset(), codeBase, |code|)
      + (if data == [] then [] else ProgramHeader(READ + WRITE, DataOffset(), dataBase, |data|))
    }

    function File(): Memory {
      var withCode := Headers() + Padding(CodeOffset() - |Headers()|) + code;
      if data == [] then withCode
      else assert |withCode| <= DataOffset(); withCode + Padding(DataOffset() - |withCode|) + data
    }
  }

  // ---- Reading headers back ------------------------------------------------

  lemma FieldInMiddle(file: Memory, before: Memory, n: nat, count: nat, after: Memory)
    requires file == before + LittleEndian(n, count) + after && n < Pow256(count)
    ensures FieldAt(file, |before|, count) == n
  {
    assert file[|before|..|before| + count] == LittleEndian(n, count);
    NumberOfLittleEndian(n, count);
  }

  lemma FieldOfPart(file: Memory, before: Memory, part: Memory, after: Memory, offset: nat, count: nat)
    requires file == before + part + after && offset + count <= |part|
    ensures FieldAt(file, |before| + offset, count) == FieldAt(part, offset, count)
  {
    assert file[|before| + offset..|before| + offset + count] == part[offset..offset + count];
  }

  /** Reading from one of four consecutive parts. */
  lemma FieldOfFour(a: Memory, b: Memory, c: Memory, d: Memory, which: nat, offset: nat, count: nat)
    requires which < 4 && offset + count <= |[a, b, c, d][which]|
    ensures var start := if which == 0 then 0 else if which == 1 then |a| else if which == 2 then |a| + |b|
        else |a| + |b| + |c|;
            && start + offset + count <= |a + b + c + d|
            && FieldAt(a + b + c + d, start + offset, count) == FieldAt([a, b, c, d][which], offset, count)
  {
    hide FieldAt;
    var h := a + b + c + d;
    match which
    case 0 =>
      assert h == [] + a + (b + c + d);
      FieldOfPart(h, [], a, b + c + d, offset, count);
    case 1 =>
      assert h == a + b + (c + d);
      FieldOfPart(h, a, b, c + d, offset, count);
    case 2 =>
      FieldOfPart(h, a + b, c, d, offset, count);
    case _ =>
      assert h == (a + b + c) + d + [];
      FieldOfPart(h, a + b + c, d, [], offset, count);
  }

  /** Reading the two numbers of a pair. */
  lemma FieldsOfPair(x: nat, n: nat, y: nat, k: nat)
    requires x < Pow256(n) && y < Pow256(k)
    ensures FieldAt(LittleEndian(x, n) + LittleEndian(y, k), 0, n) == x
    ensures FieldAt(LittleEndian(x, n) + LittleEndian(y, k), n, k) == y
  {
    var p := LittleEndian(x, n) + LittleEndian(y, k);
    assert p == [] + LittleEndian(x, n) + LittleEndian(y, k);
    assert p == LittleEndian(x, n) + LittleEndian(y, k) + [];
    FieldInMiddle(p, [], x, n, LittleEndian(y, k));
    FieldInMiddle(p, LittleEndian(x, n), y, k, []);
  }

  lemma FileHeaderFields(arch: ElfArch, entry: nat, segments: nat)
    requires entry < 0x1_0000_0000_0000_0000 && segments <= 2
    ensures var h := FileHeader(arch, entry, segments);
            && FieldAt(h, 24, 8) == entry && FieldAt(h, 32, 8) == EHDR_SIZE && FieldAt(h, 56, 2) == segments
  {
    Powers256();
    hide LittleEndian, Pow256, FieldAt;
    var a := IDENT + LittleEndian(2, 2) + LittleEndian(Machine(arch), 2) + LittleEndian(1, 4);
    var b := LittleEndian(entry, 8) + LittleEndian(EHDR_SIZE, 8);
    var c := LittleEndian(0, 8) + LittleEndian(0, 4) + LittleEndian(EHDR_SIZE, 2) + LittleEndian(PHDR_SIZE, 2);
    var z := LittleEndian(0, 2) + LittleEndian(0, 2) + LittleEndian(0, 2);
    var d := LittleEndian(segments, 2) + z;
    FieldsOfPair(entry, 8, EHDR_SIZE, 8);
    FieldOfFour(a, b, c, d, 1, 0, 8);
    FieldOfFour(a, b, c, d, 1, 8, 8);
    assert d == [] + LittleEndian(segments, 2) + z;
    FieldInMiddle(d, [], segments, 2, z);
    FieldOfFour(a, b, c, d, 3, 0, 2);
  }

  /** The first 16 bytes say ELF, 64 bits, little-endian, version 1, no particular system. */
  predicate IsIdentified(h: Memory) {
    && |h| >= 16 && h[..4] == [0x7f, 'E' as int, 'L' as int, 'F' as int]
    && h[4] == 2 && h[5] == 1 && h[6] == 1 && forall i :: 7 <= i < 16 ==> h[i] == 0
  }

  /** An executable for the architecture, of the current version. */
  predicate HasKind(h: Memory, arch: ElfArch)
    requires |h| >= EHDR_SIZE
  {
    && FieldAt(h, 16, 2) == 2 && FieldAt(h, 20, 4) == 1
    && (arch == X86_64 ==> FieldAt(h, 18, 2) == 62) && (arch == AArch64 ==> FieldAt(h, 18, 2) == 183)
    && (arch == Riscv64 ==> FieldAt(h, 18, 2) == 243)
  }

  /** The sizes of the file header and of a program header; no section headers, no flags. */
  predicate HasSizes(h: Memory)
    requires |h| >= EHDR_SIZE
  {
    && FieldAt(h, 40, 8) == 0 && FieldAt(h, 48, 4) == 0 && FieldAt(h, 52, 2) == 64 && FieldAt(h, 54, 2) == 56
    && FieldAt(h, 58, 2) == 0 && FieldAt(h, 60, 2) == 0 && FieldAt(h, 62, 2) == 0
  }

  lemma FileHeaderKind(arch: ElfArch, entry: nat, segments: nat)
    ensures var h := FileHeader(arch, entry, segments); IsIdentified(h) && HasKind(h, arch)
  {
    Powers256();
    hide LittleEndian, Pow256, FieldAt;
    var two, machine, one := LittleEndian(2, 2), LittleEndian(Machine(arch), 2), LittleEndian(1, 4);
    var h := FileHeader(arch, entry, segments);
    var rest := h[24..];
    assert h[..24] == IDENT + two + machine + one;
    assert h == h[..24] + rest;
    assert h == IDENT + two + (machine + one + rest);
    FieldInMiddle(h, IDENT, 2, 2, machine + one + rest);
    assert h == (IDENT + two) + machine + (one + rest);
    FieldInMiddle(h, IDENT + two, Machine(arch), 2, one + rest);
    assert h == (IDENT + two + machine) + one + rest;
    FieldInMiddle(h, IDENT + two + machine, 1, 4, rest);
    assert h[..16] == IDENT;
    IdentifiedBy(h);
  }

  lemma IdentifiedBy(h: Memory)
    requires |h| >= 16 && h[..16] == IDENT
    ensures IsIdentified(h)
  {
    assert h[..4] == h[..16][..4];
    forall i | 0 <= i < 16 ensures h[i] == IDENT[i] {
      assert h[..16][i] == h[i];
    }
  }

  /** Reading four numbers in a row. */
  lemma FieldsOfFour(w: nat, i: nat, x: nat, j: nat, y: nat, k: nat, z: nat, l: nat)
    requires w < Pow256(i) && x < Pow256(j) && y < Pow256(k) && z < Pow256(l)
    ensures var m := LittleEndian(w, i) + LittleEndian(x, j) + LittleEndian(y, k) + LittleEndian(z, l);
            && FieldAt(m, 0, i) == w && FieldAt(m, i, j) == x && FieldAt(m, i + j, k) == y
            && FieldAt(m, i + j + k, l) == z
  {
    hide LittleEndian, Pow256, FieldAt;
    var front, back := LittleEndian(w, i) + LittleEndian(x, j), LittleEndian(y, k) + LittleEndian(z, l);
    FieldsOfPair(w, i, x, j);
    FieldsOfPair(y, k, z, l);
    FieldsOfHalves(front, back, i, j, k, l);
    InHalves(LittleEndian(w, i), LittleEndian(x, j), LittleEndian(y, k), LittleEndian(z, l));
  }

  lemma InHalves(a: Memory, b: Memory, c: Memory, d: Memory)
    ensures (a + b) + (c + d) == a + b + c + d
  {
  }

  lemma FieldsOfHalves(front: Memory, back: Memory, i: nat, j: nat, k: nat, l: nat)
    requires |front| == i + j && |back| == k + l
    ensures FieldAt(front + back, 0, i) == FieldAt(front, 0, i) && FieldAt(front + back, i, j) == FieldAt(front, i, j)
    ensures FieldAt(front + back, i + j, k) == FieldAt(back, 0, k)
    ensures FieldAt(front + back, i + j + k, l) == FieldAt(back, k, l)
  {
    hide FieldAt;
    var m := front + back;
    assert m == [] + front + back && m == front + back + [];
    FieldOfPart(m, [], front, back, 0, i);
    FieldOfPart(m, [], front, back, i, j);
    FieldOfPart(m, front, back, [], 0, k);
    FieldOfPart(m, front, back, [], k, l);
  }

  lemma FileHeaderSizes(arch: ElfArch, entry: nat, segments: nat)
    requires segments <= 2
    ensures HasSizes(FileHeader(arch, entry, segments))
  {
    Powers256();
    hide LittleEndian, Pow256, FieldAt;
    var zero := LittleEndian(0, 2);
    var a := IDENT + LittleEndian(2, 2) + LittleEndian(Machine(arch), 2) + LittleEndian(1, 4);
    var b := LittleEndian(entry, 8) + LittleEndian(EHDR_SIZE, 8);
    var c := LittleEndian(0, 8) + LittleEndian(0, 4) + LittleEndian(EHDR_SIZE, 2) + LittleEndian(PHDR_SIZE, 2);
    var d := LittleEndian(segments, 2) + zero + zero + zero;
    assert d == LittleEndian(segments, 2) + (zero + zero + zero);
    FieldsOfFour(0, 8, 0, 4, EHDR_SIZE, 2, PHDR_SIZE, 2);
    FieldsOfFour(segments, 2, 0, 2, 0, 2, 0, 2);
    FieldOfFour(a, b, c, d, 2, 0, 8);
    FieldOfFour(a, b, c, d, 2, 8, 4);
    FieldOfFour(a, b, c, d, 2, 12, 2);
    FieldOfFour(a, b, c, d, 2, 14, 2);
    FieldOfFour(a, b, c, d, 3, 2, 2);
    FieldOfFour(a, b, c, d, 3, 4, 2);
    FieldOfFour(a, b, c, d, 3, 6, 2);
  }

  lemma ProgramHeaderFields(flags: nat, fileOffset: nat, address: nat, size: nat)
    requires flags < 0x1_0000_0000 && fileOffset < TWO_64 && address < TWO_64 && size < TWO_64
    ensures var h := ProgramHeader(flags, fileOffset, address, size);
            && FieldAt(h, 0, 4) == PT_LOAD && FieldAt(h, 4, 4) == flags && FieldAt(h, 8, 8) == fileOffset
            && FieldAt(h, 16, 8) == FieldAt(h, 24, 8) == address
            && FieldAt(h, 32, 8) == size && FieldAt(h, 40, 8) == size && FieldAt(h, 48, 8) == PAGE
  {
    Powers256();
    hide LittleEndian, Pow256, FieldAt;
    var a := LittleEndian(PT_LOAD, 4) + LittleEndian(flags, 4);
    var b := LittleEndian(fileOffset, 8) + LittleEndian(address, 8);
    var c := LittleEndian(address, 8) + LittleEndian(size, 8);
    var d := LittleEndian(size, 8) + LittleEndian(PAGE, 8);
    FieldsOfPair(PT_LOAD, 4, flags, 4);
    FieldsOfPair(fileOffset, 8, address, 8);
    FieldsOfPair(address, 8, size, 8);
    FieldsOfPair(size, 8, PAGE, 8);
    FieldOfFour(a, b, c, d, 0, 0, 4);
    FieldOfFour(a, b, c, d, 0, 4, 4);
    FieldOfFour(a, b, c, d, 1, 0, 8);
    FieldOfFour(a, b, c, d, 1, 8, 8);
    FieldOfFour(a, b, c, d, 2, 0, 8);
    FieldOfFour(a, b, c, d, 2, 8, 8);
    FieldOfFour(a, b, c, d, 3, 0, 8);
    FieldOfFour(a, b, c, d, 3, 8, 8);
  }

  // ---- Loading -------------------------------------------------------------

  /** Segment `i` of the file, read through its header, puts byte `b` at address `a`. */
  ghost predicate Loads(file: Memory, i: nat, a: nat, b: Byte) {
    && |file| >= EHDR_SIZE && i < FieldAt(file, 56, 2)
    && var h := FieldAt(file, 32, 8) + PHDR_SIZE * i;
    && h + PHDR_SIZE <= |file|
    && FieldAt(file, h, 4) == PT_LOAD
    && var offset, address, size := FieldAt(file, h + 8, 8), FieldAt(file, h + 16, 8), FieldAt(file, h + 32, 8);
    && address <= a < address + size && offset + (a - address) < |file|
    && b == file[offset + (a - address)]
  }

  lemma HeadersFit(c: Contents)
    ensures |c.Headers()| == EHDR_SIZE + PHDR_SIZE * c.Segments() <= c.CodeOffset() == PAGE
    ensures c.DataOffset() % PAGE == 0 && c.CodeOffset() + |c.code| <= c.DataOffset()
  {
    hide FileHeader, ProgramHeader;
  }

  /** Where the parts of the file are. */
  lemma FileParts(c: Contents)
    ensures var f := c.File();
            && |f| >= c.CodeOffset() + |c.code| && |c.Headers()| <= c.CodeOffset()
            && f[..|c.Headers()|] == c.Headers()
            && f[c.CodeOffset()..c.CodeOffset() + |c.code|] == c.code
            && (c.data != [] ==> |f| == c.DataOffset() + |c.data| && f[c.DataOffset()..] == c.data)
            && (c.data == [] ==> |f| == c.CodeOffset() + |c.code|)
  {
    HeadersFit(c);
    hide FileHeader, ProgramHeader, RoundUp;
    var headers := c.Headers();
    var front := headers + Padding(c.CodeOffset() - |headers|);
    var withCode := front + c.code;
    assert withCode[..|headers|] == headers;
    assert withCode[c.CodeOffset()..] == c.code;
    if c.data != [] {
      var full := withCode + Padding(c.DataOffset() - |withCode|);
      assert full[..|withCode|] == withCode;
      assert (full + c.data)[..|headers|] == headers;
      assert (full + c.data)[c.CodeOffset()..c.CodeOffset() + |c.code|] == c.code;
      assert (full + c.data)[c.DataOffset()..] == c.data;
    }
  }

  /** The fields a loader reads for the code segment. */
  lemma CodeHeaderFields(c: Contents)
    requires c.Fits()
    ensures var f := c.File();
            && |f| >= EHDR_SIZE + PHDR_SIZE
            && FieldAt(f, 24, 8) == c.codeBase + c.entryOffset && FieldAt(f, 32, 8) == EHDR_SIZE
            && FieldAt(f, 56, 2) == c.Segments()
            && FieldAt(f, EHDR_SIZE, 4) == PT_LOAD && FieldAt(f, EHDR_SIZE + 8, 8) == c.CodeOffset()
            && FieldAt(f, EHDR_SIZE + 4, 4) == READ + WRITE + EXECUTE
            && FieldAt(f, EHDR_SIZE + 16, 8) == FieldAt(f, EHDR_SIZE + 24, 8) == c.codeBase
            && FieldAt(f, EHDR_SIZE + 32, 8) == FieldAt(f, EHDR_SIZE + 40, 8) == |c.code|
            && FieldAt(f, EHDR_SIZE + 48, 8) == PAGE
  {
    HeadersFit(c);
    FileParts(c);
    hide FileHeader, ProgramHeader, RoundUp, FieldAt, Padding, Contents.File;
    var f := c.File();
    var eh := FileHeader(c.arch, c.codeBase + c.entryOffset, c.Segments());
    var ph := ProgramHeader(READ + WRITE + EXECUTE, c.CodeOffset(), c.codeBase, |c.code|);
    FileHeaderFields(c.arch, c.codeBase + c.entryOffset, c.Segments());
    ProgramHeaderFields(READ + WRITE + EXECUTE, c.CodeOffset(), c.codeBase, |c.code|);
    var rest := f[EHDR_SIZE + PHDR_SIZE..];
    assert f[..EHDR_SIZE + PHDR_SIZE] == eh + ph by {
      assert c.Headers()[..EHDR_SIZE + PHDR_SIZE] == eh + ph;
      assert f[..|c.Headers()|][..EHDR_SIZE + PHDR_SIZE] == f[..EHDR_SIZE + PHDR_SIZE];
    }
    assert f == [] + eh + (ph + rest);
    assert f == eh + ph + rest;
    FieldOfPart(f, [], eh, ph + rest, 24, 8);
    FieldOfPart(f, [], eh, ph + rest, 32, 8);
    FieldOfPart(f, [], eh, ph + rest, 56, 2);
    FieldOfPart(f, eh, ph, rest, 0, 4);
    FieldOfPart(f, eh, ph, rest, 4, 4);
    FieldOfPart(f, eh, ph, rest, 8, 8);
    FieldOfPart(f, eh, ph, rest, 16, 8);
    FieldOfPart(f, eh, ph, rest, 32, 8);
    FieldOfPart(f, eh, ph, rest, 24, 8);
    FieldOfPart(f, eh, ph, rest, 40, 8);
    FieldOfPart(f, eh, ph, rest, 48, 8);
  }

  /** The file is an ELF executable for its architecture, with headers of the standard sizes. */
  lemma FileKind(c: Contents)
    ensures |c.File()| >= EHDR_SIZE && IsIdentified(c.File()) && HasKind(c.File(), c.arch) && HasSizes(c.File())
  {
    HeadersFit(c);
    FileParts(c);
    hide FileHeader, ProgramHeader, RoundUp, FieldAt, Padding, Contents.File;
    var f := c.File();
    var eh := FileHeader(c.arch, c.codeBase + c.entryOffset, c.Segments());
    FileHeaderKind(c.arch, c.codeBase + c.entryOffset, c.Segments());
    FileHeaderSizes(c.arch, c.codeBase + c.entryOffset, c.Segments());
    assert f[..EHDR_SIZE] == eh by {
      assert c.Headers()[..EHDR_SIZE] == eh;
      assert f[..|c.Headers()|][..EHDR_SIZE] == f[..EHDR_SIZE];
    }
    SameHeader(f, eh, c.arch);
  }

  lemma SameHeader(f: Memory, h: Memory, arch: ElfArch)
    requires |h| == EHDR_SIZE <= |f| && f[..EHDR_SIZE] == h
    requires IsIdentified(h) && HasKind(h, arch) && HasSizes(h)
    ensures IsIdentified(f) && HasKind(f, arch) && HasSizes(f)
  {
    forall offset: nat, count: nat | offset + count <= EHDR_SIZE
      ensures FieldAt(f, offset, count) == FieldAt(h, offset, count)
    {
      assert f[offset..offset + count] == f[..EHDR_SIZE][offset..offset + count];
    }
    hide FieldAt;
    assert f[..4] == f[..EHDR_SIZE][..4];
    forall i | 0 <= i < 16 ensures f[i] == h[i] {
      assert f[..EHDR_SIZE][i] == f[i];
    }
  }

  /** Every byte of the code segment is loaded at its place, the entry point is its `entryOffset`. */
  lemma CodeLoads(c: Contents, k: nat)
    requires c.Fits() && k < |c.code|
    ensures Loads(c.File(), 0, c.codeBase + k, c.code[k])
    ensures |c.File()| >= EHDR_SIZE && FieldAt(c.File(), 24, 8) == c.codeBase + c.entryOffset
  {
    CodeHeaderFields(c);
    FileParts(c);
    hide FieldAt, Contents.File, Contents.CodeOffset, Contents.Segments;
    var f := c.File();
    assert f[c.CodeOffset()..c.CodeOffset() + |c.code|][k] == c.code[k];
    FieldsLoad(f, c.CodeOffset(), c.codeBase, |c.code|, k);
  }

  /** What the fields of the first program header say is loaded. */
  lemma FieldsLoad(f: Memory, offset: nat, address: nat, size: nat, k: nat)
    requires |f| >= EHDR_SIZE + PHDR_SIZE && k < size && offset + k < |f|
    requires FieldAt(f, 56, 2) > 0 && FieldAt(f, 32, 8) == EHDR_SIZE && FieldAt(f, EHDR_SIZE, 4) == PT_LOAD
    requires FieldAt(f, EHDR_SIZE + 8, 8) == offset && FieldAt(f, EHDR_SIZE + 16, 8) == address
    requires FieldAt(f, EHDR_SIZE + 32, 8) == size
    ensures Loads(f, 0, address + k, f[offset + k])
  {
    hide FieldAt;
  }

  /** File offset and address of the code segment agree modulo the page size, as loading requires. */
  lemma CodeSegmentCongruent(c: Contents)
    requires c.Fits() && c.codeBase % PAGE == 0
    ensures |c.File()| >= EHDR_SIZE + PHDR_SIZE
    ensures FieldAt(c.File(), EHDR_SIZE + 8, 8) % PAGE == FieldAt(c.File(), EHDR_SIZE + 16, 8) % PAGE
  {
    CodeHeaderFields(c);
    HeadersFit(c);
    hide FieldAt, Contents.File;
  }

  class ElfWriter {
    const arch: ElfArch
    const codeBaseAddr: nat
    const dataBaseAddr: nat
    var codeSegment: Memory
    var dataSegment: Memory
    var entryOffset: nat

    function Given(): Contents
      reads this
    {
      Contents(arch, codeSegment, dataSegment, entryOffset, codeBaseAddr, dataBaseAddr)
    }

    constructor (arch: ElfArch, codeBaseAddr: nat, dataBaseAddr: nat)
      ensures Given() == Contents(arch, [], [], 0, codeBaseAddr, dataBaseAddr)
    {
      this.arch, this.codeBaseAddr, this.dataBaseAddr := arch, codeBaseAddr, dataBaseAddr;
      codeSegment, dataSegment, entryOffset := [], [], 0;
    }

    /** Appends code and reports where it starts. */
    method AppendCode(code: Memory) returns (offset: nat)
      modifies this`codeSegment
      ensures offset == |old(codeSegment)| && codeSegment == old(codeSegment) + code
    {
      offset := |codeSegment|;
      codeSegment := codeSegment + code;
    }

    /** Writes headers, then each segment at its page-aligned offset. */
    method Generate() returns (output: Memory)
      ensures output == Given().File()
    {
      HeadersFit(Given());
      hide FileHeader, ProgramHeader, RoundUp;
      var numPhdrs := if dataSegment == [] then 1 else 2;
      var headersTotal := EHDR_SIZE + PHDR_SIZE * numPhdrs;
      var codeFileOffset := RoundUp(headersTotal, PAGE);
      var dataFileOffset := codeFileOffset + RoundUp(|codeSegment|, PAGE);
      output := FileHeader(arch, codeBaseAddr + entryOffset, numPhdrs);
      output := output + ProgramHeader(READ + WRITE + EXECUTE, codeFileOffset, codeBaseAddr, |codeSegment|);
      if numPhdrs > 1 {
        output := output + ProgramHeader(READ + WRITE, dataFileOffset, dataBaseAddr, |dataSegment|);
      }
      assert output == Given().Headers();
      output := PadTo(output, codeFileOffset);
      output := output + codeSegment;
      if dataSegment != [] {
        output := PadTo(output, dataFileOffset);
        output := output + dataSegment;
      }
    }

    method PadTo(start: Memory, size: nat) returns (output: Memory)
      requires |start| <= size
      ensures output == start + Padding(size - |start|)
    {
      output := start;
      while |output| < size
        invariant |start| <= |output| <= size && output == start + Padding(|output| - |start|)
      {
        output := output + [0];
      }
    }
  }
}
