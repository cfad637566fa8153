/** From compiled functions to the bytes of the RISC-V executable. */
module RiscvExecutable {
  import opened Wrappers
  import opened Bytes
  import opened CodeLayout
  import opened Linker
  import opened ElfImage

  /** What the writer is given for a linked image: one segment, entered at its first byte. */
  function Executable(image: Memory): Contents {
    Contents(Riscv64, image, [], 0, CODE_BASE, 0x80_0000)
  }

  method CompileRiscv64(runtime: Runtime, functions: seq<CompiledFunction>, main: nat) returns (r: Result<Memory>)
    requires WholeInstructions(functions) && PatchesInside(functions) && runtime.Valid() && main < |functions|
    ensures var linked := Linked(runtime, functions, main);
            r == if linked.Ok? then Ok(Executable(linked.value).File()) else Err
  {
    var image := Link(runtime, functions, main);
    if image.Err? {
      return Err;
    }
    var elf := new ElfWriter(Riscv64, CODE_BASE, 0x80_0000);
    var first := elf.AppendCode(image.value[..|runtime.code|]);
    var second := elf.AppendCode(image.value[|runtime.code|..]);
    assert elf.codeSegment == image.value;
    var output := elf.Generate();
    r := Ok(output);
  }

  /** The loader puts byte `k` of runtime and functions at the code base plus `k`, and starts at the first byte. */
  lemma LoadedImage(image: Memory, k: nat)
    requires k < |image| && |image| < 0x1_0000_0000
    ensures Loads(Executable(image).File(), 0, CODE_BASE + k, image[k])
    ensures |Executable(image).File()| >= EHDR_SIZE && FieldAt(Executable(image).File(), 24, 8) == CODE_BASE
  {
    HeadersFit(Executable(image));
    CodeLoads(Executable(image), k);
  }

  /** Loading the file puts the four bytes of the word `w` at `address`. */
  ghost predicate LoadsWord(file: Memory, address: nat, w: nat) {
    exists bytes: Memory ::
      && |bytes| == 4 && Word32(bytes, 0) == w
      && forall k :: 0 <= k < 4 ==> Loads(file, 0, address + k, bytes[k])
  }

  lemma LoadedWord(image: Memory, at: nat)
    requires at + 4 <= |image| < 0x1_0000_0000
    ensures LoadsWord(Executable(image).File(), CODE_BASE + at, Word32(image, at))
  {
    hide Loads, Contents.File;
    var bytes := image[at..at + 4];
    forall k | 0 <= k < 4 ensures Loads(Executable(image).File(), 0, CODE_BASE + at + k, bytes[k]) {
      LoadedImage(image, at + k);
    }
    assert Word32(bytes, 0) == Word32(image, at);
  }

  /**
   * In the loaded executable every jump to a label or the name of a function is a jump as it was compiled, and lands
   * where that function has the label.
   */
  lemma ExecutableJumpLands(runtime: Runtime, functions: seq<CompiledFunction>, main: nat, image: Memory, i: nat,
                            j: nat,
                            m: nat)
    requires Linkable(runtime, functions, main) && Linked(runtime, functions, main) == Ok(image)
        && |image| < 0x1_0000_0000
    requires Targets(functions, i, j, m)
    ensures var address := CODE_BASE + JumpAt(runtime, functions, i, j);
            var p := functions[i].jumps[j];
            exists w :: LoadsWord(Executable(image).File(), address, w) &&
              ControlOf(w) ==
              Wanted(CompiledWord(functions, i, j), p.kind, PlaceOf(runtime, functions, m, p.target) - address)
  {
    hide Linked, ControlOf, Wanted, LoadsWord, Executable, Word32, Defines, PatchesDisjoint, WholeInstructions;
    hide Contents.File, PlaceOf, JumpAt;
    JumpLands(runtime, functions, main, image, i, j, m);
    LoadedWord(image, JumpAt(runtime, functions, i, j));
  }

  /** So does the start-up code's call: it lands on the first byte of main. */
  lemma ExecutableCallsMain(runtime: Runtime, functions: seq<CompiledFunction>, main: nat, image: Memory)
    requires Linkable(runtime, functions, main) && Linked(runtime, functions, main) == Ok(image)
        && |image| < 0x1_0000_0000
    requires IsEven(runtime.callMain) && IsEven(|runtime.code|)
    ensures var address := CODE_BASE + runtime.callMain;
            exists w :: LoadsWord(Executable(image).File(), address, w) &&
              ControlOf(w) == JumpBy(1, runtime.CodeAddress() + OffsetOf(functions, main) - address)
  {
    hide Linked, ControlOf, LoadsWord, Executable, Word32, PatchesDisjoint, WholeInstructions, Contents.File, OffsetOf;
    MainCalled(runtime, functions, main, image);
    LoadedWord(image, runtime.callMain);
  }

  /** Every byte no patch writes is loaded as the runtime or the function compiler delivered it. */
  lemma ExecutableElsewhere(runtime: Runtime, functions: seq<CompiledFunction>, main: nat, image: Memory, b: nat)
    requires Linkable(runtime, functions, main) && Linked(runtime, functions, main) == Ok(image)
        && |image| < 0x1_0000_0000
    requires b < |image| && !IsPatched(runtime, functions, b)
    ensures |image| == |runtime.code + CodeOf(functions)|
    ensures Loads(Executable(image).File(), 0, CODE_BASE + b, (runtime.code + CodeOf(functions))[b])
  {
    hide Linked, Loads, Executable, IsPatched, Contents.File, CodeOf;
    LinkedElsewhere(runtime, functions, main, image, b);
    LoadedImage(image, b);
  }
}
