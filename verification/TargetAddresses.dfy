/** What the addresses in the linked image, and in the loaded executable, are the addresses of. */
module TargetAddresses {
  import opened Wrappers
  import opened Bytes
  import opened CodeLayout
  import opened LabelAddresses
  import opened Linker
  import opened ElfImage
  import opened RiscvExecutable

  /** The compiler's name of a global, and the name under which the runtime has it. */
  predicate NamesGlobal(target: string, name: string) {
    || (target == "__global_heap_base" && name == "__heap_start")
    || (target == "__global_heap_limit" && name == "__heap_limit")
    || (target == "__global_stack_bottom" && name == "__vstack_bottom")
    || (target == "__global_stack_top" && name == "__vstack_top")
    || (&& "__global_" <= target && name == "__" + target[9..]
        && target !in ["__global_heap_base", "__global_heap_limit", "__global_stack_bottom", "__global_stack_top"])
  }

  ghost predicate IsKnownGlobal(runtime: Runtime, target: string) {
    exists name :: name in runtime.names && NamesGlobal(target, name)
  }

  /** Function `m` is the last to define the label. */
  predicate DefinesLast(functions: seq<CompiledFunction>, m: nat, label_: string) {
    && m < |functions| && Defines(functions[m], label_)
    && forall l :: m < l < |functions| ==> !Defines(functions[l], label_)
  }

  predicate NoneDefines(functions: seq<CompiledFunction>, label_: string) {
    forall l :: 0 <= l < |functions| ==> !Defines(functions[l], label_)
  }

  /**
   * The target of a pending address stands for `a`: a global the runtime has; or else its place in the last function
   * that defines it; or else, when none does, the runtime's own label.
   */
  ghost predicate StandsFor(runtime: Runtime, functions: seq<CompiledFunction>, target: string, a: nat) {
    if IsKnownGlobal(runtime, target)
    then exists name :: name in runtime.names && NamesGlobal(target, name) && a == CODE_BASE + runtime.names[name]
    else
      || (exists m :: DefinesLast(functions, m, target) && a == PlaceOf(runtime, functions, m, target))
      || (NoneDefines(functions, target) && target in runtime.labels && a == runtime.labels[target])
  }

  lemma GlobalNames(target: string, name: string)
    ensures NamesGlobal(target, name) <==>
            GLOBAL_PREFIX <= target && name == RuntimeName(target[|GLOBAL_PREFIX|..])
  {
    GlobalLiterals();
    var a, b, c, d := "__global_heap_base", "__global_heap_limit", "__global_stack_bottom", "__global_stack_top";
    assert |GLOBAL_PREFIX| == 9;
    if GLOBAL_PREFIX <= target {
      Suffix(target, a, "heap_base");
      Suffix(target, b, "heap_limit");
      Suffix(target, c, "stack_bottom");
      Suffix(target, d, "stack_top");
    } else {
      assert GLOBAL_PREFIX <= a && GLOBAL_PREFIX <= b && GLOBAL_PREFIX <= c && GLOBAL_PREFIX <= d;
    }
  }

  lemma GlobalLiterals()
    ensures "__global_heap_base" == GLOBAL_PREFIX + "heap_base"
    ensures "__global_heap_limit" == GLOBAL_PREFIX + "heap_limit"
    ensures "__global_stack_bottom" == GLOBAL_PREFIX + "stack_bottom"
    ensures "__global_stack_top" == GLOBAL_PREFIX + "stack_top"
  {
  }

  lemma Suffix(target: string, full: string, suffix: string)
    requires GLOBAL_PREFIX <= target && full == GLOBAL_PREFIX + suffix
    ensures target == full <==> target[|GLOBAL_PREFIX|..] == suffix
  {
    assert target == GLOBAL_PREFIX + target[|GLOBAL_PREFIX|..];
    SamePrefix(GLOBAL_PREFIX, target[|GLOBAL_PREFIX|..], suffix);
  }

  lemma SamePrefix(p: string, a: string, b: string)
    ensures p + a == p + b <==> a == b
  {
    assert (p + a)[|p|..] == a && (p + b)[|p|..] == b;
  }

  /** A label in the table was put there by the last function that defines it, or is the runtime's. */
  lemma {:induction false} LabelOrigin(runtime: LabelTable, functions: seq<CompiledFunction>, base: nat, label_: string)
    requires label_ in LabelsOf(runtime, functions, base)
    ensures (exists m :: DefinesLast(functions, m, label_)) || (NoneDefines(functions, label_) && label_ in runtime)
  {
    hide Defines, OffsetOf, WithFunction, DefinesLast;
    if functions == [] {
      assert NoneDefines(functions, label_);
    } else {
      hide NoneDefines;
      var n := |functions| - 1;
      if Defines(functions[n], label_) {
        LastDefines(functions, label_);
      } else {
        NotEntered(LabelsOf(runtime, functions[..n], base), functions[n], base + OffsetOf(functions, n), label_);
        LabelOrigin(runtime, functions[..n], base, label_);
        LastDoesNotDefine(functions, label_);
        if m :| DefinesLast(functions[..n], m, label_) {
          assert DefinesLast(functions, m, label_);
        }
      }
    }
  }

  lemma LastDefines(functions: seq<CompiledFunction>, label_: string)
    requires functions != [] && Defines(functions[|functions| - 1], label_)
    ensures DefinesLast(functions, |functions| - 1, label_)
  {
  }

  lemma LastDoesNotDefine(functions: seq<CompiledFunction>, label_: string)
    requires functions != [] && !Defines(functions[|functions| - 1], label_)
    ensures forall m :: DefinesLast(functions[..|functions| - 1], m, label_) ==> DefinesLast(functions, m, label_)
    ensures NoneDefines(functions[..|functions| - 1], label_) ==> NoneDefines(functions, label_)
  {
    hide Defines;
    var front := functions[..|functions| - 1];
    assert forall l :: 0 <= l < |front| ==> front[l] == functions[l];
  }

  lemma NotEntered(table: LabelTable, f: CompiledFunction, address: nat, label_: string)
    requires label_ in WithFunction(table, f, address) && !Defines(f, label_)
    ensures label_ in table
  {
  }

  /** The patch pass reads every target as what it stands for, and no other target as anything. */
  lemma AddressMeans(runtime: Runtime, functions: seq<CompiledFunction>, target: string, a: nat)
    ensures AddressOf(target, runtime.names, LabelsIn(runtime, functions)) == Some(a) <==>
            StandsFor(runtime, functions, target, a)
  {
    hide LabelsOf, OffsetOf, RuntimeName, NamesGlobal, Defines;
    var labels := LabelsIn(runtime, functions);
    if IsKnownGlobal(runtime, target) {
      var name :| name in runtime.names && NamesGlobal(target, name);
      GlobalNames(target, name);
      forall other | NamesGlobal(target, other) ensures other == name {
        GlobalNames(target, other);
      }
    } else {
      if GLOBAL_PREFIX <= target {
        GlobalNames(target, RuntimeName(target[|GLOBAL_PREFIX|..]));
      }
      forall m | DefinesLast(functions, m, target)
        ensures target in labels && labels[target] == PlaceOf(runtime, functions, m, target)
      {
        LabelResolves(runtime.labels, functions, runtime.CodeAddress(), m, target);
      }
      if NoneDefines(functions, target) && target in runtime.labels {
        RuntimeLabelSurvives(runtime.labels, functions, runtime.CodeAddress(), target);
      }
      if target in labels {
        LabelOrigin(runtime.labels, functions, runtime.CodeAddress(), target);
      }
    }
  }

  /** Where in the linked image pending address `j` of function `i` is. */
  function AddressAt(runtime: Runtime, functions: seq<CompiledFunction>, i: nat, j: nat): nat
    requires i < |functions| && j < |functions[i].addresses|
  {
    |runtime.code| + OffsetOf(functions, i) + functions[i].addresses[j].position
  }

  /** In the linked image the eight bytes of a pending address hold what its target stands for. */
  lemma LinkedTarget(runtime: Runtime, functions: seq<CompiledFunction>, main: nat, image: Memory, i: nat, j: nat,
                     a: nat)
    requires Linkable(runtime, functions, main) && Linked(runtime, functions, main) == Ok(image)
    requires i < |functions| && j < |functions[i].addresses|
    requires StandsFor(runtime, functions, functions[i].addresses[j].target, a)
    ensures AddressAt(runtime, functions, i, j) + 8 <= |image|
    ensures LoadDouble(image, AddressAt(runtime, functions, i, j)) == a % TWO_64
  {
    hide Linkable, Linked, StandsFor, AddressOf, LabelsIn, LoadDouble;
    AddressMeans(runtime, functions, functions[i].addresses[j].target, a);
    LinkedAddresses(runtime, functions, main, image, i, j);
  }

  /** Loading the file puts the eight bytes of `value` at `address`. */
  ghost predicate LoadsDouble(file: Memory, address: nat, value: nat) {
    exists bytes: Memory ::
      && |bytes| == 8 && LoadDouble(bytes, 0) == value
      && forall k :: 0 <= k < 8 ==> Loads(file, 0, address + k, bytes[k])
  }

  lemma LoadedDouble(image: Memory, at: nat)
    requires at + 8 <= |image| < 0x1_0000_0000
    ensures LoadsDouble(Executable(image).File(), CODE_BASE + at, LoadDouble(image, at))
  {
    hide Loads, Contents.File;
    var bytes := image[at..at + 8];
    forall k | 0 <= k < 8 ensures Loads(Executable(image).File(), 0, CODE_BASE + at + k, bytes[k]) {
      LoadedImage(image, at + k);
    }
    assert LoadDouble(bytes, 0) == LoadDouble(image, at);
  }

  /** So does the loaded executable. */
  lemma ExecutableTarget(runtime: Runtime, functions: seq<CompiledFunction>, main: nat, image: Memory, i: nat, j: nat,
                         a: nat)
    requires Linkable(runtime, functions, main) && Linked(runtime, functions, main) == Ok(image)
        && |image| < 0x1_0000_0000
    requires i < |functions| && j < |functions[i].addresses|
    requires StandsFor(runtime, functions, functions[i].addresses[j].target, a)
    ensures LoadsDouble(Executable(image).File(), CODE_BASE + AddressAt(runtime, functions, i, j), a % TWO_64)
  {
    hide Linkable, Linked, StandsFor, LoadDouble, LoadsDouble, Executable, Contents.File;
    LinkedTarget(runtime, functions, main, image, i, j, a);
    LoadedDouble(image, AddressAt(runtime, functions, i, j));
  }
}
