/** Patching the addresses of labels into the functions' code. */
module LabelAddresses {
  import opened Wrappers
  import opened Bytes
  import opened CodeLayout

  const GLOBAL_PREFIX: string := "__global_"

  /** The runtime's own name of a global. */
  function RuntimeName(global: string): string {
    if global == "heap_base" then "__heap_start"
    else if global == "heap_limit" then "__heap_limit"
    else if global == "stack_bottom" then "__vstack_bottom"
    else if global == "stack_top" then "__vstack_top"
    else "__" + global
  }

  /** The address a target stands for: a global of the runtime (`names` gives its offset there), or else a label. */
  function AddressOf(target: string, names: map<string, nat>, labels: LabelTable): Option<nat> {
    var n := |GLOBAL_PREFIX|;
    if GLOBAL_PREFIX <= target && RuntimeName(target[n..]) in names
        then Some(CODE_BASE + names[RuntimeName(target[n..])])
    else if target in labels then Some(labels[target])
    else None
  }

  /** A pending address at its place in the whole code. */
  datatype AddressSite = AddressSite(position: nat, target: string)

  function AddressSitesOf(functions: seq<CompiledFunction>): seq<AddressSite> {
    if functions == [] then []
    else
      var n := |functions| - 1;
      AddressSitesOf(functions[..n]) + FunctionAddresses(functions[n].addresses, OffsetOf(functions, n))
  }

  function FunctionAddresses(addresses: seq<PendingAddress>, offset: nat): seq<AddressSite> {
    seq(|addresses|, i requires 0 <= i < |addresses| => AddressSite(offset + addresses[i].position,
        addresses[i].target))
  }

  /** The pending addresses of every function lie inside its own code. */
  predicate AddressesInside(functions: seq<CompiledFunction>) {
    forall i, j :: 0 <= i < |functions| && 0 <= j < |functions[i].addresses| ==>
      functions[i].addresses[j].position + 8 <= |functions[i].code|
  }

  lemma {:induction false} AddressSitesInside(functions: seq<CompiledFunction>)
    requires AddressesInside(functions)
    ensures forall i :: 0 <= i < |AddressSitesOf(functions)| ==>
        AddressSitesOf(functions)[i].position + 8 <= |CodeOf(functions)|
  {
    if functions != [] {
      AddressSitesInside(functions[..|functions| - 1]);
    }
  }

  function PatchAddress(code: Memory, s: AddressSite, names: map<string, nat>, labels: LabelTable): (r: Memory)
    requires s.position + 8 <= |code|
    ensures |r| == |code|
  {
    var a := AddressOf(s.target, names, labels);
    if a.Some? then StoreDouble(code, s.position, a.value) else code
  }

  function PatchAddresses(code: Memory, sites: seq<AddressSite>, names: map<string, nat>,
                          labels: LabelTable): (r: Memory)
    requires forall i :: 0 <= i < |sites| ==> sites[i].position + 8 <= |code|
    ensures |r| == |code|
  {
    if sites == [] then code
    else
      var n := |sites| - 1;
      PatchAddress(PatchAddresses(code, sites[..n], names, labels), sites[n], names, labels)
  }

  predicate AddressesDisjoint(sites: seq<AddressSite>) {
    forall i, j :: 0 <= i < j < |sites| ==>
      sites[i].position + 8 <= sites[j].position || sites[j].position + 8 <= sites[i].position
  }

  predicate InDouble(s: AddressSite, b: int) {
    s.position <= b < s.position + 8
  }

  /** A byte at a site whose target is known. */
  ghost predicate InKnownSite(sites: seq<AddressSite>, names: map<string, nat>, labels: LabelTable, b: int) {
    exists i :: 0 <= i < |sites| && AddressOf(sites[i].target, names, labels).Some? && InDouble(sites[i], b)
  }

  /**
   * After the pass every known target's address stands at its site, and every byte outside these sites is as before.
   */
  lemma {:induction false} PatchAddressesExact(code: Memory, sites: seq<AddressSite>, names: map<string, nat>,
                                               labels: LabelTable)
    requires forall i :: 0 <= i < |sites| ==> sites[i].position + 8 <= |code|
    requires AddressesDisjoint(sites)
    ensures var n := PatchAddresses(code, sites, names, labels);
            && (forall i :: 0 <= i < |sites| && AddressOf(sites[i].target, names, labels).Some? ==>
                  LoadDouble(n, sites[i].position) == AddressOf(sites[i].target, names, labels).value % TWO_64)
            && (forall b :: 0 <= b < |code| && !InKnownSite(sites, names, labels, b) ==> n[b] == code[b])
  {
    hide LoadDouble, StoreDouble, AddressOf;
    if sites != [] {
      var k := |sites| - 1;
      var before, after := PatchAddresses(code, sites[..k], names, labels), PatchAddresses(code, sites, names, labels);
      PatchAddressesExact(code, sites[..k], names, labels);
      var a := AddressOf(sites[k].target, names, labels);
      if a.Some? {
        StoreThenLoadDouble(before, sites[k].position, a.value);
        forall i | 0 <= i < k ensures LoadDouble(after, sites[i].position) == LoadDouble(before, sites[i].position) {
          DoubleUnchanged(before, after, sites[i].position);
        }
      }
      forall i | 0 <= i < |sites| && AddressOf(sites[i].target, names, labels).Some?
        ensures LoadDouble(after, sites[i].position) == AddressOf(sites[i].target, names, labels).value % TWO_64
      {
        if i < k {
          assert sites[..k][i] == sites[i];
        }
      }
      forall b | 0 <= b < |code| && !InKnownSite(sites, names, labels, b) ensures after[b] == code[b] {
        if a.Some? {
          assert !InDouble(sites[k], b);
        }
        assert forall i :: 0 <= i < k ==> sites[..k][i] == sites[i];
      }
    }
  }

  method PatchFunctionAddresses(code: Memory, addresses: seq<PendingAddress>, offset: nat, names: map<string, nat>,
                                labels: LabelTable)
    returns (patched: Memory)
    requires forall i :: 0 <= i < |addresses| ==> offset + addresses[i].position + 8 <= |code|
    ensures patched == PatchAddresses(code, FunctionAddresses(addresses, offset), names, labels)
  {
    hide StoreDouble;
    patched := code;
    ghost var sites := FunctionAddresses(addresses, offset);
    for i := 0 to |addresses|
      invariant patched == PatchAddresses(code, sites[..i], names, labels)
    {
      var pending := addresses[i];
      var position := offset + pending.position;
      assert sites[..i + 1][..i] == sites[..i] && sites[..i + 1][i] == AddressSite(position, pending.target);
      if GLOBAL_PREFIX <= pending.target {
        var name := RuntimeName(pending.target[|GLOBAL_PREFIX|..]);
        if name in names {
          patched := StoreDouble(patched, position, CODE_BASE + names[name]);
          continue;
        }
      }
      if pending.target in labels {
        patched := StoreDouble(patched, position, labels[pending.target]);
      }
    }
    assert sites[..|addresses|] == sites;
  }

  lemma {:induction false} PatchAddressesConcat(code: Memory, a: seq<AddressSite>, b: seq<AddressSite>,
                                                names: map<string, nat>, labels: LabelTable)
    requires forall i :: 0 <= i < |a| ==> a[i].position + 8 <= |code|
    requires forall i :: 0 <= i < |b| ==> b[i].position + 8 <= |code|
    ensures PatchAddresses(code, a + b, names, labels) ==
        PatchAddresses(PatchAddresses(code, a, names, labels), b, names, labels)
    decreases |b|
  {
    hide PatchAddress;
    if b == [] {
      assert a + b == a;
    } else {
      var n := |b| - 1;
      assert (a + b)[..|a + b| - 1] == a + b[..n];
      PatchAddressesConcat(code, a, b[..n], names, labels);
    }
  }

  method PatchAllAddresses(code: Memory, functions: seq<CompiledFunction>, offsets: seq<nat>, names: map<string, nat>,
                           labels: LabelTable)
    returns (patched: Memory)
    requires AddressesInside(functions) && code == CodeOf(functions)
    requires |offsets| == |functions| && forall i :: 0 <= i < |functions| ==> offsets[i] == OffsetOf(functions, i)
    requires forall i :: 0 <= i < |AddressSitesOf(functions)| ==> AddressSitesOf(functions)[i].position + 8 <= |code|
    ensures patched == PatchAddresses(code, AddressSitesOf(functions), names, labels)
  {
    hide PatchAddresses;
    patched := code;
    NoAddresses(code, names, labels);
    for i := 0 to |functions|
      invariant forall k :: 0 <= k < |AddressSitesOf(functions[..i])| ==>
          AddressSitesOf(functions[..i])[k].position + 8 <= |code|
      invariant patched == PatchAddresses(code, AddressSitesOf(functions[..i]), names, labels)
    {
      assert functions[..i + 1][..i] == functions[..i];
      assert functions[..i + 1][i] == functions[i];
      FunctionAtOffset(functions, i);
      ghost var more := FunctionAddresses(functions[i].addresses, offsets[i]);
      PatchAddressesConcat(code, AddressSitesOf(functions[..i]), more, names, labels);
      assert AddressSitesOf(functions[..i + 1]) == AddressSitesOf(functions[..i]) + more;
      patched := PatchFunctionAddresses(patched, functions[i].addresses, offsets[i], names, labels);
    }
    assert functions[..|functions|] == functions;
  }

  lemma NoAddresses(code: Memory, names: map<string, nat>, labels: LabelTable)
    ensures PatchAddresses(code, [], names, labels) == code
  {
  }

  /** Address `j` of function `i` is one of the sites. */
  lemma {:induction false} SiteOfAddress(functions: seq<CompiledFunction>, i: nat, j: nat) returns (k: nat)
    requires i < |functions| && j < |functions[i].addresses|
    ensures k < |AddressSitesOf(functions)|
    ensures var p := functions[i].addresses[j];
            AddressSitesOf(functions)[k] == AddressSite(OffsetOf(functions, i) + p.position, p.target)
    decreases |functions|
  {
    var n := |functions| - 1;
    if i < n {
      k := SiteOfAddress(functions[..n], i, j);
      SameOffset(functions, n, i);
    } else {
      k := |AddressSitesOf(functions[..n])| + j;
    }
  }
}
