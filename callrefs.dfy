/**
 * The loop of `GetFunctionCallRefs` over the walked instructions: the direct
 * call references with their call sites, the indirect register calls with
 * their operands, and the instructions that pass the filter.
 */
module CallRefsLoop {
  import opened Wrappers
  import opened Model
  import opened Filters

  /** `(call_refs, indirect_reg_call_refs, instructions)`. */
  datatype CallRefs = CallRefs(
    calls: seq<(Address, Address)>,
    indirect: seq<(Address, seq<Operand>)>,
    instructions: seq<Instruction>)

  /** `(address, target)` for each `Call`-tagged reference of one instruction, in order. */
  function CallsFrom(a: Address, crefs: seq<CodeRef>): seq<(Address, Address)>
    decreases |crefs|
  {
    if crefs == [] then []
    else
      var n := |crefs| - 1;
      CallsFrom(a, crefs[..n]) + (if crefs[n].kind == Call then [(a, crefs[n].target)] else [])
  }

  /** The call references of a list of instructions, instruction by instruction. */
  function CallSites(insns: seq<Instruction>): seq<(Address, Address)>
    decreases |insns|
  {
    if insns == [] then []
    else
      var n := |insns| - 1;
      CallSites(insns[..n]) + CallsFrom(insns[n].address, insns[n].crefFrom)
  }

  /** `(address, operands)` of each indirect register call, in order. */
  function IndirectSites(insns: seq<Instruction>): seq<(Address, seq<Operand>)>
    decreases |insns|
  {
    if insns == [] then []
    else
      var n := |insns| - 1;
      IndirectSites(insns[..n]) + (if insns[n].isIndirectRegCall then [(insns[n].address, insns[n].operands)] else [])
  }

  /** The inner loop over one instruction's references. */
  method AddCalls(calls: seq<(Address, Address)>, insn: Instruction) returns (calls': seq<(Address, Address)>)
    ensures calls' == calls + CallsFrom(insn.address, insn.crefFrom)
  {
    calls' := calls;
    var crefs := insn.crefFrom;
    for j := 0 to |crefs|
      invariant calls' == calls + CallsFrom(insn.address, crefs[..j])
    {
      assert crefs[..j + 1][..j] == crefs[..j];
      if crefs[j].kind == Call {
        calls' := calls' + [(insn.address, crefs[j].target)];
      }
    }
    assert crefs[..|crefs|] == crefs;
  }

  /** The loop of `GetFunctionCallRefs` over the walked instructions. */
  method SortCallRefs(insns: seq<Instruction>, filter: Option<Filter>) returns (refs: CallRefs)
    ensures refs == CallRefs(CallSites(insns), IndirectSites(insns), Select(filter, insns))
  {
    var calls, indirect, kept := [], [], [];
    SelectNone([]);
    for i := 0 to |insns|
      invariant calls == CallSites(insns[..i]) && indirect == IndirectSites(insns[..i])
      invariant kept == Select(filter, insns[..i])
    {
      var insn := insns[i];
      assert insns[..i + 1][..i] == insns[..i] && insns[..i + 1] == insns[..i] + [insn];
      if insn.isIndirectRegCall {
        indirect := indirect + [(insn.address, insn.operands)];
      }
      calls := AddCalls(calls, insn);
      kept := Keep(filter, kept, insns[..i], insn);
    }
    assert insns[..|insns|] == insns;
    refs := CallRefs(calls, indirect, kept);
  }

  /** A pair is a call of one instruction exactly when it carries that `Call` reference. */
  lemma {:induction false} CallsFromMembers(a: Address, crefs: seq<CodeRef>)
    ensures forall x: Address, t: Address :: (x, t) in CallsFrom(a, crefs) <==> x == a && CodeRef(Call, t) in crefs
    decreases |crefs|
  {
    if crefs != [] {
      var n := |crefs| - 1;
      CallsFromMembers(a, crefs[..n]);
      assert crefs == crefs[..n] + [crefs[n]];
    }
  }

  /** The call sites are exactly the `Call` references of the instructions, with their addresses. */
  lemma {:induction false} CallSitesMembers(insns: seq<Instruction>)
    ensures forall x: Address, t: Address :: (x, t) in CallSites(insns) <==>
      exists k :: 0 <= k < |insns| && insns[k].address == x && CodeRef(Call, t) in insns[k].crefFrom
    decreases |insns|
  {
    if insns != [] {
      var n := |insns| - 1;
      CallSitesMembers(insns[..n]);
      CallsFromMembers(insns[n].address, insns[n].crefFrom);
      assert forall k :: 0 <= k < n ==> insns[..n][k] == insns[k];
    }
  }

  /** The indirect sites are exactly the instructions flagged `IsIndirectRegCall`. */
  lemma {:induction false} IndirectSitesMembers(insns: seq<Instruction>)
    ensures forall x, ops :: (x, ops) in IndirectSites(insns) <==>
      exists k :: 0 <= k < |insns| && insns[k].isIndirectRegCall && insns[k].address == x && insns[k].operands == ops
    decreases |insns|
  {
    if insns != [] {
      var n := |insns| - 1;
      IndirectSitesMembers(insns[..n]);
      assert forall k :: 0 <= k < n ==> insns[..n][k] == insns[k];
    }
  }
}
