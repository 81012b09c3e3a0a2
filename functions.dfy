/**
 * The public walks over one function: `GetFunctionInstructions`,
 * `GetFunctionBlocks`, `GetFunctionMap` and `GetFunctionCallRefs`, each
 * collecting what `_GetFunctionInstructions` yields in one of its modes. The
 * instruction records come from the table `Decoded(b)`, which holds exactly
 * what `GetInstruction` builds at each code address (`DecodedRecords`).
 */
module Functions {
  import opened Wrappers
  import opened Model
  import opened Backend
  import opened Filters
  import opened Instructions
  import opened Blocks
  import opened Walker
  import opened Partition
  import opened EdgeMaps
  import opened CallRefsLoop

  /**
   * `get_func(ea).startEA`: the start of the function containing `ea`. Outside
   * every function `get_func` returns `None` and the source raises.
   */
  function Entry(b: Backend, ea: Address): Result<Address, Fault> {
    match FunctionStart(b, ea)
    case None => Failure(NotInFunction(ea))
    case Some(e) => Success(e)
  }

  /** The first phase of `_GetFunctionInstructions` over the function containing `ea`. */
  function WalkAt(b: Backend, ea: Address, mode: Mode, filter: Option<Filter>): Result<Walk, Fault> {
    var e :- Entry(b, ea);
    Success(FunctionWalk(Decoded(b), mode, filter, e))
  }

  /** The first phase as the source runs it. */
  method RunWalk(b: Backend, ea: Address, mode: Mode, filter: Option<Filter>) returns (r: Result<Walk, Fault>)
    ensures r == WalkAt(b, ea, mode, filter)
  {
    match FunctionStart(b, ea)
    case None =>
      r := Failure(NotInFunction(ea));
    case Some(e) =>
      DecodedCoherent(b);
      var w := WalkFunction(Decoded(b), mode, filter, e);
      r := Success(w);
  }

  /** Every walk fails exactly outside every function, with the address it was given. */
  lemma WalkAtFails(b: Backend, ea: Address, mode: Mode, filter: Option<Filter>)
    ensures WalkAt(b, ea, mode, filter).Failure? <==> ea !in b.functionOf
    ensures WalkAt(b, ea, mode, filter).Failure? ==> WalkAt(b, ea, mode, filter).error == NotInFunction(ea)
    ensures WalkAt(b, ea, mode, filter).Success? ==>
      |WalkAt(b, ea, mode, filter).value.list| >= 1 && WalkAt(b, ea, mode, filter).value.list[0] == b.functionOf[ea]
  {
    if ea in b.functionOf {
      FunctionWalkQueue(Decoded(b), mode, filter, b.functionOf[ea]);
    }
  }

  // ---------------------------------------------------------------------
  // GetFunctionInstructions: the `'Instruction'` mode, collected.

  /** The instructions `GetFunctionInstructions` returns. */
  function FunctionInstructions(b: Backend, ea: Address, filter: Option<Filter>): Result<seq<Instruction>, Fault> {
    var w :- WalkAt(b, ea, InstructionMode, filter);
    Success(w.instructions)
  }

  method GetFunctionInstructions(b: Backend, ea: Address, filter: Option<Filter>) returns (r: Result<seq<Instruction>, Fault>)
    ensures r == FunctionInstructions(b, ea, filter)
  {
    var w := RunWalk(b, ea, InstructionMode, filter);
    if w.Failure? {
      return Failure(w.error);
    }
    r := Success(w.value.instructions);
  }

  /**
   * Every returned instruction is what `GetInstruction` builds at its own
   * address and passes the filter; the list is the unfiltered one with
   * exactly the instructions the filter rejects taken out.
   */
  lemma FunctionInstructionsFacts(b: Backend, ea: Address, filter: Option<Filter>)
    ensures FunctionInstructions(b, ea, filter).Success? <==> ea in b.functionOf
    ensures FunctionInstructions(b, ea, filter).Success? ==>
      (forall x :: x in FunctionInstructions(b, ea, filter).value ==> InstructionAt(b, x.address) == Some(x) && Match(filter, x)) &&
      FunctionInstructions(b, ea, filter).value == Select(filter, FunctionInstructions(b, ea, None).value)
  {
    WalkAtFails(b, ea, InstructionMode, filter);
    if ea in b.functionOf {
      var d, e := Decoded(b), b.functionOf[ea];
      DecodedCoherent(b);
      FunctionWalkRecords(d, InstructionMode, filter, e);
      FilterOnlySelects(d, InstructionMode, filter, e);
      forall x | x in FunctionWalk(d, InstructionMode, filter, e).instructions
        ensures InstructionAt(b, x.address) == Some(x)
      {
        DecodedRecords(b, x.address);
      }
    }
  }

  // ---------------------------------------------------------------------
  // GetFunctionBlocks: the `'Block'` mode, collected.

  /** The runs of the `'Block'` walk's instructions. */
  function BlockRuns(w: Walk): seq<seq<Instruction>> {
    Cut(w.instructions, w.starts, w.ends)
  }

  /** The `(block_start, block_end, instructions)` triples `GetFunctionBlocks` returns. */
  function FunctionBlocks(b: Backend, ea: Address, filter: Option<Filter>): Result<seq<Yielded>, Fault> {
    var w :- WalkAt(b, ea, BlockMode, filter);
    CutPartition(w.instructions, w.starts, w.ends);
    Success(EmitAll(BlockMode, w.crefs, BlockRuns(w)))
  }

  method GetFunctionBlocks(b: Backend, ea: Address, filter: Option<Filter>) returns (r: Result<seq<Yielded>, Fault>)
    ensures r == FunctionBlocks(b, ea, filter)
  {
    var w := RunWalk(b, ea, BlockMode, filter);
    if w.Failure? {
      return Failure(w.error);
    }
    var v := w.value;
    var out := CutAndEmit(v.instructions, v.starts, v.ends, BlockMode, v.crefs);
    r := Success(out);
  }

  /**
   * The blocks are the runs of the recorded instructions, one triple per run
   * from its first to its last address; the runs are non-empty, concatenate
   * to the recorded instructions, have no start inside and no end before
   * their last instruction, and meet only at a start or an end. No other
   * list of runs has these properties.
   */
  lemma FunctionBlocksPartition(b: Backend, ea: Address, filter: Option<Filter>)
    ensures FunctionBlocks(b, ea, filter).Success? <==> ea in b.functionOf
    ensures FunctionBlocks(b, ea, filter).Success? ==>
      var w, out := WalkAt(b, ea, BlockMode, filter).value, FunctionBlocks(b, ea, filter).value;
      var p := BlockRuns(w);
      IsPartition(p, w.instructions, w.starts, w.ends) &&
      (forall q :: IsPartition(q, w.instructions, w.starts, w.ends) ==> q == p) &&
      |out| == |p| &&
      forall k :: 0 <= k < |p| ==> out[k] == BlockOut(p[k][0].address, p[k][|p[k]| - 1].address, p[k])
  {
    WalkAtFails(b, ea, BlockMode, filter);
    if ea in b.functionOf {
      var w := WalkAt(b, ea, BlockMode, filter).value;
      CutPartition(w.instructions, w.starts, w.ends);
      EmitBlocks(w.crefs, BlockRuns(w));
      forall q | IsPartition(q, w.instructions, w.starts, w.ends)
        ensures q == BlockRuns(w)
      {
        PartitionIsCut(q, w.instructions, w.starts, w.ends);
      }
    }
  }

  // ---------------------------------------------------------------------
  // GetFunctionMap: the `'Map'` mode without a filter, grouped by source and destination.

  /** The `(src, src_end, dst)` edges the `'Map'` walk yields. */
  function FunctionEdges(b: Backend, ea: Address): Result<seq<Yielded>, Fault> {
    var w :- WalkAt(b, ea, MapMode, None);
    CutPartition(w.instructions, w.starts, w.ends);
    Success(EmitAll(MapMode, w.crefs, BlockRuns(w)))
  }

  /**
   * The `'Map'` walk yields only edges: one for each run and each entry that
   * `crefs_map` records for the run's last address.
   */
  lemma FunctionEdgesShape(b: Backend, ea: Address)
    ensures FunctionEdges(b, ea).Success? <==> ea in b.functionOf
    ensures FunctionEdges(b, ea).Success? ==>
      var w, e := WalkAt(b, ea, MapMode, None).value, FunctionEdges(b, ea).value;
      var p := BlockRuns(w);
      AllEdges(e) && IsPartition(p, w.instructions, w.starts, w.ends) &&
      forall src, end, dst :: EdgeOut(src, end, dst) in e <==>
        exists k :: 0 <= k < |p| && EdgeOfRun(w.crefs, p[k], src, end, dst)
  {
    WalkAtFails(b, ea, MapMode, None);
    if ea in b.functionOf {
      var w := WalkAt(b, ea, MapMode, None).value;
      CutPartition(w.instructions, w.starts, w.ends);
      EmitEdges(w.crefs, BlockRuns(w));
      var e := FunctionEdges(b, ea).value;
      assert forall k :: 0 <= k < |e| ==> e[k] in e;
    }
  }

  /** `(src_map, dst_map)` as `GetFunctionMap` returns them. */
  function FunctionMap(b: Backend, ea: Address): Result<(map<Address, seq<Address>>, map<Address, seq<Address>>), Fault> {
    FunctionEdgesShape(b, ea);
    var e :- FunctionEdges(b, ea);
    Success((Group(Forward(e)), Group(Backward(e))))
  }

  method GetFunctionMap(b: Backend, ea: Address)
    returns (r: Result<(map<Address, seq<Address>>, map<Address, seq<Address>>), Fault>)
    ensures r == FunctionMap(b, ea)
  {
    FunctionEdgesShape(b, ea);
    var w := RunWalk(b, ea, MapMode, None);
    if w.Failure? {
      return Failure(w.error);
    }
    var v := w.value;
    var e := CutAndEmit(v.instructions, v.starts, v.ends, MapMode, v.crefs);
    var srcMap, dstMap := GroupEdges(e);
    r := Success((srcMap, dstMap));
  }

  /**
   * `src_map[src]` lists `dst` exactly when some run starts at `src` and
   * `crefs_map` records `dst` for its last address, and exactly when
   * `dst_map[dst]` lists `src`.
   */
  lemma FunctionMapEdges(b: Backend, ea: Address, src: Address, dst: Address)
    requires FunctionMap(b, ea).Success?
    ensures var w, m := WalkAt(b, ea, MapMode, None).value, FunctionMap(b, ea).value;
      ((src in m.0 && dst in m.0[src]) <==> (dst in m.1 && src in m.1[dst])) &&
      ((src in m.0 && dst in m.0[src]) <==> RunEdge(w.crefs, BlockRuns(w), src, dst))
  {
    FunctionEdgesShape(b, ea);
    var w := WalkAt(b, ea, MapMode, None).value;
    EmittedEdges(w.crefs, BlockRuns(w), src, dst);
    MapsSymmetric(FunctionEdges(b, ea).value, src, dst);
  }

  // ---------------------------------------------------------------------
  // GetFunctionCallRefs: the `'Instruction'` walk, sorted into call sites.

  /** What `GetFunctionCallRefs` returns: the call sites of the filtered walk, and that walk filtered once more. */
  function FunctionCallRefs(b: Backend, ea: Address, filter: Option<Filter>): Result<CallRefs, Fault> {
    var s :- FunctionInstructions(b, ea, filter);
    Success(CallRefs(CallSites(s), IndirectSites(s), Select(filter, s)))
  }

  method GetFunctionCallRefs(b: Backend, ea: Address, filter: Option<Filter>) returns (r: Result<CallRefs, Fault>)
    ensures r == FunctionCallRefs(b, ea, filter)
  {
    var s := GetFunctionInstructions(b, ea, filter);
    if s.Failure? {
      return Failure(s.error);
    }
    var refs := SortCallRefs(s.value, filter);
    r := Success(refs);
  }

  /**
   * The second filter test of `GetFunctionCallRefs` drops nothing: its
   * instructions are those of `GetFunctionInstructions` with the same filter;
   * the call sites are the `Call` references of those instructions and the
   * indirect sites the instructions flagged as indirect register calls.
   */
  lemma FunctionCallRefsFacts(b: Backend, ea: Address, filter: Option<Filter>)
    ensures FunctionCallRefs(b, ea, filter).Success? <==> ea in b.functionOf
    ensures FunctionCallRefs(b, ea, filter).Success? ==>
      var s, r := FunctionInstructions(b, ea, filter).value, FunctionCallRefs(b, ea, filter).value;
      r.instructions == s &&
      (forall x: Address, t: Address :: (x, t) in r.calls <==>
        exists k :: 0 <= k < |s| && s[k].address == x && CodeRef(Call, t) in s[k].crefFrom) &&
      (forall x, ops :: (x, ops) in r.indirect <==>
        exists k :: 0 <= k < |s| && s[k].isIndirectRegCall && s[k].address == x && s[k].operands == ops)
  {
    FunctionInstructionsFacts(b, ea, filter);
    if ea in b.functionOf {
      var s := FunctionInstructions(b, ea, filter).value;
      FunctionInstructionsFacts(b, ea, None);
      SelectIdempotent(filter, FunctionInstructions(b, ea, None).value);
      CallSitesMembers(s);
      IndirectSitesMembers(s);
    }
  }
}
