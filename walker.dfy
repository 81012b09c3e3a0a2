/**
 * The first phase of `_GetFunctionInstructions` as the source runs it: a
 * `for` loop over a worklist that grows while it is walked, and for each
 * start a `while` loop that decodes one instruction after the other. Each
 * method is proved to compute the walk that `Blocks` defines.
 */
module Walker {
  import opened Wrappers
  import opened Model
  import opened Backend
  import opened Filters
  import opened Instructions
  import opened Blocks

  /** A `Jmp` among the first `k + 1` references is one among the first `k` or the next one. */
  lemma JmpStep(crefs: seq<CodeRef>, k: nat)
    requires k < |crefs|
    ensures (exists j :: 0 <= j < k + 1 && crefs[j].kind == Jmp) <==>
      (exists j :: 0 <= j < k && crefs[j].kind == Jmp) || crefs[k].kind == Jmp
  {
  }

  /**
   * The loop over an instruction's references: whether one is tagged `Jmp`,
   * and the list that becomes its `crefs_map` entry.
   */
  method ReadCrefs(insn: Instruction, mode: Mode) returns (foundJmp: bool, targets: seq<Address>)
    ensures foundJmp == HasJmp(insn)
    ensures targets == if mode == MapMode then NonCallTargets(insn.crefFrom) else []
  {
    foundJmp := false;
    targets := [];
    var crefs := insn.crefFrom;
    for k := 0 to |crefs|
      invariant foundJmp <==> exists j :: 0 <= j < k && crefs[j].kind == Jmp
      invariant targets == if mode == MapMode then NonCallTargets(crefs[..k]) else []
    {
      var c := crefs[k];
      JmpStep(crefs, k);
      if c.kind == Jmp {
        foundJmp := true;
      }
      assert crefs[..k + 1] == crefs[..k] + [c];
      NonCallTargetsSnoc(crefs[..k], c);
      if mode == MapMode && c.kind != Call {
        targets := targets + [c.target];
      }
    }
    assert crefs[..|crefs|] == crefs;
  }

  /**
   * The loop that queues the targets of a jumping instruction: every
   * non-`Call` target not yet in `block_starts` is added there and appended
   * to the worklist. (The source also re-marks `Jmp` targets as started,
   * which changes nothing: they are not `Call` targets, so they were just
   * marked.)
   */
  method EnqueueTargets(list: seq<Address>, starts: set<Address>, crefs: seq<CodeRef>)
    returns (list': seq<Address>, starts': set<Address>)
    ensures (list', starts') == EnqueueFrom(list, starts, crefs, 0)
  {
    list', starts' := list, starts;
    for k := 0 to |crefs|
      invariant EnqueueFrom(list', starts', crefs, k) == EnqueueFrom(list, starts, crefs, 0)
    {
      var c := crefs[k];
      if c.kind != Call && c.target !in starts' {
        starts' := starts' + {c.target};
        list' := list' + [c.target];
      }
    }
  }

  /**
   * One pass of the `while` loop of a block, with `pre` decoded before
   * `current`: decode at `current`, keep the instruction when it passes the
   * filter, and either stop (a non-code address, a return, or a jump, whose
   * targets are queued) or step past the instruction after recording its
   * `crefs_map` entry.
   */
  method ScanStep(d: Listing, mode: Mode, filter: Option<Filter>, w: Walk, ghost start: Address, ghost pre: seq<Instruction>,
                  current: Address, selected: seq<Instruction>, crefs: map<Address, seq<Address>>)
    returns (stop: bool, ghost pre': seq<Instruction>, current': Address, selected': seq<Instruction>,
             crefs': map<Address, seq<Address>>, list: seq<Address>, starts: set<Address>)
    requires Coherent(d) && Glue(pre, Scan(d, current)) == Scan(d, start)
    requires selected == Select(filter, pre) && crefs == RecordAll(mode, w.crefs, pre)
    ensures !stop ==>
      Glue(pre', Scan(d, current')) == Scan(d, start) &&
      |CodeAtOrAbove(d, current')| < |CodeAtOrAbove(d, current)| &&
      selected' == Select(filter, pre') && crefs' == RecordAll(mode, w.crefs, pre')
    ensures stop ==>
      current' == Scan(d, start).stop && (list, starts) == Enqueued(w, Scan(d, start)) &&
      selected' == Select(filter, Scan(d, start).insns) && crefs' == RecordAll(mode, w.crefs, Scan(d, start).insns)
  {
    list, starts := w.list, w.starts;
    if current !in d {
      ScanOff(d, start, pre, current);
      return true, pre, current, selected, crefs, list, starts;
    }
    var insn := d[current];
    selected' := Keep(filter, selected, pre, insn);
    pre' := pre + [insn];
    current' := current;
    if IsReturn(insn) {
      ScanEnds(d, start, pre, current);
      RecordReturn(mode, w.crefs, pre, insn);
      return true, pre', current', selected', crefs, list, starts;
    }
    var foundJmp, targets := ReadCrefs(insn, mode);
    RecordEntry(mode, w.crefs, pre, insn);
    crefs' := crefs[current := targets];
    if foundJmp {
      ScanEnds(d, start, pre, current);
      list, starts := EnqueueTargets(list, starts, insn.crefFrom);
      return true, pre', current', selected', crefs', list, starts;
    }
    ScanOn(d, start, pre, current);
    stop := false;
    current' := current + insn.size;
  }

  /**
   * The `while` loop of one block: decode from `start` until a return, a
   * non-code address or a jumping instruction; returns the address it stopped
   * at, the instructions that passed the filter, the `crefs_map` with the
   * block's entries, and the worklist and `block_starts` with the targets of a
   * final jump queued.
   */
  method ScanBlock(d: Listing, mode: Mode, filter: Option<Filter>, w: Walk, start: Address)
    returns (current: Address, selected: seq<Instruction>, crefs: map<Address, seq<Address>>,
             list: seq<Address>, starts: set<Address>)
    requires Coherent(d)
    ensures current == Scan(d, start).stop
    ensures selected == Select(filter, Scan(d, start).insns)
    ensures crefs == RecordAll(mode, w.crefs, Scan(d, start).insns)
    ensures (list, starts) == Enqueued(w, Scan(d, start))
  {
    ghost var pre: seq<Instruction> := [];
    current := start;
    selected := [];
    crefs := w.crefs;
    assert Glue([], Scan(d, start)) == Scan(d, start);
    while true
      invariant Glue(pre, Scan(d, current)) == Scan(d, start)
      invariant selected == Select(filter, pre) && crefs == RecordAll(mode, w.crefs, pre)
      decreases |CodeAtOrAbove(d, current)|
    {
      var stop;
      stop, pre, current, selected, crefs, list, starts := ScanStep(d, mode, filter, w, start, pre, current, selected, crefs);
      if stop {
        break;
      }
    }
  }

  /**
   * One block as a whole: the `while` loop, then in `'Block'` mode the start
   * and the address the loop stopped at go to `block_starts` and
   * `block_ends`.
   */
  method VisitBlock(d: Listing, mode: Mode, filter: Option<Filter>, w: Walk, start: Address) returns (v: Walk)
    requires Coherent(d)
    ensures v == Visit(d, mode, filter, w, start)
  {
    var current, selected, crefs, list, starts := ScanBlock(d, mode, filter, w, start);
    var ends := w.ends;
    if mode == BlockMode {
      starts := starts + {start};
      ends := ends + {current};
    }
    v := Walk(list, starts, ends, crefs, w.instructions + selected);
  }

  /**
   * `for block_start in block_start_list`: Python walks the list by position,
   * so the starts appended while it runs are walked too.
   */
  method WalkFunction(d: Listing, mode: Mode, filter: Option<Filter>, entry: Address) returns (w: Walk)
    requires Coherent(d)
    ensures w == FunctionWalk(d, mode, filter, entry)
  {
    w := InitialWalk(entry);
    var i := 0;
    while i < |w.list|
      invariant i <= |w.list|
      invariant Work(d, mode, filter, w, i) == FunctionWalk(d, mode, filter, entry)
      decreases |FlowTargets(d) - w.starts|, |w.list| - i
    {
      VisitMeasure(d, mode, filter, w, w.list[i]);
      WorkStep(d, mode, filter, w, i);
      w := VisitBlock(d, mode, filter, w, w.list[i]);
      i := i + 1;
    }
  }
}
