/**
 * The first phase of `_GetFunctionInstructions`: a worklist of block starts,
 * seeded with the function entry, that grows while it is walked. Each start is
 * scanned forward instruction by instruction until a return, an address that
 * is not code, or an instruction with a `Jmp` reference, whose non-`Call`
 * targets join the worklist when they are new.
 */
module Blocks {
  import opened Wrappers
  import opened Text
  import opened Model
  import opened Sets
  import opened Seqs
  import opened Backend
  import opened Filters
  import opened Instructions

  /**
   * The walk's state: `block_start_list`, the keys of `block_starts` and
   * `block_ends`, and `crefs_map`, with the `instructions` list: every
   * decoded instruction that passed the filter, in visiting order.
   */
  datatype Walk = Walk(
    list: seq<Address>,
    starts: set<Address>,
    ends: set<Address>,
    crefs: map<Address, seq<Address>>,
    instructions: seq<Instruction>)

  /** Every target of a reference that is not tagged `Call`, over all records. */
  ghost function FlowTargets(d: Listing): set<Address> {
    set insn, r | insn in d.Values && r in insn.crefFrom && r.kind != Call :: r.target
  }

  /** The code addresses at or above `a`: shrinks as a forward scan advances. */
  ghost function CodeAtOrAbove(d: Listing, a: Address): set<Address> {
    set x | x in d && x >= a
  }

  /** Stepping past a record strictly shrinks the set of code addresses ahead. */
  lemma ScanProgress(d: Listing, a: Address)
    requires a in d
    ensures |CodeAtOrAbove(d, a + d[a].size)| < |CodeAtOrAbove(d, a)|
  {
    SubsetSmaller(CodeAtOrAbove(d, a + d[a].size), CodeAtOrAbove(d, a), a);
  }

  /** The walk before its first block: the entry queued, nothing recorded. */
  function InitialWalk(entry: Address): Walk {
    Walk([entry], {}, {}, map[], [])
  }

  /** A run ends at a return or at an instruction with a `Jmp` reference. */
  predicate EndsRun(insn: Instruction) {
    IsReturn(insn) || HasJmp(insn)
  }

  /**
   * The instructions of one block scan, the address the scan stopped at, and
   * the references to follow from its end (those of a final jumping
   * instruction, none otherwise).
   */
  datatype Run = Run(insns: seq<Instruction>, stop: Address, follow: seq<CodeRef>)

  /** The run ends with an instruction whose references are followed. */
  predicate JumpsAtEnd(run: Run) {
    run.insns != [] && !IsReturn(run.insns[|run.insns| - 1]) && HasJmp(run.insns[|run.insns| - 1])
  }
  /**
   * The block scan from `start`: decoded instructions at consecutive
   * addresses up to and including the first return or jumping instruction,
   * or up to the first address that is not code.
   */
  function Scan(d: Listing, start: Address): Run
    decreases |CodeAtOrAbove(d, start)|
  {
    if start !in d then Run([], start, [])
    else if EndsRun(d[start]) then Run([d[start]], start, if IsReturn(d[start]) then [] else d[start].crefFrom)
    else
      ScanProgress(d, start);
      var rest := Scan(d, start + d[start].size);
      Run([d[start]] + rest.insns, rest.stop, rest.follow)
  }

  /** Every instruction of a block scan is one of the table's records. */
  lemma {:induction false} ScanRecords(d: Listing, start: Address)
    ensures forall k :: 0 <= k < |Scan(d, start).insns| ==> Scan(d, start).insns[k] in d.Values
    decreases |CodeAtOrAbove(d, start)|
  {
    if start in d && !EndsRun(d[start]) {
      ScanProgress(d, start);
      var next := start + d[start].size;
      ScanRecords(d, next);
      var insns := [d[start]] + Scan(d, next).insns;
      assert Scan(d, start).insns == insns;
      assert forall k :: 1 <= k < |insns| ==> insns[k] == Scan(d, next).insns[k - 1];
    }
  }

  /** With every record at its own address, each instruction of a scan is the record at its address. */
  lemma ScanRecordsAt(d: Listing, start: Address)
    requires Coherent(d)
    ensures forall k :: 0 <= k < |Scan(d, start).insns| ==>
      var insn := Scan(d, start).insns[k]; insn.address in d && d[insn.address] == insn
  {
    ScanRecords(d, start);
  }

  /**
   * A block scan starts at `start`, and each of its instructions but the last
   * is neither a return nor a jump and is followed by the instruction right
   * after its extent.
   */
  lemma {:induction false} ScanConsecutive(d: Listing, start: Address)
    requires Coherent(d)
    ensures var r := Scan(d, start);
      (|r.insns| > 0 ==> r.insns[0].address == start) &&
      (forall k :: 0 <= k < |r.insns| - 1 ==>
        !EndsRun(r.insns[k]) && r.insns[k + 1].address == r.insns[k].address + r.insns[k].size)
    decreases |CodeAtOrAbove(d, start)|
  {
    if start in d && !EndsRun(d[start]) {
      ScanProgress(d, start);
      var next := start + d[start].size;
      ScanConsecutive(d, next);
      var rest := Scan(d, next).insns;
      var insns := [d[start]] + rest;
      assert Scan(d, start).insns == insns;
      assert forall k :: 1 <= k < |insns| ==> insns[k] == rest[k - 1];
    }
  }

  /**
   * Where a block scan stops: at `start` when it is not code; at the last
   * instruction when that is a return or jumps; otherwise at the first
   * address past the last instruction, which is not code.
   */
  lemma {:induction false} ScanStop(d: Listing, start: Address)
    requires Coherent(d)
    ensures var r := Scan(d, start);
      (r.insns == [] ==> r.stop == start && start !in d) &&
      (r.insns != [] && EndsRun(r.insns[|r.insns| - 1]) ==> r.stop == r.insns[|r.insns| - 1].address) &&
      (r.insns != [] && !EndsRun(r.insns[|r.insns| - 1]) ==>
        r.stop == r.insns[|r.insns| - 1].address + r.insns[|r.insns| - 1].size && r.stop !in d)
    decreases |CodeAtOrAbove(d, start)|
  {
    if start in d && !EndsRun(d[start]) {
      ScanProgress(d, start);
      var next := start + d[start].size;
      ScanStop(d, next);
      var rest := Scan(d, next);
      assert Scan(d, start) == Run([d[start]] + rest.insns, rest.stop, rest.follow);
    }
  }

  /** The references a block scan follows are those of a final jumping instruction. */
  lemma {:induction false} ScanFollow(d: Listing, start: Address)
    ensures var r := Scan(d, start);
      r.follow == if JumpsAtEnd(r) then r.insns[|r.insns| - 1].crefFrom else []
    decreases |CodeAtOrAbove(d, start)|
  {
    if start in d && !EndsRun(d[start]) {
      ScanProgress(d, start);
      var next := start + d[start].size;
      ScanFollow(d, next);
      var rest := Scan(d, next);
      assert Scan(d, start) == Run([d[start]] + rest.insns, rest.stop, rest.follow);
      if rest.insns == [] {
        assert Scan(d, start).insns == [d[start]];
      } else {
        assert Scan(d, start).insns[|Scan(d, start).insns| - 1] == rest.insns[|rest.insns| - 1];
      }
    }
  }

  /**
   * The inner loop over the references of a jumping instruction, from
   * reference `k` on: each non-`Call` target not yet in `block_starts` is
   * added there and appended to the worklist.
   */
  function EnqueueFrom(list: seq<Address>, starts: set<Address>, crefs: seq<CodeRef>, k: nat): (seq<Address>, set<Address>)
    requires k <= |crefs|
    decreases |crefs| - k
  {
    if k == |crefs| then (list, starts)
    else if crefs[k].kind != Call && crefs[k].target !in starts then
      EnqueueFrom(list + [crefs[k].target], starts + {crefs[k].target}, crefs, k + 1)
    else EnqueueFrom(list, starts, crefs, k + 1)
  }

  /** A scan with `pre` already decoded in front of it. */
  function Glue(pre: seq<Instruction>, r: Run): Run {
    Run(pre + r.insns, r.stop, r.follow)
  }

  /** At a non-code address the scan with `pre` in front is complete. */
  lemma ScanOff(d: Listing, start: Address, pre: seq<Instruction>, a: Address)
    requires Glue(pre, Scan(d, a)) == Scan(d, start) && a !in d
    ensures Scan(d, start) == Run(pre, a, [])
  {
    assert pre + [] == pre;
  }

  /** At a return or a jumping instruction the scan with `pre` in front is complete. */
  lemma ScanEnds(d: Listing, start: Address, pre: seq<Instruction>, a: Address)
    requires Glue(pre, Scan(d, a)) == Scan(d, start) && a in d && EndsRun(d[a])
    ensures Scan(d, start) == Run(pre + [d[a]], a, if IsReturn(d[a]) then [] else d[a].crefFrom)
  {
  }

  /** At any other instruction the scan goes on right after its extent. */
  lemma ScanOn(d: Listing, start: Address, pre: seq<Instruction>, a: Address)
    requires Glue(pre, Scan(d, a)) == Scan(d, start) && a in d && !EndsRun(d[a])
    ensures |CodeAtOrAbove(d, a + d[a].size)| < |CodeAtOrAbove(d, a)|
    ensures Glue(pre + [d[a]], Scan(d, a + d[a].size)) == Scan(d, start)
  {
    ScanProgress(d, a);
    var rest := Scan(d, a + d[a].size);
    assert Scan(d, a) == Run([d[a]] + rest.insns, rest.stop, rest.follow);
    assert pre + ([d[a]] + rest.insns) == (pre + [d[a]]) + rest.insns;
  }

  /** A return gets no `crefs_map` entry. */
  lemma RecordReturn(mode: Mode, m: map<Address, seq<Address>>, pre: seq<Instruction>, insn: Instruction)
    requires IsReturn(insn)
    ensures RecordAll(mode, m, pre + [insn]) == RecordAll(mode, m, pre)
  {
    assert (pre + [insn])[..|pre|] == pre;
  }

  /** Any other instruction gets its own `crefs_map` entry. */
  lemma RecordEntry(mode: Mode, m: map<Address, seq<Address>>, pre: seq<Instruction>, insn: Instruction)
    requires !IsReturn(insn)
    ensures RecordAll(mode, m, pre + [insn]) ==
      RecordAll(mode, m, pre)[insn.address := if mode == MapMode then NonCallTargets(insn.crefFrom) else []]
  {
    assert (pre + [insn])[..|pre|] == pre;
  }

  /**
   * Enqueuing keeps what was queued and started, appends exactly the targets
   * it adds to `block_starts`, each once, and adds only non-`Call` targets of
   * references from `k` on.
   */
  lemma {:induction false} EnqueueFromShape(list: seq<Address>, starts: set<Address>, crefs: seq<CodeRef>, k: nat)
    requires k <= |crefs|
    ensures var r := EnqueueFrom(list, starts, crefs, k);
      starts <= r.1 && |list| <= |r.0| && r.0[..|list|] == list &&
      (forall x :: x in r.0[|list|..] <==> x in r.1 && x !in starts) &&
      (forall p, q :: |list| <= p < q < |r.0| ==> r.0[p] != r.0[q]) &&
      (forall x :: x in r.1 && x !in starts ==>
        exists j :: k <= j < |crefs| && crefs[j].kind != Call && crefs[j].target == x)
    decreases |crefs| - k
  {
    if k < |crefs| {
      if crefs[k].kind != Call && crefs[k].target !in starts {
        var t := crefs[k].target;
        EnqueueFromShape(list + [t], starts + {t}, crefs, k + 1);
        var r := EnqueueFrom(list + [t], starts + {t}, crefs, k + 1);
        assert r.0[..|list|] == list by {
          assert r.0[..|list| + 1] == list + [t];
          assert r.0[..|list|] == r.0[..|list| + 1][..|list|];
        }
        assert forall x :: x in r.0[|list|..] <==> x == t || x in r.0[|list| + 1..] by {
          assert r.0[|list|..] == [t] + r.0[|list| + 1..];
        }
      } else {
        EnqueueFromShape(list, starts, crefs, k + 1);
      }
    } else {
      assert list[|list|..] == [];
    }
  }

  /**
   * The `crefs_map` entry of one visited instruction: none for a return,
   * otherwise its non-`Call` targets in `'Map'` mode and an empty list in the
   * other modes.
   */
  function RecordCrefs(mode: Mode, m: map<Address, seq<Address>>, insn: Instruction): map<Address, seq<Address>> {
    if IsReturn(insn) then m
    else m[insn.address := if mode == MapMode then NonCallTargets(insn.crefFrom) else []]
  }

  /** The `crefs_map` entries of a sequence of visited instructions, in order. */
  function RecordAll(mode: Mode, m: map<Address, seq<Address>>, insns: seq<Instruction>): map<Address, seq<Address>>
    decreases |insns|
  {
    if insns == [] then m
    else RecordCrefs(mode, RecordAll(mode, m, insns[..|insns| - 1]), insns[|insns| - 1])
  }


  /**
   * The worklist and `block_starts` after a block: a final jumping
   * instruction queues its new targets; otherwise both stay as they were.
   */
  function Enqueued(w: Walk, run: Run): (seq<Address>, set<Address>) {
    EnqueueFrom(w.list, w.starts, run.follow, 0)
  }

  /**
   * The walk after one block: the block scan is visited, its instructions get
   * their `crefs_map` entries, a final jumping instruction queues its new
   * targets, and in `'Block'` mode the start and the stop address go to
   * `block_starts` and `block_ends`.
   */
  function Visit(d: Listing, mode: Mode, filter: Option<Filter>, w: Walk, start: Address): Walk {
    var run := Scan(d, start);
    var q := Enqueued(w, run);
    var w1 := Walk(q.0, q.1, w.ends, RecordAll(mode, w.crefs, run.insns), w.instructions + Select(filter, run.insns));
    if mode == BlockMode then w1.(starts := q.1 + {start}, ends := w.ends + {run.stop})
    else w1
  }

  /** The addresses of a list, as a set. */
  function SetOf(s: seq<Address>): set<Address> {
    set x | x in s
  }

  lemma SetOfAppend(s: seq<Address>, t: seq<Address>)
    ensures SetOf(s + t) == SetOf(s) + SetOf(t)
  {
    assert forall x :: x in s + t <==> x in s || x in t;
  }

  /**
   * A block appends to the worklist exactly the starts it adds to
   * `block_starts`, each once.
   */
  lemma EnqueueShape(w: Walk, run: Run)
    ensures var q := Enqueued(w, run);
      |w.list| <= |q.0| && q.0 == w.list + q.0[|w.list|..] && w.starts <= q.1 &&
      SetOf(q.0[|w.list|..]) == q.1 - w.starts &&
      (forall p, p' :: |w.list| <= p < p' < |q.0| ==> q.0[p] != q.0[p'])
  {
    var q := Enqueued(w, run);
    EnqueueFromShape(w.list, w.starts, run.follow, 0);
    assert q.0 == q.0[..|w.list|] + q.0[|w.list|..];
  }

  /** The starts a block adds are targets of non-`Call` references. */
  lemma EnqueueFlow(d: Listing, w: Walk, start: Address)
    ensures var q := Enqueued(w, Scan(d, start)); q.1 - w.starts <= FlowTargets(d)
  {
    var run := Scan(d, start);
    var q := Enqueued(w, run);
    EnqueueFromShape(w.list, w.starts, run.follow, 0);
    ScanFollow(d, start);
    if JumpsAtEnd(run) {
      var last := run.insns[|run.insns| - 1];
      ScanRecords(d, start);
      assert last in d.Values;
      forall x | x in q.1 - w.starts
        ensures x in FlowTargets(d)
      {
        var j :| 0 <= j < |last.crefFrom| && last.crefFrom[j].kind != Call && last.crefFrom[j].target == x;
        assert last.crefFrom[j] in last.crefFrom;
      }
    }
  }

  /**
   * The walk's measure: the flow targets not yet in `block_starts` never grow
   * over a block, and shrink whenever the worklist grows.
   */
  lemma VisitMeasure(d: Listing, mode: Mode, filter: Option<Filter>, w: Walk, start: Address)
    ensures var r := Visit(d, mode, filter, w, start);
      w.list <= r.list &&
      |FlowTargets(d) - r.starts| <= |FlowTargets(d) - w.starts| &&
      (|r.list| > |w.list| ==> |FlowTargets(d) - r.starts| < |FlowTargets(d) - w.starts|)
  {
    var q := Enqueued(w, Scan(d, start));
    EnqueueShape(w, Scan(d, start));
    EnqueueFlow(d, w, start);
    SubsetNotLarger(FlowTargets(d) - q.1, FlowTargets(d) - w.starts);
    if |q.0| > |w.list| {
      var x := q.0[|w.list|];
      assert x in SetOf(q.0[|w.list|..]);
      SubsetSmaller(FlowTargets(d) - q.1, FlowTargets(d) - w.starts, x);
    }
    if mode == BlockMode {
      SubsetNotLarger(FlowTargets(d) - (q.1 + {start}), FlowTargets(d) - q.1);
    }
  }

  /**
   * The outer `for block_start in block_start_list` loop, from position `i`
   * on; the list may grow while it is walked.
   */
  function Work(d: Listing, mode: Mode, filter: Option<Filter>, w: Walk, i: nat): (r: Walk)
    requires i <= |w.list|
    decreases |FlowTargets(d) - w.starts|, |w.list| - i
  {
    if i == |w.list| then w
    else
      VisitMeasure(d, mode, filter, w, w.list[i]);
      Work(d, mode, filter, Visit(d, mode, filter, w, w.list[i]), i + 1)
  }

  /** One pass of the outer loop. */
  lemma WorkStep(d: Listing, mode: Mode, filter: Option<Filter>, w: Walk, i: nat)
    requires i < |w.list|
    ensures i + 1 <= |Visit(d, mode, filter, w, w.list[i]).list|
    ensures Work(d, mode, filter, w, i) == Work(d, mode, filter, Visit(d, mode, filter, w, w.list[i]), i + 1)
  {
    VisitMeasure(d, mode, filter, w, w.list[i]);
  }

  /** The walk only ever appends to the worklist. */
  lemma {:induction false} WorkExtends(d: Listing, mode: Mode, filter: Option<Filter>, w: Walk, i: nat)
    requires i <= |w.list|
    ensures w.list <= Work(d, mode, filter, w, i).list
    decreases |FlowTargets(d) - w.starts|, |w.list| - i
  {
    if i < |w.list| {
      var v := Visit(d, mode, filter, w, w.list[i]);
      WorkStep(d, mode, filter, w, i);
      VisitMeasure(d, mode, filter, w, w.list[i]);
      WorkExtends(d, mode, filter, v, i + 1);
      PrefixTrans(w.list, v.list, Work(d, mode, filter, v, i + 1).list);
    }
  }


  /** The whole first phase, from the entry of the function. */
  function FunctionWalk(d: Listing, mode: Mode, filter: Option<Filter>, entry: Address): Walk {
    Work(d, mode, filter, InitialWalk(entry), 0)
  }

  /**
   * The worklist after the seed holds flow targets only (never the target of a
   * `Call` reference alone), each at most once.
   */
  ghost predicate QueueInv(d: Listing, list: seq<Address>) {
    (forall p :: 1 <= p < |list| ==> list[p] in FlowTargets(d)) &&
    (forall p, p' :: 1 <= p < p' < |list| ==> list[p] != list[p'])
  }

  /**
   * `block_starts` holds what was queued after the seed and, in `'Block'`
   * mode, the starts already walked.
   */
  ghost predicate StartsInv(mode: Mode, list: seq<Address>, starts: set<Address>, i: nat) {
    1 <= |list| && i <= |list| &&
    starts == SetOf(list[1..]) + (if mode == BlockMode then SetOf(list[..i]) else {})
  }

  /** Appending distinct new flow targets keeps the worklist invariant. */
  lemma QueueStep(d: Listing, list: seq<Address>, added: seq<Address>, queued: set<Address>)
    requires QueueInv(d, list) && 1 <= |list| && SetOf(list[1..]) <= queued
    requires SetOf(added) <= FlowTargets(d) && SetOf(added) !! queued
    requires forall p, p' :: 0 <= p < p' < |added| ==> added[p] != added[p']
    ensures QueueInv(d, list + added)
  {
    var v := list + added;
    var n := |list|;
    forall p | 1 <= p < |v|
      ensures v[p] in FlowTargets(d)
    {
      if p >= n {
        assert v[p] == added[p - n];
        assert added[p - n] in SetOf(added);
      }
    }
    forall p, p' | 1 <= p < p' < |v|
      ensures v[p] != v[p']
    {
      if p < n && p' >= n {
        assert v[p'] == added[p' - n] && added[p' - n] in SetOf(added);
        assert list[1..][p - 1] == list[p];
        assert v[p] in SetOf(list[1..]);
      } else if p >= n {
        assert v[p] == added[p - n] && v[p'] == added[p' - n];
      }
    }
  }

  /** A block keeps the worklist after the seed made of distinct flow targets. */
  lemma VisitKeepsQueue(d: Listing, mode: Mode, filter: Option<Filter>, w: Walk, start: Address)
    requires QueueInv(d, w.list) && 1 <= |w.list| && SetOf(w.list[1..]) <= w.starts
    ensures QueueInv(d, Visit(d, mode, filter, w, start).list)
  {
    var q := Enqueued(w, Scan(d, start));
    EnqueueShape(w, Scan(d, start));
    EnqueueFlow(d, w, start);
    var added := q.0[|w.list|..];
    forall p, p' | 0 <= p < p' < |added|
      ensures added[p] != added[p']
    {
      assert added[p] == q.0[|w.list| + p] && added[p'] == q.0[|w.list| + p'];
    }
    QueueStep(d, w.list, added, w.starts);
    assert Visit(d, mode, filter, w, start).list == q.0;
  }

  /** A block keeps `block_starts` equal to what was queued (and walked, in `'Block'` mode). */
  /** Appending the new starts to the worklist keeps `StartsInv`, one position on. */
  lemma StartsStep(mode: Mode, list: seq<Address>, starts: set<Address>, i: nat, ext: seq<Address>, starts': set<Address>)
    requires i < |list| && StartsInv(mode, list, starts, i)
    requires |list| <= |ext| && ext == list + ext[|list|..] && starts <= starts'
    requires SetOf(ext[|list|..]) == starts' - starts
    ensures StartsInv(mode, ext, starts' + (if mode == BlockMode then {list[i]} else {}), i + 1)
  {
    var added := ext[|list|..];
    assert ext[1..] == list[1..] + added;
    SetOfAppend(list[1..], added);
    assert ext[..i + 1] == list[..i] + [list[i]];
    SetOfAppend(list[..i], [list[i]]);
    assert SetOf([list[i]]) == {list[i]};
  }

  lemma VisitKeepsStarts(d: Listing, mode: Mode, filter: Option<Filter>, w: Walk, i: nat)
    requires i < |w.list| && StartsInv(mode, w.list, w.starts, i)
    ensures var v := Visit(d, mode, filter, w, w.list[i]); StartsInv(mode, v.list, v.starts, i + 1)
  {
    var start := w.list[i];
    var q := Enqueued(w, Scan(d, start));
    EnqueueShape(w, Scan(d, start));
    StartsStep(mode, w.list, w.starts, i, q.0, q.1);
    var v := Visit(d, mode, filter, w, start);
    assert v.list == q.0;
    assert v.starts == q.1 + (if mode == BlockMode then {start} else {});
  }

  /** The invariants of the walk before position `i`. */
  ghost predicate Walking(d: Listing, mode: Mode, w: Walk, i: nat) {
    QueueInv(d, w.list) && StartsInv(mode, w.list, w.starts, i)
  }

  /** A block keeps the invariants, one position on. */
  lemma VisitKeeps(d: Listing, mode: Mode, filter: Option<Filter>, w: Walk, i: nat)
    requires i < |w.list| && Walking(d, mode, w, i)
    ensures Walking(d, mode, Visit(d, mode, filter, w, w.list[i]), i + 1)
  {
    VisitKeepsQueue(d, mode, filter, w, w.list[i]);
    VisitKeepsStarts(d, mode, filter, w, i);
  }

  /** One pass of the outer loop keeps the invariants, and the walk's measure does not grow. */
  lemma Advance(d: Listing, mode: Mode, filter: Option<Filter>, w: Walk, i: nat) returns (v: Walk)
    requires i < |w.list| && Walking(d, mode, w, i)
    ensures i + 1 <= |v.list| && Walking(d, mode, v, i + 1)
    ensures Work(d, mode, filter, w, i) == Work(d, mode, filter, v, i + 1)
    ensures w.list <= v.list && |FlowTargets(d) - v.starts| <= |FlowTargets(d) - w.starts|
    ensures |v.list| > |w.list| ==> |FlowTargets(d) - v.starts| < |FlowTargets(d) - w.starts|
  {
    v := Visit(d, mode, filter, w, w.list[i]);
    VisitMeasure(d, mode, filter, w, w.list[i]);
    VisitKeeps(d, mode, filter, w, i);
    WorkStep(d, mode, filter, w, i);
  }

  /** The invariants of a walk whose worklist is used up. */
  ghost predicate Walked(d: Listing, mode: Mode, w: Walk) {
    Walking(d, mode, w, |w.list|)
  }

  /** A used-up worklist ends the walk with its invariants. */
  lemma WorkDone(d: Listing, mode: Mode, filter: Option<Filter>, w: Walk, i: nat)
    requires i == |w.list| && Walking(d, mode, w, i)
    ensures Walked(d, mode, Work(d, mode, filter, w, i))
  {
    assert Work(d, mode, filter, w, i) == w;
  }

  lemma {:induction false} WorkKeepsInvariants(d: Listing, mode: Mode, filter: Option<Filter>, w: Walk, i: nat)
    requires i <= |w.list| && Walking(d, mode, w, i)
    ensures Walked(d, mode, Work(d, mode, filter, w, i))
    decreases |FlowTargets(d) - w.starts|, |w.list| - i
  {
    if i < |w.list| {
      var v := Advance(d, mode, filter, w, i);
      WorkKeepsInvariants(d, mode, filter, v, i + 1);
    } else {
      WorkDone(d, mode, filter, w, i);
    }
  }

  /**
   * The finished worklist starts with the entry; after it, every queued
   * address is the target of some non-`Call` reference and is queued at most
   * once. `block_starts` is exactly what was queued after the entry, plus
   * in `'Block'` mode every walked start, i.e. the whole list.
   */
  lemma FunctionWalkQueue(d: Listing, mode: Mode, filter: Option<Filter>, entry: Address)
    ensures var w := FunctionWalk(d, mode, filter, entry);
      |w.list| >= 1 && w.list[0] == entry &&
      (forall p :: 1 <= p < |w.list| ==> w.list[p] in FlowTargets(d)) &&
      (forall p, p' :: 1 <= p < p' < |w.list| ==> w.list[p] != w.list[p']) &&
      (mode != BlockMode ==> w.starts == SetOf(w.list[1..])) &&
      (mode == BlockMode ==> w.starts == SetOf(w.list))
  {
    var w0 := InitialWalk(entry);
    assert w0.list[1..] == [] && w0.list[..0] == [];
    WorkKeepsInvariants(d, mode, filter, w0, 0);
    WorkExtends(d, mode, filter, w0, 0);
    var w := FunctionWalk(d, mode, filter, entry);
    assert w.list[..1] == [entry];
    if mode == BlockMode {
      assert w.list[..|w.list|] == w.list;
    }
  }

  /** Two walks agree on all but their `instructions` lists: worklist, starts, ends and `crefs_map`. */
  predicate SameSkeleton(w: Walk, w': Walk) {
    w.list == w'.list && w.starts == w'.starts && w.ends == w'.ends && w.crefs == w'.crefs
  }

  /**
   * Every instruction the walk decodes from position `i` on, before the
   * filter, in visiting order.
   */
  function Trace(d: Listing, mode: Mode, w: Walk, i: nat): seq<Instruction>
    requires i <= |w.list|
    decreases |FlowTargets(d) - w.starts|, |w.list| - i
  {
    if i == |w.list| then []
    else
      VisitMeasure(d, mode, None, w, w.list[i]);
      Scan(d, w.list[i]).insns + Trace(d, mode, Visit(d, mode, None, w, w.list[i]), i + 1)
  }

  /** The filter plays no part in what a block adds to the worklist, starts, ends and `crefs_map`. */
  lemma VisitSkeleton(d: Listing, mode: Mode, f: Option<Filter>, g: Option<Filter>, w: Walk, w': Walk, start: Address)
    requires SameSkeleton(w, w')
    ensures SameSkeleton(Visit(d, mode, f, w, start), Visit(d, mode, g, w', start))
    ensures Visit(d, mode, f, w, start).instructions == w.instructions + Select(f, Scan(d, start).insns)
  {
  }

  lemma SelectStep(filter: Option<Filter>, before: seq<Instruction>, after: seq<Instruction>, run: seq<Instruction>, rest: seq<Instruction>)
    requires after == before + Select(filter, run)
    ensures after + Select(filter, rest) == before + Select(filter, run + rest)
  {
    SelectAppend(filter, run, rest);
    ConcatAssoc(before, Select(filter, run), Select(filter, rest));
  }

  /** From position `i` on, walks that differ only in their filter and records share their skeleton. */
  lemma {:induction false} WorkSkeleton(d: Listing, mode: Mode, filter: Option<Filter>, w: Walk, w': Walk, i: nat)
    requires i <= |w.list| && SameSkeleton(w, w')
    ensures SameSkeleton(Work(d, mode, filter, w, i), Work(d, mode, None, w', i))
    decreases |FlowTargets(d) - w.starts|, |w.list| - i
  {
    if i < |w.list| {
      var start := w.list[i];
      var v := Visit(d, mode, filter, w, start);
      var v' := Visit(d, mode, None, w', start);
      VisitMeasure(d, mode, filter, w, start);
      VisitSkeleton(d, mode, filter, None, w, w', start);
      WorkStep(d, mode, filter, w, i);
      WorkStep(d, mode, None, w', i);
      WorkSkeleton(d, mode, filter, v, v', i + 1);
    }
  }

  /**
   * From position `i` on, the walk with any filter records the part of the
   * unfiltered trace that passes the filter.
   */
  lemma {:induction false} WorkTrace(d: Listing, mode: Mode, filter: Option<Filter>, w: Walk, w': Walk, i: nat)
    requires i <= |w.list| && SameSkeleton(w, w')
    ensures Work(d, mode, filter, w, i).instructions == w.instructions + Select(filter, Trace(d, mode, w', i))
    decreases |FlowTargets(d) - w.starts|, |w.list| - i
  {
    if i == |w.list| {
      assert w.instructions + [] == w.instructions;
    } else {
      var start := w.list[i];
      var v := Visit(d, mode, filter, w, start);
      var v' := Visit(d, mode, None, w', start);
      VisitMeasure(d, mode, filter, w, start);
      VisitSkeleton(d, mode, filter, None, w, w', start);
      WorkStep(d, mode, filter, w, i);
      WorkTrace(d, mode, filter, v, v', i + 1);
      var run := Scan(d, start).insns;
      var rest := Trace(d, mode, v', i + 1);
      assert Trace(d, mode, w', i) == run + rest;
      SelectStep(filter, w.instructions, v.instructions, run, rest);
    }
  }

  /**
   * The filter never changes which addresses the walk visits, queues, starts
   * or ends, nor `crefs_map`; it only selects which decoded instructions are
   * recorded: exactly those of the unfiltered walk that pass it, in order.
   */
  lemma FilterOnlySelects(d: Listing, mode: Mode, filter: Option<Filter>, entry: Address)
    ensures SameSkeleton(FunctionWalk(d, mode, filter, entry), FunctionWalk(d, mode, None, entry))
    ensures FunctionWalk(d, mode, filter, entry).instructions ==
      Select(filter, FunctionWalk(d, mode, None, entry).instructions)
  {
    var w0 := InitialWalk(entry);
    WorkSkeleton(d, mode, filter, w0, w0, 0);
    WorkTrace(d, mode, filter, w0, w0, 0);
    WorkTrace(d, mode, None, w0, w0, 0);
    SelectNone(Trace(d, mode, w0, 0));
    assert [] + Trace(d, mode, w0, 0) == Trace(d, mode, w0, 0);
  }

  /** The walk has recorded only instructions of the table. */
  ghost predicate RecordsFrom(d: Listing, w: Walk) {
    forall x :: x in w.instructions ==> x in d.Values
  }

  /** From position `i` on, the walk records only instructions of the table. */
  lemma {:induction false} WorkRecords(d: Listing, mode: Mode, filter: Option<Filter>, w: Walk, i: nat)
    requires i <= |w.list| && RecordsFrom(d, w)
    ensures RecordsFrom(d, Work(d, mode, filter, w, i))
    decreases |FlowTargets(d) - w.starts|, |w.list| - i
  {
    if i < |w.list| {
      var v := Visit(d, mode, filter, w, w.list[i]);
      VisitMeasure(d, mode, filter, w, w.list[i]);
      VisitRecords(d, mode, filter, w, w.list[i]);
      WorkStep(d, mode, filter, w, i);
      WorkRecords(d, mode, filter, v, i + 1);
    }
  }

  lemma VisitRecords(d: Listing, mode: Mode, filter: Option<Filter>, w: Walk, start: Address)
    requires RecordsFrom(d, w)
    ensures RecordsFrom(d, Visit(d, mode, filter, w, start))
  {
    var v := Visit(d, mode, filter, w, start);
    VisitSkeleton(d, mode, filter, filter, w, w, start);
    ScanRecords(d, start);
    SelectMembers(filter, Scan(d, start).insns);
    assert forall x :: x in v.instructions ==> x in w.instructions || x in Select(filter, Scan(d, start).insns);
  }

  /**
   * Every instruction the walk records is the table's record at its own
   * address and passes the filter.
   */
  lemma FunctionWalkRecords(d: Listing, mode: Mode, filter: Option<Filter>, entry: Address)
    requires Coherent(d)
    ensures forall x :: x in FunctionWalk(d, mode, filter, entry).instructions ==>
      x.address in d && d[x.address] == x && Match(filter, x)
  {
    WorkRecords(d, mode, None, InitialWalk(entry), 0);
    FilterOnlySelects(d, mode, filter, entry);
    SelectMembers(filter, FunctionWalk(d, mode, None, entry).instructions);
  }

  /**
   * The entry is not in `block_starts` when its own block is scanned, so a
   * jump back to it queues it a second time: the one-instruction loop `jmp`
   * to itself is walked twice, in `'Block'` mode too, where the entry is
   * marked as a start only after its block.
   */
  lemma SelfLoopWalkedTwice(j: Instruction)
    requires j.address == 0 && j.op == "jmp" && j.crefFrom == [CodeRef(Jmp, 0)]
    ensures FunctionWalk(map[0 := j], InstructionMode, None, 0).instructions == [j, j]
    ensures var w := FunctionWalk(map[0 := j], BlockMode, None, 0);
      w.instructions == [j, j] && w.starts == {0} && w.ends == {0}
  {
    var d := map[0 := j];
    assert HasJmp(j) by {
      assert j.crefFrom[0].kind == Jmp;
    }
    assert !IsReturn(j) by {
      assert j.op[..3] == "jmp";
    }
    assert Scan(d, 0) == Run([j], 0, j.crefFrom);
    assert Select(None, [j]) == [j];
    assert EnqueueFrom([0], {}, j.crefFrom, 0) == ([0, 0], {0}) by {
      assert EnqueueFrom([0], {}, j.crefFrom, 0) == EnqueueFrom([0] + [0], {} + {0}, j.crefFrom, 1);
      assert [0] + [0] == [0, 0] && {} + {0} == {0};
    }
    assert EnqueueFrom([0, 0], {0}, j.crefFrom, 0) == ([0, 0], {0}) by {
      assert EnqueueFrom([0, 0], {0}, j.crefFrom, 0) == EnqueueFrom([0, 0], {0}, j.crefFrom, 1);
    }
    var w0 := InitialWalk(0);
    forall mode | mode != MapMode
      ensures FunctionWalk(d, mode, None, 0).instructions == [j, j]
      ensures mode == BlockMode ==> FunctionWalk(d, mode, None, 0).starts == {0} && FunctionWalk(d, mode, None, 0).ends == {0}
    {
      var w1 := Visit(d, mode, None, w0, 0);
      assert w1.list == [0, 0] && w1.starts == {0} && w1.instructions == [j];
      assert mode == BlockMode ==> w1.ends == {0};
      var w2 := Visit(d, mode, None, w1, 0);
      assert w2.list == [0, 0] && w2.instructions == [j, j];
      assert mode == BlockMode ==> w2.starts == {0} && w2.ends == {0};
      assert Work(d, mode, None, w0, 0) == Work(d, mode, None, w1, 1);
      assert Work(d, mode, None, w1, 1) == Work(d, mode, None, w2, 2);
    }
  }
}
