/**
 * The second phase of `_GetFunctionInstructions` in `'Block'` and `'Map'`
 * mode: the recorded `instructions` list is cut into runs, a new run opening
 * at an address in `block_starts` and a run closing at an address in
 * `block_ends`; each run is yielded as a block or as its `crefs_map` edges.
 */
module Partition {
  import opened Model
  import Seqs

  /** The concatenation of a list of runs. */
  function Flatten(p: seq<seq<Instruction>>): seq<Instruction> {
    if p == [] then [] else p[0] + Flatten(p[1..])
  }

  lemma FlattenCons(c: seq<Instruction>, p: seq<seq<Instruction>>)
    ensures Flatten([c] + p) == c + Flatten(p)
  {
    assert ([c] + p)[1..] == p;
  }

  /**
   * The cut from `current_block_instructions == cur` on: an instruction at a
   * block start closes the open run when it is not empty; the instruction
   * joins the open run; an instruction at a block end closes the run with it.
   * What is still open at the end is the last run.
   */
  function Chunks(s: seq<Instruction>, starts: set<Address>, ends: set<Address>, cur: seq<Instruction>): seq<seq<Instruction>>
    decreases |s|
  {
    if s == [] then (if cur == [] then [] else [cur])
    else if s[0].address in starts && cur != [] then
      if s[0].address in ends then [cur, [s[0]]] + Chunks(s[1..], starts, ends, [])
      else [cur] + Chunks(s[1..], starts, ends, [s[0]])
    else if s[0].address in ends then [cur + [s[0]]] + Chunks(s[1..], starts, ends, [])
    else Chunks(s[1..], starts, ends, cur + [s[0]])
  }

  /** The runs of a whole instruction list. */
  function Cut(s: seq<Instruction>, starts: set<Address>, ends: set<Address>): seq<seq<Instruction>> {
    Chunks(s, starts, ends, [])
  }

  /** No cut falls inside a run: only its first address may be a start, only its last an end. */
  ghost predicate Uncut(c: seq<Instruction>, starts: set<Address>, ends: set<Address>) {
    (forall j :: 1 <= j < |c| ==> c[j].address !in starts) &&
    (forall j :: 0 <= j < |c| - 1 ==> c[j].address !in ends)
  }

  /** Every boundary between two runs is a cut: the first ends at an end or the second begins at a start. */
  ghost predicate CutsBetween(p: seq<seq<Instruction>>, starts: set<Address>, ends: set<Address>)
    requires AllNonEmpty(p)
  {
    forall k :: 0 <= k < |p| - 1 ==> p[k][|p[k]| - 1].address in ends || p[k + 1][0].address in starts
  }

  /** A list of runs is a partition of `s` at the recorded starts and ends. */
  ghost predicate IsPartition(p: seq<seq<Instruction>>, s: seq<Instruction>, starts: set<Address>, ends: set<Address>) {
    Runs(p, starts, ends) && Flatten(p) == s && CutsBetween(p, starts, ends)
  }

  /** Cutting loses and reorders nothing: the runs concatenate to the open run and the rest. */
  lemma {:induction false} ChunksFlatten(s: seq<Instruction>, starts: set<Address>, ends: set<Address>, cur: seq<Instruction>)
    ensures Flatten(Chunks(s, starts, ends, cur)) == cur + s
    decreases |s|
  {
    if s == [] {
      if cur != [] {
        FlattenCons(cur, []);
      }
    } else {
      var x, rest := s[0], s[1..];
      assert s == [x] + rest;
      if x.address in starts && cur != [] {
        if x.address in ends {
          ChunksFlatten(rest, starts, ends, []);
          var r := Chunks(rest, starts, ends, []);
          assert [cur, [x]] + r == [cur] + ([[x]] + r);
          FlattenCons([x], r);
          FlattenCons(cur, [[x]] + r);
        } else {
          ChunksFlatten(rest, starts, ends, [x]);
          FlattenCons(cur, Chunks(rest, starts, ends, [x]));
        }
      } else if x.address in ends {
        ChunksFlatten(rest, starts, ends, []);
        FlattenCons(cur + [x], Chunks(rest, starts, ends, []));
      } else {
        ChunksFlatten(rest, starts, ends, cur + [x]);
      }
    }
  }

  /** A non-empty open run is the beginning of the first run. */
  lemma {:induction false} ChunksHead(s: seq<Instruction>, starts: set<Address>, ends: set<Address>, cur: seq<Instruction>)
    requires cur != []
    ensures Chunks(s, starts, ends, cur) != [] && cur <= Chunks(s, starts, ends, cur)[0]
    decreases |s|
  {
    if s != [] && s[0].address !in starts && s[0].address !in ends {
      ChunksHead(s[1..], starts, ends, cur + [s[0]]);
    }
  }

  /** Every run is non-empty and has no start or end inside it. */
  ghost predicate Runs(p: seq<seq<Instruction>>, starts: set<Address>, ends: set<Address>) {
    forall k :: 0 <= k < |p| ==> p[k] != [] && Uncut(p[k], starts, ends)
  }

  lemma RunsCons(c: seq<Instruction>, p: seq<seq<Instruction>>, starts: set<Address>, ends: set<Address>)
    requires c != [] && Uncut(c, starts, ends) && Runs(p, starts, ends)
    ensures Runs([c] + p, starts, ends)
  {
    assert forall k :: 1 <= k < |p| + 1 ==> ([c] + p)[k] == p[k - 1];
  }

  /** An open run extended by an instruction that is not a start stays uncut. */
  lemma UncutSnoc(cur: seq<Instruction>, x: Instruction, starts: set<Address>, ends: set<Address>)
    requires Uncut(cur, starts, ends) && (cur != [] ==> cur[|cur| - 1].address !in ends)
    requires cur != [] ==> x.address !in starts
    ensures Uncut(cur + [x], starts, ends)
  {
  }

  /** Every run is non-empty and has no start or end inside it. */
  lemma {:induction false} ChunksRuns(s: seq<Instruction>, starts: set<Address>, ends: set<Address>, cur: seq<Instruction>)
    requires Uncut(cur, starts, ends) && (cur != [] ==> cur[|cur| - 1].address !in ends)
    ensures Runs(Chunks(s, starts, ends, cur), starts, ends)
    decreases |s|
  {
    if s == [] {
      if cur != [] {
        RunsCons(cur, [], starts, ends);
      }
    } else {
      var x, rest := s[0], s[1..];
      if x.address in starts && cur != [] {
        if x.address in ends {
          ChunksRuns(rest, starts, ends, []);
          var r := Chunks(rest, starts, ends, []);
          RunsCons([x], r, starts, ends);
          RunsCons(cur, [[x]] + r, starts, ends);
          assert [cur, [x]] + r == [cur] + ([[x]] + r);
        } else {
          ChunksRuns(rest, starts, ends, [x]);
          RunsCons(cur, Chunks(rest, starts, ends, [x]), starts, ends);
        }
      } else if x.address in ends {
        UncutSnoc(cur, x, starts, ends);
        ChunksRuns(rest, starts, ends, []);
        RunsCons(cur + [x], Chunks(rest, starts, ends, []), starts, ends);
      } else {
        UncutSnoc(cur, x, starts, ends);
        ChunksRuns(rest, starts, ends, cur + [x]);
      }
    }
  }

  /** Prepending a run closed by a cut keeps every boundary a cut. */
  lemma CutsCons(c: seq<Instruction>, p: seq<seq<Instruction>>, starts: set<Address>, ends: set<Address>)
    requires c != [] && AllNonEmpty(p) && CutsBetween(p, starts, ends)
    requires p != [] ==> c[|c| - 1].address in ends || p[0][0].address in starts
    ensures AllNonEmpty([c] + p) && CutsBetween([c] + p, starts, ends)
  {
    assert forall k :: 1 <= k < |p| + 1 ==> ([c] + p)[k] == p[k - 1];
  }

  /** Every boundary between two runs is a cut. */
  lemma {:induction false} ChunksCuts(s: seq<Instruction>, starts: set<Address>, ends: set<Address>, cur: seq<Instruction>)
    requires Uncut(cur, starts, ends) && (cur != [] ==> cur[|cur| - 1].address !in ends)
    ensures var p := Chunks(s, starts, ends, cur);
      AllNonEmpty(p) && CutsBetween(p, starts, ends)
    decreases |s|
  {
    ChunksRuns(s, starts, ends, cur);
    if s != [] {
      var x, rest := s[0], s[1..];
      if x.address in starts && cur != [] {
        if x.address in ends {
          ChunksCuts(rest, starts, ends, []);
          var r := Chunks(rest, starts, ends, []);
          CutsCons([x], r, starts, ends);
          CutsCons(cur, [[x]] + r, starts, ends);
          assert [cur, [x]] + r == [cur] + ([[x]] + r);
        } else {
          ChunksCuts(rest, starts, ends, [x]);
          ChunksHead(rest, starts, ends, [x]);
          var r := Chunks(rest, starts, ends, [x]);
          assert r[0][0] == x;
          CutsCons(cur, r, starts, ends);
        }
      } else if x.address in ends {
        UncutSnoc(cur, x, starts, ends);
        ChunksCuts(rest, starts, ends, []);
        CutsCons(cur + [x], Chunks(rest, starts, ends, []), starts, ends);
      } else {
        UncutSnoc(cur, x, starts, ends);
        ChunksCuts(rest, starts, ends, cur + [x]);
      }
    }
  }

  /**
   * The runs are non-empty, their concatenation is the instruction list in
   * order, a run opens only at the first instruction or where the previous
   * run closed at an end or it begins at a start, and there is no start or
   * end inside a run.
   */
  lemma CutPartition(s: seq<Instruction>, starts: set<Address>, ends: set<Address>)
    ensures IsPartition(Cut(s, starts, ends), s, starts, ends)
  {
    ChunksFlatten(s, starts, ends, []);
    ChunksRuns(s, starts, ends, []);
    ChunksCuts(s, starts, ends, []);
    assert [] + s == s;
  }

  /** The first run of a partition is a prefix of the list, and the rest partitions the remainder. */
  lemma PartitionTail(p: seq<seq<Instruction>>, s: seq<Instruction>, starts: set<Address>, ends: set<Address>)
    requires IsPartition(p, s, starts, ends) && p != []
    ensures |p[0]| <= |s| && s[..|p[0]|] == p[0]
    ensures IsPartition(p[1..], s[|p[0]|..], starts, ends)
    ensures |p| > 1 ==> |p[0]| < |s| && p[1][0] == s[|p[0]|]
  {
    FlattenCons(p[0], p[1..]);
    assert p == [p[0]] + p[1..];
    var t := p[1..];
    assert forall k :: 0 <= k < |t| ==> t[k] == p[k + 1];
    if |p| > 1 {
      FlattenCons(t[0], t[1..]);
      assert t == [t[0]] + t[1..];
    }
  }

  /** A partition is empty exactly when the list is. */
  lemma PartitionEmpty(p: seq<seq<Instruction>>, s: seq<Instruction>, starts: set<Address>, ends: set<Address>)
    requires IsPartition(p, s, starts, ends)
    ensures p == [] <==> s == []
  {
    if p != [] {
      FlattenCons(p[0], p[1..]);
      assert p == [p[0]] + p[1..];
    }
  }

  /** No cut falls inside the first run of a partition. */
  lemma NoCutInside(p: seq<seq<Instruction>>, s: seq<Instruction>, starts: set<Address>, ends: set<Address>)
    requires IsPartition(p, s, starts, ends) && p != []
    ensures forall j :: 1 <= j < |p[0]| ==> s[j].address !in starts
    ensures forall j :: 0 <= j < |p[0]| - 1 ==> s[j].address !in ends
  {
    PartitionTail(p, s, starts, ends);
    assert Uncut(p[0], starts, ends);
  }

  /** Where the first run of a partition stops short of the end of the list, a cut falls. */
  lemma CutAfterFirst(p: seq<seq<Instruction>>, s: seq<Instruction>, starts: set<Address>, ends: set<Address>)
    requires IsPartition(p, s, starts, ends) && p != [] && |p[0]| < |s|
    ensures s[|p[0]| - 1].address in ends || s[|p[0]|].address in starts
  {
    PartitionTail(p, s, starts, ends);
    PartitionEmpty(p[1..], s[|p[0]|..], starts, ends);
    assert p[0][|p[0]| - 1] == s[|p[0]| - 1];
  }

  /** The first run of a partition is no longer than the first run of another. */
  lemma FirstRunLength(p: seq<seq<Instruction>>, q: seq<seq<Instruction>>, s: seq<Instruction>, starts: set<Address>, ends: set<Address>)
    requires IsPartition(p, s, starts, ends) && IsPartition(q, s, starts, ends) && p != [] && q != []
    ensures |p[0]| <= |q[0]|
  {
    PartitionTail(p, s, starts, ends);
    PartitionTail(q, s, starts, ends);
    NoCutInside(p, s, starts, ends);
    if |q[0]| < |s| {
      CutAfterFirst(q, s, starts, ends);
    }
  }

  /**
   * The cut at the recorded starts and ends is the only partition with these
   * properties: two partitions of one list are equal.
   */
  lemma {:induction false} PartitionUnique(p: seq<seq<Instruction>>, q: seq<seq<Instruction>>, s: seq<Instruction>, starts: set<Address>, ends: set<Address>)
    requires IsPartition(p, s, starts, ends) && IsPartition(q, s, starts, ends)
    ensures p == q
    decreases |s|
  {
    PartitionEmpty(p, s, starts, ends);
    PartitionEmpty(q, s, starts, ends);
    if s != [] {
      FirstRunLength(p, q, s, starts, ends);
      FirstRunLength(q, p, s, starts, ends);
      PartitionTail(p, s, starts, ends);
      PartitionTail(q, s, starts, ends);
      assert p[0] == q[0];
      PartitionUnique(p[1..], q[1..], s[|p[0]|..], starts, ends);
      assert p == [p[0]] + p[1..] && q == [q[0]] + q[1..];
    }
  }

  /** So any partition at the recorded starts and ends is the cut. */
  lemma PartitionIsCut(p: seq<seq<Instruction>>, s: seq<Instruction>, starts: set<Address>, ends: set<Address>)
    requires IsPartition(p, s, starts, ends)
    ensures p == Cut(s, starts, ends)
  {
    CutPartition(s, starts, ends);
    PartitionUnique(p, Cut(s, starts, ends), s, starts, ends);
  }

  /** What the second phase yields: a block with its instructions, or one `crefs_map` edge of a block. */
  datatype Yielded =
    | BlockOut(start: Address, end: Address, insns: seq<Instruction>)
    | EdgeOut(src: Address, srcEnd: Address, dst: Address)

  /** The edges of one block, one per entry of its last address in `crefs_map`. */
  function EdgesFrom(start: Address, end: Address, dsts: seq<Address>): (r: seq<Yielded>)
    ensures |r| == |dsts|
    ensures forall k :: 0 <= k < |r| ==> r[k] == EdgeOut(start, end, dsts[k])
  {
    seq(|dsts|, k requires 0 <= k < |dsts| => EdgeOut(start, end, dsts[k]))
  }

  /**
   * What one run yields: in `'Map'` mode an edge from its first address to
   * each target recorded for its last address (none when that has no entry);
   * otherwise the run as a block from its first to its last address.
   */
  function Emit(mode: Mode, crefs: map<Address, seq<Address>>, run: seq<Instruction>): seq<Yielded>
    requires run != []
  {
    var start, end := run[0].address, run[|run| - 1].address;
    if mode == MapMode then (if end in crefs then EdgesFrom(start, end, crefs[end]) else [])
    else [BlockOut(start, end, run)]
  }

  /** What a list of runs yields, run after run. */
  function EmitAll(mode: Mode, crefs: map<Address, seq<Address>>, runs: seq<seq<Instruction>>): seq<Yielded>
    requires AllNonEmpty(runs)
    decreases |runs|
  {
    if runs == [] then []
    else EmitAll(mode, crefs, runs[..|runs| - 1]) + Emit(mode, crefs, runs[|runs| - 1])
  }

  /** In `'Block'` mode each run is yielded as one block, from its first to its last address, in order. */
  lemma {:induction false} EmitBlocks(crefs: map<Address, seq<Address>>, runs: seq<seq<Instruction>>)
    requires AllNonEmpty(runs)
    ensures |EmitAll(BlockMode, crefs, runs)| == |runs|
    ensures forall k :: 0 <= k < |runs| ==>
      EmitAll(BlockMode, crefs, runs)[k] == BlockOut(runs[k][0].address, runs[k][|runs[k]| - 1].address, runs[k])
    decreases |runs|
  {
    if runs != [] {
      var n := |runs| - 1;
      var pre := runs[..n];
      EmitBlocks(crefs, pre);
      var out := EmitAll(BlockMode, crefs, runs);
      var b := BlockOut(runs[n][0].address, runs[n][|runs[n]| - 1].address, runs[n]);
      assert out == EmitAll(BlockMode, crefs, pre) + [b];
      forall k | 0 <= k < |runs|
        ensures out[k] == BlockOut(runs[k][0].address, runs[k][|runs[k]| - 1].address, runs[k])
      {
        if k < n {
          assert pre[k] == runs[k];
        }
      }
    }
  }

  /** The run starts at `src`, ends at `end`, and `crefs_map` records `dst` for `end`. */
  predicate EdgeOfRun(crefs: map<Address, seq<Address>>, run: seq<Instruction>, src: Address, end: Address, dst: Address) {
    run != [] && run[0].address == src && run[|run| - 1].address == end && end in crefs && dst in crefs[end]
  }

  /** The edges of one run in `'Map'` mode: exactly those `EdgeOfRun` describes. */
  lemma EmitRunEdges(crefs: map<Address, seq<Address>>, run: seq<Instruction>)
    requires run != []
    ensures forall y :: y in Emit(MapMode, crefs, run) ==> y.EdgeOut? && EdgeOfRun(crefs, run, y.src, y.srcEnd, y.dst)
    ensures forall src, end, dst :: EdgeOfRun(crefs, run, src, end, dst) ==> EdgeOut(src, end, dst) in Emit(MapMode, crefs, run)
  {
    var e := Emit(MapMode, crefs, run);
    forall src, end, dst | EdgeOfRun(crefs, run, src, end, dst)
      ensures EdgeOut(src, end, dst) in e
    {
      var j :| 0 <= j < |crefs[end]| && crefs[end][j] == dst;
      assert e[j] == EdgeOut(src, end, dst);
    }
  }

  /** In `'Map'` mode every yielded value is an edge, and of some run. */
  lemma {:induction false} EmitEdgesSound(crefs: map<Address, seq<Address>>, runs: seq<seq<Instruction>>)
    requires AllNonEmpty(runs)
    ensures forall y :: y in EmitAll(MapMode, crefs, runs) ==>
      y.EdgeOut? && exists k :: 0 <= k < |runs| && EdgeOfRun(crefs, runs[k], y.src, y.srcEnd, y.dst)
    decreases |runs|
  {
    if runs != [] {
      var n := |runs| - 1;
      var pre := runs[..n];
      EmitEdgesSound(crefs, pre);
      EmitRunEdges(crefs, runs[n]);
      var e := Emit(MapMode, crefs, runs[n]);
      assert EmitAll(MapMode, crefs, runs) == EmitAll(MapMode, crefs, pre) + e;
      forall y | y in EmitAll(MapMode, crefs, runs)
        ensures y.EdgeOut? && exists k :: 0 <= k < |runs| && EdgeOfRun(crefs, runs[k], y.src, y.srcEnd, y.dst)
      {
        if y in e {
          assert EdgeOfRun(crefs, runs[n], y.src, y.srcEnd, y.dst);
        } else {
          var k :| 0 <= k < n && EdgeOfRun(crefs, pre[k], y.src, y.srcEnd, y.dst);
          assert pre[k] == runs[k];
        }
      }
    }
  }

  /** In `'Map'` mode every edge of every run is yielded. */
  lemma {:induction false} EmitEdgesComplete(crefs: map<Address, seq<Address>>, runs: seq<seq<Instruction>>, k: nat, src: Address, end: Address, dst: Address)
    requires AllNonEmpty(runs)
    requires k < |runs| && EdgeOfRun(crefs, runs[k], src, end, dst)
    ensures EdgeOut(src, end, dst) in EmitAll(MapMode, crefs, runs)
    decreases |runs|
  {
    var n := |runs| - 1;
    var pre := runs[..n];
    var y := EdgeOut(src, end, dst);
    assert AllNonEmpty(pre) by {
      forall j | 0 <= j < |pre| ensures pre[j] != [] {
        assert pre[j] == runs[j];
      }
    }
    assert EmitAll(MapMode, crefs, runs) == EmitAll(MapMode, crefs, pre) + Emit(MapMode, crefs, runs[n]);
    if k < n {
      assert pre[k] == runs[k];
      EmitEdgesComplete(crefs, pre, k, src, end, dst);
      Seqs.InConcat(y, EmitAll(MapMode, crefs, pre), Emit(MapMode, crefs, runs[n]));
    } else {
      EmitRunEdges(crefs, runs[n]);
      Seqs.InConcat(y, EmitAll(MapMode, crefs, pre), Emit(MapMode, crefs, runs[n]));
    }
  }

  /**
   * In `'Map'` mode only edges are yielded, and an edge is yielded exactly
   * when some run starts at its source, ends at its source end, and has the
   * destination among the `crefs_map` entries of that end.
   */
  lemma EmitEdges(crefs: map<Address, seq<Address>>, runs: seq<seq<Instruction>>)
    requires AllNonEmpty(runs)
    ensures forall y :: y in EmitAll(MapMode, crefs, runs) ==> y.EdgeOut?
    ensures forall src, end, dst :: EdgeOut(src, end, dst) in EmitAll(MapMode, crefs, runs) <==>
      exists k :: 0 <= k < |runs| && EdgeOfRun(crefs, runs[k], src, end, dst)
  {
    EmitEdgesSound(crefs, runs);
    forall src, end, dst, k | 0 <= k < |runs| && EdgeOfRun(crefs, runs[k], src, end, dst)
      ensures EdgeOut(src, end, dst) in EmitAll(MapMode, crefs, runs)
    {
      EmitEdgesComplete(crefs, runs, k, src, end, dst);
    }
  }

  /** The runs one instruction `x` closes, with `cur` open before it. */
  ghost function StepClosed(x: Instruction, starts: set<Address>, ends: set<Address>, cur: seq<Instruction>): seq<seq<Instruction>>
  {
    if x.address in starts && cur != [] then
      if x.address in ends then [cur, [x]] else [cur]
    else if x.address in ends then [cur + [x]]
    else []
  }

  /** The run left open after `x`. */
  ghost function StepOpen(x: Instruction, starts: set<Address>, ends: set<Address>, cur: seq<Instruction>): seq<Instruction>
  {
    if x.address in ends then []
    else if x.address in starts && cur != [] then [x]
    else cur + [x]
  }

  /** One step of the cut, spelled out for the loop that performs it. */
  lemma ChunksStep(s: seq<Instruction>, i: nat, starts: set<Address>, ends: set<Address>, cur: seq<Instruction>)
    requires i < |s|
    ensures Chunks(s[i..], starts, ends, cur) ==
      StepClosed(s[i], starts, ends, cur) + Chunks(s[i + 1..], starts, ends, StepOpen(s[i], starts, ends, cur))
  {
    assert s[i..][0] == s[i] && s[i..][1..] == s[i + 1..];
  }

  /** Closing a run appends what it yields. */
  lemma EmitSnoc(mode: Mode, crefs: map<Address, seq<Address>>, runs: seq<seq<Instruction>>, run: seq<Instruction>)
    requires AllNonEmpty(runs) && run != []
    ensures AllNonEmpty(runs + [run])
    ensures EmitAll(mode, crefs, runs + [run]) == EmitAll(mode, crefs, runs) + Emit(mode, crefs, run)
  {
    assert (runs + [run])[..|runs|] == runs;
  }

  /** Yield the open run (as a block, or as its edges in `'Map'` mode). */
  method Close(mode: Mode, crefs: map<Address, seq<Address>>, ghost runs: seq<seq<Instruction>>, out: seq<Yielded>, cur: seq<Instruction>)
    returns (ghost runs': seq<seq<Instruction>>, out': seq<Yielded>)
    requires cur != [] && AllNonEmpty(runs) && out == EmitAll(mode, crefs, runs)
    ensures runs' == runs + [cur] && AllNonEmpty(runs')
    ensures out' == EmitAll(mode, crefs, runs')
  {
    EmitSnoc(mode, crefs, runs, cur);
    runs' := runs + [cur];
    var start, end := cur[0].address, cur[|cur| - 1].address;
    if mode == MapMode {
      if end in crefs {
        out' := YieldEdges(start, end, crefs[end], out);
      } else {
        out' := out;
        Seqs.AppendEmpty(out);
      }
    } else {
      out' := out + [BlockOut(start, end, cur)];
    }
  }

  /** `for dst in crefs_map[end]: yield (start, end, dst)`. */
  method YieldEdges(start: Address, end: Address, dsts: seq<Address>, out: seq<Yielded>) returns (out': seq<Yielded>)
    ensures out' == out + EdgesFrom(start, end, dsts)
  {
    out' := out;
    for k := 0 to |dsts|
      invariant out' == out + EdgesFrom(start, end, dsts[..k])
    {
      EdgesSnoc(start, end, dsts, k);
      Seqs.ConcatAssoc(out, EdgesFrom(start, end, dsts[..k]), [EdgeOut(start, end, dsts[k])]);
      out' := out' + [EdgeOut(start, end, dsts[k])];
    }
    assert dsts[..|dsts|] == dsts;
  }

  lemma EdgesSnoc(start: Address, end: Address, dsts: seq<Address>, k: nat)
    requires k < |dsts|
    ensures EdgesFrom(start, end, dsts[..k + 1]) == EdgesFrom(start, end, dsts[..k]) + [EdgeOut(start, end, dsts[k])]
  {
    assert dsts[..k + 1] == dsts[..k] + [dsts[k]];
  }

  /** `if ea in block_starts and current_block_instructions`: close the open run before `x`. */
  method CutBefore(x: Instruction, starts: set<Address>, mode: Mode, crefs: map<Address, seq<Address>>,
                   cur: seq<Instruction>, ghost runs: seq<seq<Instruction>>, out: seq<Yielded>)
    returns (cur': seq<Instruction>, ghost runs': seq<seq<Instruction>>, out': seq<Yielded>, ghost closed: seq<seq<Instruction>>)
    requires AllNonEmpty(runs) && out == EmitAll(mode, crefs, runs)
    ensures AllNonEmpty(runs') && runs' == runs + closed && out' == EmitAll(mode, crefs, runs')
    ensures closed == (if x.address in starts && cur != [] then [cur] else [])
    ensures cur' == (if x.address in starts && cur != [] then [x] else cur + [x])
  {
    if x.address in starts && |cur| > 0 {
      runs', out' := Close(mode, crefs, runs, out, cur);
      closed := [cur];
      cur' := [x];
    } else {
      runs', out', closed := runs, out, [];
      cur' := cur + [x];
    }
  }

  /** `if ea in block_ends`: close the run that `x` ended. */
  method CutAfter(x: Instruction, ends: set<Address>, mode: Mode, crefs: map<Address, seq<Address>>,
                  cur: seq<Instruction>, ghost runs: seq<seq<Instruction>>, out: seq<Yielded>)
    returns (cur': seq<Instruction>, ghost runs': seq<seq<Instruction>>, out': seq<Yielded>, ghost closed: seq<seq<Instruction>>)
    requires cur != [] && AllNonEmpty(runs) && out == EmitAll(mode, crefs, runs)
    ensures AllNonEmpty(runs') && runs' == runs + closed && out' == EmitAll(mode, crefs, runs')
    ensures closed == (if x.address in ends then [cur] else []) && cur' == (if x.address in ends then [] else cur)
  {
    if x.address in ends {
      runs', out' := Close(mode, crefs, runs, out, cur);
      closed := [cur];
      cur' := [];
    } else {
      runs', out', closed := runs, out, [];
      cur' := cur;
    }
  }

  /**
   * One pass of the loop over the recorded instructions, at `s[i]`: close and
   * yield the open run before a block start, add the instruction, and close
   * and yield the run after a block end.
   */
  method CutStep(s: seq<Instruction>, i: nat, starts: set<Address>, ends: set<Address>, mode: Mode,
                 crefs: map<Address, seq<Address>>, cur: seq<Instruction>, ghost runs: seq<seq<Instruction>>, out: seq<Yielded>)
    returns (cur': seq<Instruction>, ghost runs': seq<seq<Instruction>>, out': seq<Yielded>, ghost closed: seq<seq<Instruction>>)
    requires i < |s| && AllNonEmpty(runs)
    requires out == EmitAll(mode, crefs, runs)
    ensures AllNonEmpty(runs')
    ensures runs' == runs + closed
    ensures closed == StepClosed(s[i], starts, ends, cur) && cur' == StepOpen(s[i], starts, ends, cur)
    ensures out' == EmitAll(mode, crefs, runs')
  {
    var x := s[i];
    var mid: seq<Instruction>;
    ghost var runs1: seq<seq<Instruction>>;
    var out1: seq<Yielded>;
    ghost var closed1: seq<seq<Instruction>>;
    ghost var closed2: seq<seq<Instruction>>;
    mid, runs1, out1, closed1 := CutBefore(x, starts, mode, crefs, cur, runs, out);
    cur', runs', out', closed2 := CutAfter(x, ends, mode, crefs, mid, runs1, out1);
    closed := closed1 + closed2;
    Seqs.ConcatAssoc(runs, closed1, closed2);
    StepSplit(x, starts, ends, cur);
  }

  /** A step of the cut is its block-start half followed by its block-end half. */
  lemma StepSplit(x: Instruction, starts: set<Address>, ends: set<Address>, cur: seq<Instruction>)
    ensures var mid := if x.address in starts && cur != [] then [x] else cur + [x];
      StepClosed(x, starts, ends, cur) ==
        (if x.address in starts && cur != [] then [cur] else []) + (if x.address in ends then [mid] else []) &&
      StepOpen(x, starts, ends, cur) == (if x.address in ends then [] else mid)
  {
  }

  /**
   * The second phase as the source runs it, over the recorded instructions:
   * `current_block_instructions` is closed and yielded before an instruction
   * at a block start and after an instruction at a block end, and what is
   * open at the end is yielded last.
   */
  method CutAndEmit(s: seq<Instruction>, starts: set<Address>, ends: set<Address>, mode: Mode, crefs: map<Address, seq<Address>>)
    returns (out: seq<Yielded>)
    ensures CutRunsNonEmpty(s, starts, ends) && out == EmitAll(mode, crefs, Cut(s, starts, ends))
  {
    CutPartition(s, starts, ends);
    ghost var runs: seq<seq<Instruction>> := [];
    var cur: seq<Instruction> := [];
    out := [];
    for i := 0 to |s|
      invariant AllNonEmpty(runs)
      invariant runs + Chunks(s[i..], starts, ends, cur) == Cut(s, starts, ends)
      invariant out == EmitAll(mode, crefs, runs)
    {
      ghost var closed, runs0, cur0 := [], runs, cur;
      cur, runs, out, closed := CutStep(s, i, starts, ends, mode, crefs, cur, runs, out);
      ChunksStep(s, i, starts, ends, cur0);
      Seqs.ConcatAssoc(runs0, closed, Chunks(s[i + 1..], starts, ends, cur));
    }
    assert s[|s|..] == [];
    if |cur| > 0 {
      runs, out := Close(mode, crefs, runs, out, cur);
    } else {
      assert runs + [] == runs;
    }
    assert runs == Cut(s, starts, ends);
  }

  /** The runs of the cut are non-empty. */
  /** Every run holds an instruction. */
  predicate AllNonEmpty(runs: seq<seq<Instruction>>) {
    forall k :: 0 <= k < |runs| ==> runs[k] != []
  }

  ghost predicate CutRunsNonEmpty(s: seq<Instruction>, starts: set<Address>, ends: set<Address>) {
    AllNonEmpty(Cut(s, starts, ends))
  }
}
