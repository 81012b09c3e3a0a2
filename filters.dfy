/**
 * Instruction filters (`GetFilter`, `MatchInstructionFilter`): a predicate over
 * an instruction's mnemonic and the category of its operands.
 */
module Filters {
  import opened Wrappers
  import opened Model

  /**
   * A filter dictionary: the optional `'Op'` key (the admitted mnemonics) and
   * the optional `'Target'` key (an operand category).
   */
  datatype Filter = Filter(ops: Option<seq<string>>, target: Option<string>)

  /** `GetFilter(type)`: the four named filters; any other name gives `{}`. */
  function GetFilter(kind: string): Filter {
    if kind == "CallToSection" then Filter(Some(["call"]), Some("Section"))
    else if kind == "IndirectCall" then Filter(Some(["call", "jmp"]), Some("Indirect"))
    else if kind == "Pointer" then Filter(Some(["mov"]), Some("Pointer"))
    else if kind == "DisplacementCall" then Filter(Some(["call"]), Some("Displacement"))
    else Filter(None, None)
  }

  predicate HasDisplacement(operands: seq<Operand>) {
    exists i :: 0 <= i < |operands| && operands[i].kind.Displacement?
  }

  predicate HasImmediate(operands: seq<Operand>) {
    exists i :: 0 <= i < |operands| && operands[i].kind.Immediate?
  }

  /** A displacement operand whose base is not a stack register. */
  predicate IsPointer(op: Operand) {
    op.kind.Displacement? && op.kind.base != "esp" && op.kind.base != "ebp"
  }

  predicate HasPointer(operands: seq<Operand>) {
    exists i :: 0 <= i < |operands| && IsPointer(operands[i])
  }

  /** A register, a displacement, or a memory operand outside the `_idata` section. */
  predicate IsIndirect(op: Operand) {
    op.kind.Register? || (op.kind.Memory? && op.kind.segment != "_idata") || op.kind.Displacement?
  }

  /** The `'Target'` test: which operand category the value names. */
  predicate TargetMatches(target: string, operands: seq<Operand>) {
    if target == "Displacement" then HasDisplacement(operands)
    else if target == "Immediate" then HasImmediate(operands)
    else if target == "Pointer" then HasPointer(operands)
    else if target == "Indirect" then |operands| > 0 && IsIndirect(operands[0])
    else if target == "Section" then |operands| > 0 && operands[0].kind.Memory?
    else false
  }

  /**
   * `MatchInstructionFilter` with the first-operand tests taken as false on an
   * instruction that has no operands.
   */
  predicate Match(filter: Option<Filter>, insn: Instruction) {
    match filter
    case None => true
    case Some(f) =>
      (f.ops.None? || insn.op in f.ops.value) &&
      (f.target.None? || TargetMatches(f.target.value, insn.operands))
  }

  /**
   * `MatchInstructionFilter` as written: the `'Indirect'` and `'Section'`
   * tests index `Operands[0]` unguarded, which raises on an instruction
   * without operands once the `'Op'` test has passed.
   */
  function MatchAsWritten(filter: Option<Filter>, insn: Instruction): Result<bool, Fault> {
    match filter
    case None => Success(true)
    case Some(f) =>
      if f.ops.Some? && insn.op !in f.ops.value then Success(false)
      else if f.target.None? then Success(true)
      else if (f.target.value == "Indirect" || f.target.value == "Section") && |insn.operands| == 0 then
        Failure(MissingOperand(insn.address))
      else Success(TargetMatches(f.target.value, insn.operands))
  }

  /**
   * The code as written agrees with `Match` wherever it returns, and it fails
   * exactly on an operand-less instruction checked against a first-operand target.
   */
  lemma MatchAsWrittenAgrees(filter: Option<Filter>, insn: Instruction)
    ensures MatchAsWritten(filter, insn).Success? ==> MatchAsWritten(filter, insn).value == Match(filter, insn)
    ensures MatchAsWritten(filter, insn).Failure? <==>
      filter.Some? && (filter.value.ops.None? || insn.op in filter.value.ops.value) &&
      filter.value.target in {Some("Indirect"), Some("Section")} && |insn.operands| == 0
  {
  }

  /** `nop` checked against `{'Target': 'Section'}` raises in the code as written. */
  lemma SectionFilterOnNopFails(insn: Instruction)
    requires insn.op == "nop" && insn.operands == []
    ensures MatchAsWritten(Some(Filter(None, Some("Section"))), insn).Failure?
    ensures !Match(Some(Filter(None, Some("Section"))), insn)
  {
  }

  /** An instruction without operands never passes a first-operand target test. */
  lemma FirstOperandTargetNeedsOperand(f: Filter, insn: Instruction)
    requires f.target == Some("Indirect") || f.target == Some("Section")
    requires insn.operands == []
    ensures !Match(Some(f), insn)
  {
  }

  /** No filter, and the empty filter, admit every instruction. */
  lemma EmptyFilterMatchesAll(insn: Instruction)
    ensures Match(None, insn)
    ensures Match(Some(Filter(None, None)), insn)
    ensures Match(Some(GetFilter("")), insn)
  {
  }

  /** A filter with an `'Op'` key admits only the listed mnemonics. */
  lemma OpKeyRestricts(f: Filter, insn: Instruction)
    requires f.ops.Some? && Match(Some(f), insn)
    ensures insn.op in f.ops.value
  {
  }

  /** A `'Target'` value outside the five known categories admits nothing. */
  lemma UnknownTargetMatchesNothing(f: Filter, insn: Instruction)
    requires f.target.Some?
    requires f.target.value !in {"Displacement", "Immediate", "Pointer", "Indirect", "Section"}
    ensures !Match(Some(f), insn)
  {
  }

  /** `g` keeps every key of `f` with the same value, and perhaps adds some. */
  predicate Extends(g: Filter, f: Filter) {
    (f.ops.Some? ==> g.ops == f.ops) && (f.target.Some? ==> g.target == f.target)
  }

  /** Adding keys to a filter only narrows the set of instructions it admits. */
  lemma ExtendingNarrows(g: Filter, f: Filter, insn: Instruction)
    requires Extends(g, f) && Match(Some(g), insn)
    ensures Match(Some(f), insn)
  {
  }

  /** What each named filter admits, in terms of the instruction. */
  lemma NamedFilters(insn: Instruction)
    ensures Match(Some(GetFilter("CallToSection")), insn) <==>
      insn.op == "call" && |insn.operands| > 0 && insn.operands[0].kind.Memory?
    ensures Match(Some(GetFilter("IndirectCall")), insn) <==>
      (insn.op == "call" || insn.op == "jmp") && |insn.operands| > 0 && IsIndirect(insn.operands[0])
    ensures Match(Some(GetFilter("Pointer")), insn) <==>
      insn.op == "mov" && exists i :: 0 <= i < |insn.operands| && IsPointer(insn.operands[i])
    ensures Match(Some(GetFilter("DisplacementCall")), insn) <==>
      insn.op == "call" && exists i :: 0 <= i < |insn.operands| && insn.operands[i].kind.Displacement?
  {
  }

  /** The instructions of `s` that pass the filter, in order: what the source appends to `instructions`. */
  function Select(filter: Option<Filter>, s: seq<Instruction>): seq<Instruction> {
    if s == [] then []
    else (if Match(filter, s[0]) then [s[0]] else []) + Select(filter, s[1..])
  }

  /** The selection is no longer than the list and holds exactly its members that pass the filter. */
  lemma {:induction false} SelectMembers(filter: Option<Filter>, s: seq<Instruction>)
    ensures |Select(filter, s)| <= |s|
    ensures forall x :: x in Select(filter, s) <==> x in s && Match(filter, x)
    decreases |s|
  {
    if s != [] {
      SelectMembers(filter, s[1..]);
      assert s == [s[0]] + s[1..];
    }
  }

  /** Selecting from a concatenation selects from each part. */
  lemma {:induction false} SelectAppend(filter: Option<Filter>, s: seq<Instruction>, t: seq<Instruction>)
    ensures Select(filter, s + t) == Select(filter, s) + Select(filter, t)
    decreases |s|
  {
    if s != [] {
      assert (s + t)[0] == s[0] && (s + t)[1..] == s[1..] + t;
      SelectAppend(filter, s[1..], t);
      var head := if Match(filter, s[0]) then [s[0]] else [];
      assert Select(filter, s + t) == head + (Select(filter, s[1..]) + Select(filter, t));
      assert Select(filter, s) == head + Select(filter, s[1..]);
    } else {
      assert s + t == t;
    }
  }

  /** Selecting twice with the same filter selects nothing more. */
  lemma {:induction false} SelectIdempotent(filter: Option<Filter>, s: seq<Instruction>)
    ensures Select(filter, Select(filter, s)) == Select(filter, s)
    decreases |s|
  {
    if s != [] {
      SelectIdempotent(filter, s[1..]);
      var rest := Select(filter, s[1..]);
      if Match(filter, s[0]) {
        var r := [s[0]] + rest;
        assert Select(filter, s) == r;
        assert r[0] == s[0] && r[1..] == rest;
      } else {
        assert Select(filter, s) == rest;
      }
    }
  }

  /** Without a filter every instruction is kept. */
  lemma {:induction false} SelectNone(s: seq<Instruction>)
    ensures Select(None, s) == s
    decreases |s|
  {
    if s != [] {
      SelectNone(s[1..]);
      assert s == [s[0]] + s[1..];
    }
  }

  /** `if self.MatchInstructionFilter(filter, instruction): instructions.append(instruction)`. */
  method Keep(filter: Option<Filter>, instructions: seq<Instruction>, ghost pre: seq<Instruction>, insn: Instruction)
    returns (instructions': seq<Instruction>)
    requires instructions == Select(filter, pre)
    ensures instructions' == Select(filter, pre + [insn])
  {
    instructions' := instructions;
    if Match(filter, insn) {
      instructions' := instructions' + [insn];
    }
    SelectAppend(filter, pre, [insn]);
  }
}
