/**
 * The instruction record (`GetInstruction`): one decoded instruction, with its
 * operands enumerated up to the first void one, the indirect-call flag, and
 * reserved names blanked, returned only when it passes the filter.
 */
module Instructions {
  import opened Wrappers
  import opened Text
  import opened Model
  import opened Backend
  import opened Operands
  import opened Filters
  import Seqs

  /** The number of operand slots of a decoded instruction (`range(0, 6, 1)`). */
  const MaxOperands: nat := 6

  /** Operand slot `i` of an item; slots past the reported operands are void. */
  function RawAt(item: CodeItem, i: nat): RawOperand {
    if i < |item.operands| then item.operands[i]
    else RawOperand(OVoid, DtByte, 0, 0, 0, 0, 0, 0)
  }

  /** `feature & CF_USEn`: operand `i` is read. */
  predicate UseFlag(f: Feature, i: nat) {
    i < |f.uses| && f.uses[i]
  }

  /** `feature & CF_CHGn`: operand `i` is written. */
  predicate ChgFlag(f: Feature, i: nat) {
    i < |f.changes| && f.changes[i]
  }

  /** A decoded operand with the `Use`, `Chg` and `Position` keys of slot `j`. */
  function Annotate(o: Operand, f: Feature, j: nat): Operand {
    o.(use := UseFlag(f, j), chg := ChgFlag(f, j), position := j)
  }

  /** Operand slot `j` decoded, with its `Use`, `Chg` and `Position` keys; `None` when void. */
  function Slot(b: Backend, item: CodeItem, j: nat): (r: Option<Operand>)
    ensures r.None? <==> RawAt(item, j).opType == OVoid
    ensures r.Some? ==>
      r.value.position == j && r.value.use == UseFlag(item.feature, j) &&
      r.value.chg == ChgFlag(item.feature, j) && r.value.dataType == RawAt(item, j).dtyp
  {
    match GetOperand(b, RawAt(item, j))
    case None => None
    case Some(o) => Some(Annotate(o, item.feature, j))
  }

  /** The operand slots of an item, decoded. */
  function Slots(b: Backend, item: CodeItem): (r: seq<Option<Operand>>)
    ensures |r| == MaxOperands
  {
    seq(MaxOperands, j requires 0 <= j < MaxOperands => Slot(b, item, j))
  }

  lemma SlotsAt(b: Backend, item: CodeItem, j: nat)
    requires j < MaxOperands
    ensures Slots(b, item)[j] == Slot(b, item, j)
  {
  }

  /** The decoded slots from `i` on, up to the first void one or the last slot. */
  function TakeSlots(slots: seq<Option<Operand>>, i: nat): (ops: seq<Operand>)
    requires i <= |slots|
    ensures i + |ops| <= |slots|
    decreases |slots| - i
  {
    if i == |slots| then []
    else
      match slots[i]
      case None => []
      case Some(o) => [o] + TakeSlots(slots, i + 1)
  }

  /** The `Operands` key: the decoded slots before the first void one. */
  function DecodeOperands(b: Backend, item: CodeItem): seq<Operand> {
    TakeSlots(Slots(b, item), 0)
  }

  /**
   * The list taken from slot `i` on is exactly the slots before the first
   * void one: element `k` is slot `i + k`, and the slot after the list is
   * void (or there is none).
   */
  lemma {:induction false} OperandsShape(slots: seq<Option<Operand>>, i: nat)
    requires i <= |slots|
    ensures var ops := TakeSlots(slots, i);
      (forall k :: 0 <= k < |ops| ==> slots[i + k] == Some(ops[k])) &&
      (i + |ops| < |slots| ==> slots[i + |ops|].None?)
    decreases |slots| - i
  {
    if i < |slots| && slots[i].Some? {
      OperandsShape(slots, i + 1);
      var rest := TakeSlots(slots, i + 1);
      var ops := [slots[i].value] + rest;
      assert TakeSlots(slots, i) == ops;
      forall k | 0 <= k < |ops|
        ensures slots[i + k] == Some(ops[k])
      {
        if k > 0 {
          assert ops[k] == rest[k - 1] && i + k == (i + 1) + (k - 1);
        }
      }
      assert i + |ops| == (i + 1) + |rest|;
    }
  }

  /**
   * The `IsIndirectRegCall` flag: a `call` or `jmp` whose first operand is a
   * register, memory, displacement or phrase operand, and whose operand text
   * holds neither `cs:` nor `ds:`.
   */
  predicate IndirectRegCall(item: CodeItem) {
    (item.mnemonic == "call" || item.mnemonic == "jmp") &&
    RawAt(item, 0).opType in {OReg, OMem, ODispl, OPhrase} &&
    !Contains(item.operand0Text, "cs:") && !Contains(item.operand0Text, "ds:")
  }

  /** The `Name` key: the true name unless it is missing, empty or reserved. */
  function DisplayName(b: Backend, a: Address): string {
    match TrueName(b, a)
    case Some(n) => if n != "" && !b.isReserved(n) then n else ""
    case None => ""
  }

  /** The `Comment` and `Repeatable Comment` keys: the comment, or `''` when there is none. */
  function CommentText(b: Backend, a: Address, repeatable: bool): string {
    match GetComment(b, a, repeatable)
    case Some(c) => c
    case None => ""
  }

  /** The record `GetInstruction` builds at a code address, before the filter. */
  function InstructionAt(b: Backend, a: Address): Option<Instruction> {
    if !IsCode(b, a) then None
    else
      var item := b.code[a];
      Some(Instruction(
        a - b.imageBase, a, ItemSize(b, a), item.disasm, item.mnemonic,
        item.drefsFrom, item.crefsFrom, item.feature.isCall, IndirectRegCall(item),
        DecodeOperands(b, item), DisplayName(b, a),
        CommentText(b, a, false), CommentText(b, a, true)))
  }

  /** The decoded records of all code addresses. */
  function Decoded(b: Backend): (d: Listing)
    ensures forall a :: a in d <==> IsCode(b, a)
  {
    map a | a in b.code :: InstructionAt(b, a).value
  }

  /** The table holds exactly the records `GetInstruction` builds, each at its own address. */
  lemma DecodedRecords(b: Backend, a: Address)
    ensures InstructionAt(b, a) == if a in Decoded(b) then Some(Decoded(b)[a]) else None
    ensures a in Decoded(b) ==> Decoded(b)[a].address == a && Decoded(b)[a].size == ItemSize(b, a)
  {
  }

  lemma DecodedCoherent(b: Backend)
    ensures Coherent(Decoded(b))
  {
    forall a | a in Decoded(b)
      ensures Decoded(b)[a].address == a
    {
      DecodedRecords(b, a);
    }
  }

  /** `GetInstruction(current, filter)`: the record, when the address is code and it passes the filter. */
  function FilteredInstructionAt(b: Backend, a: Address, filter: Option<Filter>): Option<Instruction> {
    match InstructionAt(b, a)
    case None => None
    case Some(insn) => if Match(filter, insn) then Some(insn) else None
  }

  /** The operand loop of `GetInstruction`: decode the slots one by one until a void one. */
  method CollectOperands(b: Backend, item: CodeItem) returns (operands: seq<Operand>)
    ensures operands == DecodeOperands(b, item)
  {
    ghost var slots := Slots(b, item);
    operands := [];
    var i := 0;
    while i < MaxOperands
      invariant i <= MaxOperands
      invariant operands + TakeSlots(slots, i) == TakeSlots(slots, 0)
      decreases MaxOperands - i
    {
      SlotsAt(b, item, i);
      var o := GetOperand(b, RawAt(item, i));
      if o.None? {
        assert slots[i] == None;
        Seqs.AppendEmpty(operands);
        break;
      }
      var annotated := Annotate(o.value, item.feature, i);
      assert slots[i] == Some(annotated);
      Seqs.ConcatAssoc(operands, [annotated], TakeSlots(slots, i + 1));
      operands := operands + [annotated];
      i := i + 1;
    }
  }

  /** `GetInstruction`: the record at a code address, when it passes the filter. */
  method GetInstruction(b: Backend, current: Address, filter: Option<Filter>) returns (r: Option<Instruction>)
    ensures r == FilteredInstructionAt(b, current, filter)
  {
    if !IsCode(b, current) {
      return None;
    }
    var item := b.code[current];
    var operands := CollectOperands(b, item);
    var insn := Instruction(
      current - b.imageBase, current, ItemSize(b, current), item.disasm, item.mnemonic,
      item.drefsFrom, item.crefsFrom, item.feature.isCall, IndirectRegCall(item),
      operands, DisplayName(b, current),
      CommentText(b, current, false), CommentText(b, current, true));
    assert InstructionAt(b, current) == Some(insn);
    if Match(filter, insn) {
      r := Some(insn);
    } else {
      r := None;
    }
  }

  /**
   * What a returned record says about its address: it is a code address, the
   * record passes the filter, its RVA rebases to the address, its operands are
   * the non-void prefix of the slots with positions 0, 1, ..., and its name is
   * never a reserved one.
   */
  lemma InstructionFacts(b: Backend, a: Address, filter: Option<Filter>)
    ensures FilteredInstructionAt(b, a, filter).Some? <==> IsCode(b, a) && Match(filter, InstructionAt(b, a).value)
    ensures FilteredInstructionAt(b, a, filter).Some? ==>
      var insn := FilteredInstructionAt(b, a, filter).value;
      insn.address == a && insn.rva + b.imageBase == a &&
      |insn.operands| <= MaxOperands &&
      (forall k :: 0 <= k < |insn.operands| ==>
        insn.operands[k].position == k && RawAt(b.code[a], k).opType != OVoid) &&
      (|insn.operands| < MaxOperands ==> RawAt(b.code[a], |insn.operands|).opType == OVoid) &&
      (insn.name == "" || (TrueName(b, a) == Some(insn.name) && !b.isReserved(insn.name)))
  {
    if IsCode(b, a) {
      SlotsOfOperands(b, b.code[a]);
    }
  }

  /** The operand list of an item: positions 0, 1, ..., each from a non-void slot, up to a void slot or the last. */
  lemma SlotsOfOperands(b: Backend, item: CodeItem)
    ensures var ops := DecodeOperands(b, item);
      |ops| <= MaxOperands &&
      (forall k :: 0 <= k < |ops| ==> ops[k].position == k && RawAt(item, k).opType != OVoid) &&
      (|ops| < MaxOperands ==> RawAt(item, |ops|).opType == OVoid)
  {
    var slots := Slots(b, item);
    OperandsShape(slots, 0);
    var ops := DecodeOperands(b, item);
    forall k | 0 <= k < |ops|
      ensures ops[k].position == k && RawAt(item, k).opType != OVoid
    {
      SlotsAt(b, item, k);
      assert slots[0 + k] == Some(ops[k]);
    }
    if |ops| < MaxOperands {
      SlotsAt(b, item, |ops|);
      assert slots[0 + |ops|].None?;
    }
  }


  /** Only a `call` or `jmp` can be flagged as an indirect register call. */
  lemma IndirectRegCallIsBranch(b: Backend, a: Address)
    requires InstructionAt(b, a).Some? && InstructionAt(b, a).value.isIndirectRegCall
    ensures InstructionAt(b, a).value.op in {"call", "jmp"}
    ensures |b.code[a].operands| > 0 && b.code[a].operands[0].opType in {OReg, OMem, ODispl, OPhrase}
    ensures !Contains(b.code[a].operand0Text, "cs:") && !Contains(b.code[a].operand0Text, "ds:")
  {
  }
}
