/**
 * The records the analysis layer builds from the disassembler's answers:
 * decoded operands, decoded instructions and code references. The source keeps
 * them in dictionaries; here each operand type has its own variant with exactly
 * the keys the source stores for it.
 */
module Model {
  import opened Text
  import Seqs

  type Address = nat

  /** Item sizes are never zero. */
  type Size = n: nat | n >= 1 witness 1

  /** The tag of a code reference, as the reference enumeration reports it. */
  datatype CRefKind = Next | Jmp | Call

  /** One outgoing code reference: `(cref_type, cref)`. */
  datatype CodeRef = CodeRef(kind: CRefKind, target: Address)

  /** The disassembler's operand data types that the source sizes, and the rest. */
  datatype DataType =
    | DtByte | DtWord | DtDword | DtFloat | DtDouble | DtQword
    | DtByte16 | DtByte32 | DtByte64
    | DtOther(code: nat)

  /**
   * A decoded operand's type and the keys stored for it: `Value` for far/near
   * targets, registers and immediates; `Base`, `Index` and `Scale` for every
   * other type, with `Address` and `Segment` for memory and `Offset` for
   * displacements. `Special` is a processor-specific type code, whose `Type`
   * text is the code in hexadecimal.
   */
  datatype OperandKind =
    | Far(target: Address)
    | Near(target: Address)
    | Register(name: string)
    | Immediate(value: nat)
    | Memory(base: string, index: string, scale: nat, address: Address, segment: string)
    | Phrase(base: string, index: string, scale: nat)
    | Displacement(base: string, index: string, scale: nat, offset: nat)
    | Special(code: nat, base: string, index: string, scale: nat)

  /** The operand's `Type` text. */
  function TypeName(k: OperandKind): (t: string)
    ensures k.Special? ==> t == Hex(k.code)
  {
    match k
    case Far(_) => "Far"
    case Near(_) => "Near"
    case Register(_) => "Register"
    case Immediate(_) => "Immediate"
    case Memory(_, _, _, _, _) => "Memory"
    case Phrase(_, _, _) => "Phrase"
    case Displacement(_, _, _, _) => "Displacement"
    case Special(c, _, _, _) => Hex(c)
  }

  /** A decoded operand: its kind plus the `Use`, `Chg` and `Position` keys. */
  datatype Operand = Operand(dataType: DataType, kind: OperandKind, use: bool, chg: bool, position: nat)

  /** A decoded instruction, one field per key of the source's dictionary. */
  datatype Instruction = Instruction(
    rva: int,
    address: Address,
    size: Size,
    disasm: string,
    op: string,
    drefFrom: seq<Address>,
    crefFrom: seq<CodeRef>,
    isCall: bool,
    isIndirectRegCall: bool,
    operands: seq<Operand>,
    name: string,
    comment: string,
    repeatableComment: string)

  /**
   * The decoded record of every code address, keyed by address: what
   * `GetInstruction(current)` returns without a filter.
   */
  type Listing = map<Address, Instruction>

  /** Every record sits at its own address. */
  ghost predicate Coherent(d: Listing) {
    forall a :: a in d ==> d[a].address == a
  }

  /**
   * The `type` argument of the function walk: `'Instruction'`, `'Block'` or
   * `'Map'`, i.e. what is recorded besides the instructions and what is
   * yielded.
   */
  datatype Mode = InstructionMode | BlockMode | MapMode

  /** What the source raises where this model returns a failure. */
  datatype Fault =
    | NotInFunction(ea: Address)   // `func.startEA` on the None that get_func returned
    | MissingOperand(ea: Address)  // `instruction['Operands'][0]` on an empty list
    | FormatError                  // `'%d'` applied to a register name

  /** `op.startswith('ret')`. */
  predicate IsReturn(insn: Instruction) {
    StartsWith(insn.op, "ret")
  }

  /** The instruction carries a `Jmp`-tagged code reference. */
  predicate HasJmp(insn: Instruction) {
    exists k :: 0 <= k < |insn.crefFrom| && insn.crefFrom[k].kind == Jmp
  }

  /** The targets of the references that are not tagged `Call`, in order. */
  function NonCallTargets(crefs: seq<CodeRef>): (ts: seq<Address>)
    ensures |ts| <= |crefs|
  {
    if crefs == [] then []
    else (if crefs[0].kind != Call then [crefs[0].target] else []) + NonCallTargets(crefs[1..])
  }

  /** The targets kept are exactly those of the references not tagged `Call`. */
  lemma {:induction false} NonCallTargetsMembers(crefs: seq<CodeRef>, t: Address)
    ensures t in NonCallTargets(crefs) <==> exists k :: 0 <= k < |crefs| && crefs[k].kind != Call && crefs[k].target == t
  {
    if crefs != [] {
      var head := if crefs[0].kind != Call then [crefs[0].target] else [];
      NonCallTargetsMembers(crefs[1..], t);
      assert t in NonCallTargets(crefs) <==> t in head || t in NonCallTargets(crefs[1..]);
      if t in NonCallTargets(crefs[1..]) {
        var k :| 0 <= k < |crefs[1..]| && crefs[1..][k].kind != Call && crefs[1..][k].target == t;
        assert crefs[k + 1] == crefs[1..][k];
      }
      if exists k :: 0 <= k < |crefs| && crefs[k].kind != Call && crefs[k].target == t {
        var k :| 0 <= k < |crefs| && crefs[k].kind != Call && crefs[k].target == t;
        if k > 0 {
          assert crefs[1..][k - 1] == crefs[k];
        }
      }
    }
  }

  /** Reading one more reference appends its target when it is not a `Call`. */
  lemma {:induction false} NonCallTargetsSnoc(crefs: seq<CodeRef>, c: CodeRef)
    ensures NonCallTargets(crefs + [c]) == NonCallTargets(crefs) + (if c.kind != Call then [c.target] else [])
    decreases |crefs|
  {
    var last := if c.kind != Call then [c.target] else [];
    if crefs == [] {
      assert [] + [c] == [c];
      assert [c][1..] == [];
      calc {
        NonCallTargets([c]);
        last + NonCallTargets([]);
        { Seqs.AppendEmpty(last); }
        last;
      }
    } else {
      var head := if crefs[0].kind != Call then [crefs[0].target] else [];
      Seqs.ConsTail(crefs, [c]);
      calc {
        NonCallTargets(crefs + [c]);
        head + NonCallTargets(crefs[1..] + [c]);
        { NonCallTargetsSnoc(crefs[1..], c); }
        head + (NonCallTargets(crefs[1..]) + last);
        { Seqs.ConcatAssoc(head, NonCallTargets(crefs[1..]), last); }
        (head + NonCallTargets(crefs[1..])) + last;
        NonCallTargets(crefs) + last;
      }
    }
  }
}
