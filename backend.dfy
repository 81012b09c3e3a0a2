/**
 * The disassembler database as the analysis layer sees it: an immutable set of
 * finite maps. Every call of the source into the disassembler (flags, item
 * sizes, mnemonics, operand records, cross references, names, comments,
 * segments, functions, frames, register names) becomes a lookup here.
 */
module Backend {
  import opened Wrappers
  import opened Model

  /** The operand types of the disassembler (`o_void` ... `o_near`, and processor-specific ones). */
  datatype RawType = OVoid | OReg | OMem | OPhrase | ODispl | OImm | OFar | ONear | OSpecial(code: nat)

  /** The fields of the disassembler's operand record that the source reads. */
  datatype RawOperand = RawOperand(
    opType: RawType,
    dtyp: DataType,
    reg: nat,
    phrase: nat,
    value: nat,
    addr: Address,
    specflag1: nat,
    specflag2: bv8)

  /** The canonical feature bits of an instruction: `CF_CALL`, `CF_USEn` and `CF_CHGn`. */
  datatype Feature = Feature(isCall: bool, uses: seq<bool>, changes: seq<bool>)

  /** Everything the disassembler reports about the instruction at a code address. */
  datatype CodeItem = CodeItem(
    mnemonic: string,
    operands: seq<RawOperand>,
    feature: Feature,
    operand0Text: string,
    disasm: string,
    drefsFrom: seq<Address>,
    crefsFrom: seq<CodeRef>)

  /** A segment `[start, end)`. */
  datatype Segment = Segment(start: Address, end: Address)

  datatype Backend = Backend(
    imageBase: Address,
    nativeBits: nat,                              // 16, 32 or 64
    code: map<Address, CodeItem>,                 // the addresses whose flags say "code"
    sizes: map<Address, Size>,                    // item sizes; a lone byte elsewhere
    names: map<Address, string>,                  // true names
    comments: map<Address, string>,
    repeatableComments: map<Address, string>,
    segments: seq<Segment>,
    functions: seq<Address>,                      // function starts, in enumeration order
    functionOf: map<Address, Address>,            // the start of the function containing an address
    functionNames: map<Address, string>,
    callersCount: map<Address, nat>,              // number of incoming code references
    frames: map<Address, seq<Option<string>>>,    // frame member name at each frame offset
    regName: (nat, Option<nat>) -> string,        // register name by number and byte width
    segmentName: Address -> string,
    isReserved: string -> bool)                   // the name-reservation predicate

  predicate IsCode(b: Backend, a: Address) {
    a in b.code
  }

  function ItemSize(b: Backend, a: Address): Size {
    if a in b.sizes then b.sizes[a] else 1
  }

  /** The true name at an address, `None` when it has none. */
  function TrueName(b: Backend, a: Address): Option<string> {
    if a in b.names then Some(b.names[a]) else None
  }

  function GetComment(b: Backend, a: Address, repeatable: bool): Option<string> {
    var m := if repeatable then b.repeatableComments else b.comments;
    if a in m then Some(m[a]) else None
  }

  /** The start of the function containing `ea`, `None` outside every function. */
  function FunctionStart(b: Backend, ea: Address): Option<Address> {
    if ea in b.functionOf then Some(b.functionOf[ea]) else None
  }

  function FunctionName(b: Backend, ea: Address): string {
    if ea in b.functionNames then b.functionNames[ea] else ""
  }

  function CallersCount(b: Backend, ea: Address): nat {
    if ea in b.callersCount then b.callersCount[ea] else 0
  }

  function Frame(b: Backend, ea: Address): seq<Option<string>> {
    if ea in b.frames then b.frames[ea] else []
  }
}
