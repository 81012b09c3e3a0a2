/**
 * Operand decoding (`Disasm.GetOperand`) and operand text (`Disasm.GetOperandStr`).
 */
module Operands {
  import opened Wrappers
  import opened Text
  import opened Model
  import opened Backend

  /** `GetDtypSize`: the byte width of a data type, `None` for the types it does not list. */
  function DtypSize(d: DataType): (r: Option<nat>)
    ensures r.Some? <==> !d.DtOther?
    ensures r.Some? ==> r.value in {1, 2, 4, 8, 16, 32, 64}
  {
    match d
    case DtByte => Some(1)
    case DtWord => Some(2)
    case DtDword => Some(4)
    case DtFloat => Some(4)
    case DtDouble => Some(8)
    case DtQword => Some(8)
    case DtByte16 => Some(16)
    case DtByte32 => Some(32)
    case DtByte64 => Some(64)
    case DtOther(_) => None
  }

  /**
   * `GetRegName(reg, dtyp)`: the register name at the data type's width, or at
   * the native word width (bits divided by 8, rounded down) when no type is given.
   */
  function RegName(b: Backend, reg: nat, dtyp: Option<DataType>): string {
    match dtyp
    case None => b.regName(reg, Some(b.nativeBits / 8))
    case Some(d) => b.regName(reg, DtypSize(d))
  }

  /** The base field of `specflag2`: its low three bits. */
  function SibBase(sf2: bv8): nat {
    (sf2 & 0x7) as nat
  }

  /** The index field of `specflag2`: bits 3 to 5. */
  function SibIndex(sf2: bv8): nat {
    ((sf2 & 0x38) >> 3) as nat
  }

  /** The scale field of `specflag2`: bits 6 and 7. */
  function SibScale(sf2: bv8): nat {
    ((sf2 & 0xc0) >> 6) as nat
  }

  /** The base and index fields are in 0..7 and the scale field in 0..3. */
  lemma SibFieldRanges(sf2: bv8)
    ensures SibBase(sf2) < 8 && SibIndex(sf2) < 8 && SibScale(sf2) < 4
  {
    assert sf2 & 0x7 <= 7;
    assert (sf2 & 0x38) >> 3 <= 7;
    assert (sf2 & 0xc0) >> 6 <= 3;
  }

  /** `int(math.pow(2, k))`, in exact integer arithmetic. */
  function Pow2(k: nat): (r: nat)
    ensures r >= 1
  {
    if k == 0 then 1 else 2 * Pow2(k - 1)
  }

  /** The `Base`, `Index` and `Scale` keys of a non-register, non-immediate operand. */
  datatype Addressing = Addressing(base: string, index: string, scale: nat)

  predicate IsMemory(raw: RawOperand) {
    raw.opType == OMem
  }

  /**
   * The base/index/scale decode: with an explicit encoding (`specflag1` set) the
   * three fields of `specflag2`, where base 5 means "no base" for a memory
   * operand only and index 4 means "no index"; otherwise the `phrase` register,
   * with the same base-5 exception, no index and scale 1.
   */
  function DecodeAddressing(b: Backend, raw: RawOperand): Addressing {
    if raw.specflag1 != 0 then
      var base := SibBase(raw.specflag2);
      var index := SibIndex(raw.specflag2);
      var scale := SibScale(raw.specflag2);
      var baseReg := if base != 5 || !IsMemory(raw) then RegName(b, base, None) else "";
      var indexReg := if index != 4 then RegName(b, index, None) else "";
      Addressing(baseReg, indexReg, Pow2(scale))
    else
      var baseReg := if raw.phrase != 5 || !IsMemory(raw) then RegName(b, raw.phrase, None) else "";
      Addressing(baseReg, "", Pow2(0))
  }

  /**
   * The scale is 2 to the power of the scale field, so 1, 2, 4 or 8, and it is
   * 1 (with no index) without an explicit encoding. The sentinels blank the
   * base and the index.
   */
  lemma AddressingFields(b: Backend, raw: RawOperand)
    ensures DecodeAddressing(b, raw).scale in {1, 2, 4, 8}
    ensures raw.specflag1 == 0 ==> DecodeAddressing(b, raw).scale == 1 && DecodeAddressing(b, raw).index == ""
    ensures raw.specflag1 != 0 ==> DecodeAddressing(b, raw).scale == Pow2(SibScale(raw.specflag2))
    ensures raw.specflag1 != 0 && SibBase(raw.specflag2) == 5 && IsMemory(raw) ==> DecodeAddressing(b, raw).base == ""
    ensures raw.specflag1 != 0 && SibIndex(raw.specflag2) == 4 ==> DecodeAddressing(b, raw).index == ""
    ensures raw.specflag1 == 0 && raw.phrase == 5 && IsMemory(raw) ==> DecodeAddressing(b, raw).base == ""
  {
    var k := SibScale(raw.specflag2);
    SibFieldRanges(raw.specflag2);
    assert k == 0 || k == 1 || k == 2 || k == 3;
    assert Pow2(1) == 2 && Pow2(2) == 4 && Pow2(3) == 8;
  }

  /** The register resolver never answers with an empty name. */
  ghost predicate RegisterNamesNonEmpty(b: Backend) {
    forall r, w :: b.regName(r, w) != ""
  }

  /**
   * When register names are never empty, `Base` is empty exactly at the
   * sentinel (base 5, or phrase 5, of a memory operand) and `Index` exactly at
   * index 4 or without an explicit encoding.
   */
  lemma AddressingSentinels(b: Backend, raw: RawOperand)
    requires RegisterNamesNonEmpty(b)
    ensures raw.specflag1 != 0 ==>
      (DecodeAddressing(b, raw).base == "" <==> SibBase(raw.specflag2) == 5 && IsMemory(raw))
    ensures raw.specflag1 != 0 ==>
      (DecodeAddressing(b, raw).index == "" <==> SibIndex(raw.specflag2) == 4)
    ensures raw.specflag1 == 0 ==>
      (DecodeAddressing(b, raw).base == "" <==> raw.phrase == 5 && IsMemory(raw))
  {
    var a := DecodeAddressing(b, raw);
    if raw.specflag1 != 0 {
      if !(SibBase(raw.specflag2) == 5 && IsMemory(raw)) {
        assert a.base == b.regName(SibBase(raw.specflag2), Some(b.nativeBits / 8));
      }
      if SibIndex(raw.specflag2) != 4 {
        assert a.index == b.regName(SibIndex(raw.specflag2), Some(b.nativeBits / 8));
      }
    } else if !(raw.phrase == 5 && IsMemory(raw)) {
      assert a.base == b.regName(raw.phrase, Some(b.nativeBits / 8));
    }
  }

  /**
   * `GetOperand`: `None` for a void operand, otherwise the decoded operand
   * (`Use`, `Chg` and `Position` are filled in by the instruction decoder).
   */
  function GetOperand(b: Backend, raw: RawOperand): (r: Option<Operand>)
    ensures r.None? <==> raw.opType == OVoid
    ensures r.Some? ==> r.value.dataType == raw.dtyp && !r.value.use && !r.value.chg && r.value.position == 0
  {
    var a := DecodeAddressing(b, raw);
    var kind :=
      match raw.opType
      case OVoid => None
      case OFar => Some(Far(raw.addr))
      case ONear => Some(Near(raw.addr))
      case OReg => Some(Register(RegName(b, raw.reg, Some(raw.dtyp))))
      case OImm => Some(Immediate(raw.value))
      case OMem => Some(Memory(a.base, a.index, a.scale, raw.addr, b.segmentName(raw.addr)))
      case ODispl => Some(Displacement(a.base, a.index, a.scale, raw.addr))
      case OPhrase => Some(Phrase(a.base, a.index, a.scale))
      case OSpecial(c) => Some(Special(c, a.base, a.index, a.scale));
    if kind.None? then None else Some(Operand(raw.dtyp, kind.value, false, false, 0))
  }

  /**
   * The decoded operand has the kind its raw type names, and keeps the raw
   * immediate value, memory address (with its segment) and displacement offset.
   */
  lemma GetOperandKinds(b: Backend, raw: RawOperand)
    requires raw.opType != OVoid
    ensures var k := GetOperand(b, raw).value.kind;
      (k.Far? <==> raw.opType == OFar) && (k.Near? <==> raw.opType == ONear) &&
      (k.Register? <==> raw.opType == OReg) && (k.Immediate? <==> raw.opType == OImm) &&
      (k.Memory? <==> raw.opType == OMem) && (k.Displacement? <==> raw.opType == ODispl) &&
      (k.Phrase? <==> raw.opType == OPhrase) && (k.Special? <==> raw.opType.OSpecial?)
    ensures var k := GetOperand(b, raw).value.kind;
      (k.Far? || k.Near? ==> k.target == raw.addr) &&
      (k.Immediate? ==> k.value == raw.value) &&
      (k.Register? ==> k.name == RegName(b, raw.reg, Some(raw.dtyp))) &&
      (k.Memory? ==> k.address == raw.addr && k.segment == b.segmentName(raw.addr)) &&
      (k.Displacement? ==> k.offset == raw.addr)
  {
  }

  /** Every decoded operand that has a scale has a power-of-two scale in {1, 2, 4, 8}. */
  lemma DecodedScale(b: Backend, raw: RawOperand)
    requires GetOperand(b, raw).Some?
    ensures var k := GetOperand(b, raw).value.kind;
      (k.Memory? || k.Phrase? || k.Displacement? || k.Special?) ==> k.scale in {1, 2, 4, 8}
  {
    AddressingFields(b, raw);
  }

  /**
   * What `GetOperandStr` returns: the source hands back an integer for
   * far/near targets and immediates and a string otherwise.
   */
  datatype OperandText = Str(s: string) | Int(n: nat)

  /** `str(operand_str)`. */
  function PyStr(t: OperandText): string {
    match t
    case Str(s) => s
    case Int(n) => Decimal(n)
  }

  /**
   * `GetOperandStr`. A displacement with scale other than 1 goes to a branch
   * that formats the `Index` string with `%d`, which always raises.
   */
  function GetOperandStr(op: Operand): (r: Result<OperandText, Fault>)
    ensures r.Failure? <==> op.kind.Displacement? && op.kind.scale != 1
    ensures r.Success? && (op.kind.Far? || op.kind.Near?) ==> r.value == Int(op.kind.target)
    ensures r.Success? && op.kind.Immediate? ==> r.value == Int(op.kind.value)
    ensures r.Success? && op.kind.Register? ==> r.value == Str(op.kind.name)
    ensures r.Success? && (op.kind.Memory? || op.kind.Phrase? || op.kind.Special?) ==> r.value == Str("")
    ensures r.Success? && op.kind.Displacement? ==>
      r.value.Str? && StartsWith(r.value.s, op.kind.base) && EndsWith(r.value.s, "+" + Decimal(op.kind.offset))
  {
    match op.kind
    case Far(t) => Success(Int(t))
    case Near(t) => Success(Int(t))
    case Register(n) => Success(Str(n))
    case Immediate(v) => Success(Int(v))
    case Memory(_, _, _, _, _) => Success(Str(""))
    case Displacement(base, index, scale, offset) =>
      if scale == 1 then
        var indexStr := if index != "" then "+" + index else "";
        var s := base + indexStr + "+" + Decimal(offset);
        assert s[..|base|] == base;
        assert s[|s| - |"+" + Decimal(offset)|..] == "+" + Decimal(offset);
        Success(Str(s))
      else Failure(FormatError)
    case Phrase(_, _, _) => Success(Str(""))
    case Special(_, _, _, _) => Success(Str(""))
  }

  /** A displacement's text ends with its offset in decimal, which can be read back. */
  lemma DisplacementOffsetReadable(op: Operand)
    requires op.kind.Displacement? && op.kind.scale == 1
    ensures var s := GetOperandStr(op).value.s;
      var digits := s[|s| - |Decimal(op.kind.offset)|..];
      IsDigitString(digits, 10) && ValueOf(digits, 10) == op.kind.offset
  {
    var s := GetOperandStr(op).value.s;
    assert s[|s| - |Decimal(op.kind.offset)|..] == Decimal(op.kind.offset);
    DigitsRoundTrip(op.kind.offset, 10);
  }
}
