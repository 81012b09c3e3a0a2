/**
 * The structural hash of an instruction list (`GetInstructionsHash`) and the
 * index of names by unique hash (`GenHash2Name`). SHA-1 is a parameter: only
 * the text it is applied to is modelled.
 */
module Hashing {
  import opened Wrappers
  import opened Text
  import opened Model
  import Seqs

  // ---------------------------------------------------------------------
  // GetInstructionsHash

  /** The `'%x'` text of every immediate operand, in operand order, when `'imm_operand'` is hashed. */
  function ImmediateText(operands: seq<Operand>, hashTypes: seq<string>): string {
    if operands == [] then ""
    else
      var last := operands[|operands| - 1];
      ImmediateText(operands[..|operands| - 1], hashTypes) +
        (if "imm_operand" in hashTypes && last.kind.Immediate? then Hex(last.kind.value) else "")
  }

  /** What one instruction adds to the hashed text. */
  function InstructionText(insn: Instruction, hashTypes: seq<string>): string {
    (if "Op" in hashTypes then insn.op else "") +
    (if |insn.drefFrom| == 0 then ImmediateText(insn.operands, hashTypes) else "")
  }

  /** The text `GetInstructionsHash` hands to SHA-1. */
  function CanonicalText(insns: seq<Instruction>, hashTypes: seq<string>): string {
    if insns == [] then ""
    else CanonicalText(insns[..|insns| - 1], hashTypes) + InstructionText(insns[|insns| - 1], hashTypes)
  }

  /** The inner loop over one instruction's operands. */
  method AddImmediates(text: string, operands: seq<Operand>, hashTypes: seq<string>) returns (text': string)
    ensures text' == text + ImmediateText(operands, hashTypes)
  {
    text' := text;
    for i := 0 to |operands|
      invariant text' == text + ImmediateText(operands[..i], hashTypes)
    {
      ImmediateTextSnoc(operands, i, hashTypes);
      var piece := if "imm_operand" in hashTypes && operands[i].kind.Immediate? then Hex(operands[i].kind.value) else "";
      Seqs.ConcatAssoc(text, ImmediateText(operands[..i], hashTypes), piece);
      if "imm_operand" in hashTypes && operands[i].kind.Immediate? {
        text' := text' + Hex(operands[i].kind.value);
      } else {
        Seqs.AppendEmpty(text');
      }
    }
    assert operands[..|operands|] == operands;
  }

  lemma ImmediateTextSnoc(operands: seq<Operand>, i: nat, hashTypes: seq<string>)
    requires i < |operands|
    ensures ImmediateText(operands[..i + 1], hashTypes) == ImmediateText(operands[..i], hashTypes) +
      (if "imm_operand" in hashTypes && operands[i].kind.Immediate? then Hex(operands[i].kind.value) else "")
  {
    assert operands[..i + 1][..i] == operands[..i];
  }

  /** `GetInstructionsHash`, with `sha1` standing for `hashlib.sha1(...).hexdigest()`. */
  method GetInstructionsHash(insns: seq<Instruction>, hashTypes: seq<string>, sha1: string -> string)
    returns (digest: string)
    ensures digest == sha1(CanonicalText(insns, hashTypes))
  {
    var text := "";
    for i := 0 to |insns|
      invariant text == CanonicalText(insns[..i], hashTypes)
    {
      CanonicalTextSnoc(insns, i, hashTypes);
      ghost var before := text;
      ghost var op := if "Op" in hashTypes then insns[i].op else "";
      ghost var imm := if |insns[i].drefFrom| == 0 then ImmediateText(insns[i].operands, hashTypes) else "";
      if "Op" in hashTypes {
        text := text + insns[i].op;
      } else {
        Seqs.AppendEmpty(text);
      }
      if |insns[i].drefFrom| == 0 {
        text := AddImmediates(text, insns[i].operands, hashTypes);
      } else {
        Seqs.AppendEmpty(text);
      }
      Seqs.ConcatAssoc(before, op, imm);
    }
    assert insns[..|insns|] == insns;
    digest := sha1(text);
  }

  lemma CanonicalTextSnoc(insns: seq<Instruction>, i: nat, hashTypes: seq<string>)
    requires i < |insns|
    ensures CanonicalText(insns[..i + 1], hashTypes) == CanonicalText(insns[..i], hashTypes) + InstructionText(insns[i], hashTypes)
  {
    assert insns[..i + 1][..i] == insns[..i];
  }

  /** The immediate values of an operand list, in order. */
  function Immediates(operands: seq<Operand>): seq<nat> {
    if operands == [] then []
    else
      var last := operands[|operands| - 1];
      Immediates(operands[..|operands| - 1]) + (if last.kind.Immediate? then [last.kind.value] else [])
  }

  /** Two instructions look the same to the hash: same mnemonic, same immediates, both with or both without data references. */
  predicate SameShape(x: Instruction, y: Instruction) {
    x.op == y.op && (|x.drefFrom| == 0 <==> |y.drefFrom| == 0) && Immediates(x.operands) == Immediates(y.operands)
  }

  lemma {:induction false} ImmediateTextOfImmediates(operands: seq<Operand>, hashTypes: seq<string>)
    ensures ImmediateText(operands, hashTypes) == if "imm_operand" in hashTypes then HexJoin(Immediates(operands)) else ""
  {
    if operands != [] {
      var init := operands[..|operands| - 1];
      ImmediateTextOfImmediates(init, hashTypes);
      if operands[|operands| - 1].kind.Immediate? {
        HexJoinSnoc(Immediates(init), operands[|operands| - 1].kind.value);
      } else {
        assert Immediates(operands) == Immediates(init) + [];
        assert Immediates(init) + [] == Immediates(init);
      }
    }
  }

  /** The `'%x'` texts of a list of numbers, run together. */
  function HexJoin(values: seq<nat>): string {
    if values == [] then "" else HexJoin(values[..|values| - 1]) + Hex(values[|values| - 1])
  }

  lemma HexJoinSnoc(values: seq<nat>, v: nat)
    ensures HexJoin(values + [v]) == HexJoin(values) + Hex(v)
  {
    assert (values + [v])[..|values|] == values;
  }

  /**
   * The text depends on nothing but the instructions' shapes: addresses,
   * code references, names, comments and the targets of data references
   * play no part, so a rebased copy of a function hashes the same.
   */
  lemma {:induction false} TextDependsOnShape(xs: seq<Instruction>, ys: seq<Instruction>, hashTypes: seq<string>)
    requires |xs| == |ys| && forall i :: 0 <= i < |xs| ==> SameShape(xs[i], ys[i])
    ensures CanonicalText(xs, hashTypes) == CanonicalText(ys, hashTypes)
  {
    if xs != [] {
      var n := |xs| - 1;
      TextDependsOnShape(xs[..n], ys[..n], hashTypes);
      ImmediateTextOfImmediates(xs[n].operands, hashTypes);
      ImmediateTextOfImmediates(ys[n].operands, hashTypes);
    }
  }

  /** Each instruction moved to a new address (its code references and data reference targets with it) keeps its shape. */
  lemma RebasedSameShape(x: Instruction, address: Address, rva: int, crefs: seq<CodeRef>, drefs: seq<Address>)
    requires |drefs| == |x.drefFrom|
    ensures SameShape(x, x.(address := address, rva := rva, crefFrom := crefs, drefFrom := drefs))
  {
  }

  /** An instruction with data references contributes its mnemonic only. */
  lemma DataReferencesHideImmediates(insn: Instruction, hashTypes: seq<string>)
    requires |insn.drefFrom| > 0
    ensures InstructionText(insn, hashTypes) == if "Op" in hashTypes then insn.op else ""
  {
  }

  /** The text of a concatenation is the concatenation of the texts. */
  lemma {:induction false} TextOfConcat(xs: seq<Instruction>, ys: seq<Instruction>, hashTypes: seq<string>)
    ensures CanonicalText(xs + ys, hashTypes) == CanonicalText(xs, hashTypes) + CanonicalText(ys, hashTypes)
  {
    if ys == [] {
      assert xs + ys == xs;
    } else {
      var n := |ys| - 1;
      var last := InstructionText(ys[n], hashTypes);
      assert (xs + ys)[..|xs + ys| - 1] == xs + ys[..n];
      assert (xs + ys)[|xs + ys| - 1] == ys[n];
      calc {
        CanonicalText(xs + ys, hashTypes);
        CanonicalText(xs + ys[..n], hashTypes) + last;
        { TextOfConcat(xs, ys[..n], hashTypes); }
        (CanonicalText(xs, hashTypes) + CanonicalText(ys[..n], hashTypes)) + last;
        { Seqs.ConcatAssoc(CanonicalText(xs, hashTypes), CanonicalText(ys[..n], hashTypes), last); }
        CanonicalText(xs, hashTypes) + (CanonicalText(ys[..n], hashTypes) + last);
        CanonicalText(xs, hashTypes) + CanonicalText(ys, hashTypes);
      }
    }
  }

  /** With nothing to hash the text is empty. */
  lemma {:induction false} NothingHashed(insns: seq<Instruction>)
    ensures CanonicalText(insns, []) == ""
  {
    if insns != [] {
      NothingHashed(insns[..|insns| - 1]);
      ImmediateTextOfImmediates(insns[|insns| - 1].operands, []);
    }
  }

  // ---------------------------------------------------------------------
  // GenHash2Name

  /** The `'Hash'` member of an entry: `{'Type': ..., 'Value': ...}`. */
  datatype HashInfo = HashInfo(kind: string, value: string)

  /** A function entry: an optional `'Name'` and an optional `'Hash'`. */
  datatype Entry = Entry(name: Option<string>, hash: Option<HashInfo>)

  /** The entry has a name and a hash of the requested type. */
  predicate Eligible(e: Entry, hashType: string) {
    e.name.Some? && e.hash.Some? && e.hash.value.kind == hashType
  }

  /** The first loop's `hash_2_name` after the given entries: every eligible entry listed under its hash value. */
  function Groups(entries: seq<Entry>, hashType: string): map<string, seq<Entry>> {
    if entries == [] then map[]
    else
      var g := Groups(entries[..|entries| - 1], hashType);
      var e := entries[|entries| - 1];
      if !Eligible(e, hashType) then g
      else
        var h := e.hash.value.value;
        g[h := (if h in g then g[h] else []) + [e]]
  }

  /** The eligible entries with hash value `h`, in order: the independent reference for `Groups`. */
  function WithHash(entries: seq<Entry>, hashType: string, h: string): seq<Entry> {
    if entries == [] then []
    else
      var e := entries[|entries| - 1];
      WithHash(entries[..|entries| - 1], hashType, h) + (if Eligible(e, hashType) && e.hash.value.value == h then [e] else [])
  }

  /** What `GenHash2Name` returns: the hash values carried by exactly one eligible entry, each mapped to that entry. */
  function Hash2Name(entries: seq<Entry>, hashType: string): map<string, Entry> {
    var g := Groups(entries, hashType);
    map h | h in g && |g[h]| == 1 :: g[h][0]
  }

  method GroupByHash(entries: seq<Entry>, hashType: string) returns (groups: map<string, seq<Entry>>)
    ensures groups == Groups(entries, hashType)
  {
    groups := map[];
    for i := 0 to |entries|
      invariant groups == Groups(entries[..i], hashType)
    {
      assert entries[..i + 1][..i] == entries[..i];
      var e := entries[i];
      if e.name.None? || e.hash.None? {
        continue;
      }
      if e.hash.value.kind != hashType {
        continue;
      }
      var h := e.hash.value.value;
      if h !in groups {
        groups := groups[h := []];
      }
      groups := groups[h := groups[h] + [e]];
    }
    assert entries[..|entries|] == entries;
  }

  method GenHash2Name(entries: seq<Entry>, hashType: string) returns (index: map<string, Entry>)
    ensures index == Hash2Name(entries, hashType)
  {
    var groups := GroupByHash(entries, hashType);
    index := map[];
    var todo := groups.Keys;
    while todo != {}
      invariant todo <= groups.Keys
      invariant index == map h | h in groups.Keys - todo && |groups[h]| == 1 :: groups[h][0]
      decreases |todo|
    {
      var h :| h in todo;
      if |groups[h]| == 1 {
        index := index[h := groups[h][0]];
      }
      todo := todo - {h};
    }
  }

  /** The first loop lists under each hash value exactly the eligible entries carrying it, in order. */
  lemma {:induction false} GroupsAreWithHash(entries: seq<Entry>, hashType: string, h: string)
    ensures h in Groups(entries, hashType) <==> |WithHash(entries, hashType, h)| > 0
    ensures h in Groups(entries, hashType) ==> Groups(entries, hashType)[h] == WithHash(entries, hashType, h)
  {
    if entries != [] {
      GroupsAreWithHash(entries[..|entries| - 1], hashType, h);
    }
  }

  /** Every entry listed under `h` is an eligible entry of the input with hash value `h`. */
  lemma {:induction false} WithHashMembers(entries: seq<Entry>, hashType: string, h: string)
    ensures forall e :: e in WithHash(entries, hashType, h) ==> e in entries && Eligible(e, hashType) && e.hash.value.value == h
  {
    if entries != [] {
      WithHashMembers(entries[..|entries| - 1], hashType, h);
    }
  }

  /**
   * A hash value is indexed exactly when one eligible entry carries it, and
   * then it is indexed to that entry, which has a name and the requested
   * hash type.
   */
  lemma Hash2NameUnique(entries: seq<Entry>, hashType: string, h: string)
    ensures h in Hash2Name(entries, hashType) <==> |WithHash(entries, hashType, h)| == 1
    ensures h in Hash2Name(entries, hashType) ==>
      var e := Hash2Name(entries, hashType)[h];
      e == WithHash(entries, hashType, h)[0] && e in entries && Eligible(e, hashType) && e.hash.value.value == h
  {
    GroupsAreWithHash(entries, hashType, h);
    WithHashMembers(entries, hashType, h);
  }
}
