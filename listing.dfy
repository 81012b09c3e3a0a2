/**
 * The parser of IDA `.lst` listings (`Parser` in `idatool/list.py`). The
 * file is the sequence of lines `readline` returns, each with its line
 * break. The regular expressions of `parse_line` are spelled out over the
 * blank class `[ \t]`.
 */
module Listing {
  import opened Wrappers
  import opened Text
  import opened Seqs

  type Byte = n: nat | n < 256

  /** What the source raises on a malformed listing. */
  datatype ListError =
    | NoAddressField(line: string)  // `m.end()` on the `None` of a failed address match
    | NoColon(token: string)        // `toks[0].split(':')[1]` on a token without a colon

  /** One parsed line: `Line`, `Address`, `Bytes`, `Op` (absent on a line with nothing after its bytes) and `Operands`. */
  datatype ParsedLine = ParsedLine(line: string, address: string, bytes: seq<Byte>, op: Option<string>, operands: seq<string>)

  /** One `{'Name', 'Address', 'Lines'}` entry: a procedure and its parsed lines. */
  datatype Entry = Entry(name: string, address: string, lines: seq<Option<ParsedLine>>)

  // ---------------------------------------------------------------------
  // The regular expressions of parse_line

  /** The length of the longest prefix of `s` without a blank: what `[^ \t]+` consumes. */
  function NonBlankRun(s: string): (n: nat)
    ensures n <= |s| && (forall i :: 0 <= i < n ==> !IsBlank(s[i])) && (n < |s| ==> IsBlank(s[n]))
  {
    if s != [] && !IsBlank(s[0]) then 1 + NonBlankRun(s[1..]) else 0
  }

  /** The length of the longest prefix of `s` of blanks: what `[ \t]+` consumes. */
  function BlankRun(s: string): (n: nat)
    ensures n <= |s| && (forall i :: 0 <= i < n ==> IsBlank(s[i])) && (n < |s| ==> !IsBlank(s[n]))
  {
    if s != [] && IsBlank(s[0]) then 1 + BlankRun(s[1..]) else 0
  }

  /** `skip_spaces`: `s` without its leading blanks. */
  function SkipSpaces(s: string): string {
    s[BlankRun(s)..]
  }

  /** Where the match of `^[^ \t]+[ \t]+` ends, `None` when there is no match. */
  function AddressEnd(line: string): Option<nat> {
    var n := NonBlankRun(line);
    if n == 0 then None
    else
      var m := BlankRun(line[n..]);
      if m == 0 then None else Some(n + m)
  }

  /** `^([0-9a-fA-F][0-9a-fA-F] )`: two hex digits and a space. */
  predicate IsPair(s: string) {
    |s| >= 3 && IsHexChar(s[0]) && IsHexChar(s[1]) && s[2] == ' '
  }

  /** `int(s[:3], 0x10)` for a pair. */
  function PairValue(s: string): Byte
    requires IsPair(s)
  {
    DigitValue(s[0]) * 16 + DigitValue(s[1])
  }

  /** The bytes of the leading pairs of `s`, and what follows them. */
  function HexBytes(s: string): (seq<Byte>, string)
    decreases |s|
  {
    if IsPair(s) then
      var (bs, rest) := HexBytes(s[3..]);
      ([PairValue(s)] + bs, rest)
    else ([], s)
  }

  /** A match of `, [ \t]+` starts at `i`. */
  predicate SeparatorAt(s: string, i: nat) {
    i + 2 < |s| && s[i] == ',' && s[i + 1] == ' ' && IsBlank(s[i + 2])
  }

  /** Where the leftmost separator starts, `|s|` when there is none. */
  function FirstSeparator(s: string): (i: nat)
    ensures i <= |s| && (i < |s| ==> SeparatorAt(s, i)) && forall k :: 0 <= k < i ==> !SeparatorAt(s, k)
  {
    if |s| < 3 then |s|
    else if SeparatorAt(s, 0) then 0
    else
      var i := 1 + FirstSeparator(s[1..]);
      assert forall k :: 1 <= k < i ==> (SeparatorAt(s, k) <==> SeparatorAt(s[1..], k - 1));
      i
  }

  /** Where the text after the leftmost separator starts: the separator is taken with all its blanks. */
  function AfterFirstSeparator(s: string): (j: nat)
    requires FirstSeparator(s) < |s|
    ensures FirstSeparator(s) + 3 <= j <= |s|
  {
    var i := FirstSeparator(s);
    SeparatorMatch(s, i);
    i + 2 + BlankRun(s[i + 2..])
  }

  /** `re.split(', [ \t]+', s)`. */
  function SplitOperands(s: string): seq<string>
    decreases |s|
  {
    if FirstSeparator(s) == |s| then [s]
    else [s[..FirstSeparator(s)]] + SplitOperands(s[AfterFirstSeparator(s)..])
  }

  /** What `parse_line` returns: `None` on a label or comment line. */
  function ParseLineSpec(line: string): Result<Option<ParsedLine>, ListError> {
    match AddressEnd(line)
    case None => Failure(NoAddressField(line))
    case Some(e) =>
      var (bs, afterBytes) := HexBytes(line[e..]);
      match MnemonicAndOperands(SkipSpaces(afterBytes))
      case None => Success(None)
      case Some((op, operands)) => Success(Some(ParsedLine(line, line[..e], bs, op, operands)))
  }

  /** The mnemonic and operands of what follows the bytes, `None` for a label or comment line. */
  function MnemonicAndOperands(s: string): Option<(Option<string>, seq<string>)> {
    var n := NonBlankRun(s);
    if n > 0 && (s[n - 1] == ':' || s[n - 1] == ';') then None
    else Some((if n > 0 then Some(s[..n]) else None, OperandsOf(s[n..])))
  }

  /** The `Operands` of what follows the mnemonic: split, each piece stripped. */
  function OperandsOf(s: string): seq<string> {
    StripAll(SplitOperands(SkipSpaces(s)))
  }

  /** Every piece stripped, in order. */
  function StripAll(fields: seq<string>): (r: seq<string>)
    ensures |r| == |fields|
  {
    if fields == [] then [] else StripAll(fields[..|fields| - 1]) + [Strip(fields[|fields| - 1])]
  }

  lemma StripAllSnoc(fields: seq<string>, k: nat)
    requires k < |fields|
    ensures StripAll(fields[..k + 1]) == StripAll(fields[..k]) + [Strip(fields[k])]
  {
    assert fields[..k + 1][..k] == fields[..k];
  }

  /** The `while 1` loop of `parse_line` over the hex byte pairs. */
  method ReadBytes(s: string) returns (bytes: seq<Byte>, rest: string)
    ensures (bytes, rest) == HexBytes(s)
  {
    rest := s;
    bytes := [];
    assert [] + HexBytes(rest).0 == HexBytes(rest).0;
    while IsPair(rest)
      invariant (bytes + HexBytes(rest).0, HexBytes(rest).1) == HexBytes(s)
      decreases |rest|
    {
      assert HexBytes(rest).0 == [PairValue(rest)] + HexBytes(rest[3..]).0;
      assert bytes + HexBytes(rest).0 == (bytes + [PairValue(rest)]) + HexBytes(rest[3..]).0;
      bytes := bytes + [PairValue(rest)];
      rest := rest[3..];
    }
    assert bytes + [] == bytes;
  }

  /** The loop of `parse_line` over the split operands. */
  method ReadOperands(s: string) returns (operands: seq<string>)
    ensures operands == OperandsOf(s)
  {
    var fields := SplitOperands(SkipSpaces(s));
    operands := [];
    for k := 0 to |fields|
      invariant operands == StripAll(fields[..k])
    {
      StripAllSnoc(fields, k);
      operands := operands + [Strip(fields[k])];
    }
    assert fields[..|fields|] == fields;
  }

  /** `parse_line`. */
  method ParseLine(line: string) returns (r: Result<Option<ParsedLine>, ListError>)
    ensures r == ParseLineSpec(line)
  {
    var e := AddressEnd(line);
    if e.None? {
      return Failure(NoAddressField(line));
    }
    var address := line[..e.value];
    var bytes, rest := ReadBytes(line[e.value..]);
    rest := SkipSpaces(rest);
    var n := NonBlankRun(rest);
    var op := None;
    if n > 0 {
      if rest[n - 1] == ':' || rest[n - 1] == ';' {
        return Success(None);
      }
      op := Some(rest[..n]);
      rest := rest[n..];
    }
    var operands := ReadOperands(rest);
    r := Success(Some(ParsedLine(line, address, bytes, op, operands)));
  }

  // ---------------------------------------------------------------------
  // parse

  /** The variables of `parse`: the open procedure's `name` (`''` when none is open), `addr`, `parsed_lines`, and the entries. */
  datatype ParseState = ParseState(name: string, addr: string, lines: seq<Option<ParsedLine>>, entries: seq<Entry>)

  /** One pass of the `parse` loop over a line. */
  function Step(st: ParseState, line: string): Result<ParseState, ListError> {
    var toks := Tokens(line);
    if |toks| > 2 then
      if toks[2] == "proc" then
        var fields := Fields(toks[0], ':');
        if |fields| < 2 then Failure(NoColon(toks[0]))
        else Success(st.(name := toks[1], addr := fields[1], lines := []))
      else if st.name != "" && toks[2] == "endp" then
        Success(st.(entries := st.entries + [Entry(st.name, st.addr, st.lines)], name := "", addr := ""))
      else if st.name != "" && line != "" then
        var p :- ParseLineSpec(line);
        Success(st.(lines := st.lines + [p]))
      else Success(st)
    else Success(st)
  }

  /**
   * The `parse` loop: the state where it stops (at the end, at an empty
   * string `readline` would only return at the end, or at a raise) and what
   * it raised.
   */
  function Run(st: ParseState, lines: seq<string>): (ParseState, Option<ListError>)
    decreases |lines|
  {
    if lines == [] || lines[0] == "" then (st, None)
    else
      match Step(st, lines[0])
      case Failure(e) => (st, Some(e))
      case Success(st') => Run(st', lines[1..])
  }

  /** A line that steps moves the loop on to the next line. */
  lemma RunNext(st: ParseState, lines: seq<string>, i: nat, st': ParseState)
    requires i < |lines| && lines[i] != "" && Step(st, lines[i]) == Success(st')
    ensures Run(st, lines[i..]) == Run(st', lines[i + 1..])
  {
    assert lines[i..][1..] == lines[i + 1..];
  }

  /** A line that raises stops the loop in the state before it. */
  lemma RunStops(st: ParseState, lines: seq<string>, i: nat, e: ListError)
    requires i < |lines| && lines[i] != "" && Step(st, lines[i]) == Failure(e)
    ensures Run(st, lines[i..]) == (st, Some(e))
  {
  }

  class Parser {
    var entries: seq<Entry>

    constructor()
      ensures entries == []
    {
      entries := [];
    }

    /** `parse`, over the file's lines. The entries appended before a raise stay appended. */
    method Parse(lines: seq<string>) returns (error: Option<ListError>)
      modifies this
      ensures var r := Run(ParseState("", "", [], old(entries)), lines);
        entries == r.0.entries && error == r.1
    {
      var name := "";
      var addr := "";
      var parsedLines := [];
      var i := 0;
      while i < |lines|
        invariant i <= |lines|
        invariant Run(ParseState(name, addr, parsedLines, entries), lines[i..]) == Run(ParseState("", "", [], old(entries)), lines)
        decreases |lines| - i
      {
        var line := lines[i];
        if line == "" {
          break;
        }
        ghost var st := ParseState(name, addr, parsedLines, entries);
        var toks := Tokens(line);
        if |toks| > 2 {
          if toks[2] == "proc" {
            var fields := Fields(toks[0], ':');
            if |fields| < 2 {
              RunStops(st, lines, i, NoColon(toks[0]));
              return Some(NoColon(toks[0]));
            }
            name := toks[1];
            addr := fields[1];
            parsedLines := [];
          } else if name != "" && toks[2] == "endp" {
            entries := entries + [Entry(name, addr, parsedLines)];
            name := "";
            addr := "";
          } else if name != "" && line != "" {
            var p := ParseLine(line);
            if p.Failure? {
              RunStops(st, lines, i, p.error);
              return Some(p.error);
            }
            parsedLines := parsedLines + [p.value];
          }
        }
        RunNext(st, lines, i, ParseState(name, addr, parsedLines, entries));
        i := i + 1;
      }
      return None;
    }

    /** `get_names`. */
    method GetNames() returns (names: seq<string>)
      ensures |names| == |entries| && forall i :: 0 <= i < |entries| ==> names[i] == entries[i].name
    {
      names := [];
      for i := 0 to |entries|
        invariant |names| == i && forall j :: 0 <= j < i ==> names[j] == entries[j].name
      {
        names := names + [entries[i].name];
      }
    }

    /** `get_bytes(name)`. */
    method GetBytes(name: string) returns (bytes: seq<Byte>)
      ensures bytes == BytesOf(entries, name)
    {
      bytes := [];
      for i := 0 to |entries|
        invariant bytes == BytesOf(entries[..i], name)
      {
        assert entries[..i + 1][..i] == entries[..i];
        if entries[i].name == name {
          var lines := entries[i].lines;
          for k := 0 to |lines|
            invariant bytes == BytesOf(entries[..i], name) + LineBytes(lines[..k])
          {
            assert lines[..k + 1][..k] == lines[..k];
            if lines[k].None? {
              continue;
            }
            bytes := bytes + lines[k].value.bytes;
          }
          assert lines[..|lines|] == lines;
        }
      }
      assert entries[..|entries|] == entries;
    }
  }

  /** The bytes of the parsed lines, skipping the `None` ones. */
  function LineBytes(lines: seq<Option<ParsedLine>>): seq<Byte> {
    if lines == [] then []
    else
      var last := lines[|lines| - 1];
      LineBytes(lines[..|lines| - 1]) + (if last.Some? then last.value.bytes else [])
  }

  /** The bytes of every entry named `name`, in entry order. */
  function BytesOf(entries: seq<Entry>, name: string): seq<Byte> {
    if entries == [] then []
    else
      var last := entries[|entries| - 1];
      BytesOf(entries[..|entries| - 1], name) + (if last.name == name then LineBytes(last.lines) else [])
  }

  // ---------------------------------------------------------------------
  // Properties of parse_line

  /** The address field exists exactly when the line starts with a non-blank and holds a blank. */
  lemma AddressExists(line: string)
    ensures AddressEnd(line).Some? <==>
      |line| > 0 && !IsBlank(line[0]) && exists i :: 0 <= i < |line| && IsBlank(line[i])
  {
    var n := NonBlankRun(line);
    if n < |line| {
      assert line[n..][0] == line[n];
    }
  }

  /**
   * The address field is the line's first blank-free run and all the blanks
   * after it; what follows it starts with a non-blank.
   */
  lemma AddressSplit(line: string, e: nat)
    requires AddressEnd(line) == Some(e)
    ensures var n := NonBlankRun(line);
      0 < n < e <= |line| && NoBlankIn(line, 0, n) && BlankIn(line, n, e) && (e < |line| ==> !IsBlank(line[e]))
  {
    var n := NonBlankRun(line);
    BlankRunFrom(line, n);
    assert e == n + BlankRun(line[n..]);
  }

  /** No blank in `s[lo..hi]`. */
  predicate NoBlankIn(s: string, lo: nat, hi: nat)
    requires lo <= hi <= |s|
  {
    forall i :: lo <= i < hi ==> !IsBlank(s[i])
  }

  /** Only blanks in `s[lo..hi]`. */
  predicate BlankIn(s: string, lo: nat, hi: nat)
    requires lo <= hi <= |s|
  {
    forall i :: lo <= i < hi ==> IsBlank(s[i])
  }

  /** The blank run that starts at `n`, read in the whole string. */
  lemma BlankRunFrom(s: string, n: nat)
    requires n <= |s|
    ensures var m := BlankRun(s[n..]);
      n + m <= |s| && BlankIn(s, n, n + m) && (n + m < |s| ==> !IsBlank(s[n + m]))
  {
    var m := BlankRun(s[n..]);
    forall i | n <= i < n + m
      ensures IsBlank(s[i])
    {
      assert s[i] == s[n..][i - n];
    }
    if n + m < |s| {
      assert s[n + m] == s[n..][m];
    }
  }

  /**
   * The bytes are one per leading `"XX "` pair, each the pair's value, and
   * consumption stops at the first position that is not a pair.
   */
  lemma {:induction false} HexBytesShape(s: string)
    ensures var (bs, rest) := HexBytes(s);
      3 * |bs| + |rest| == |s| && rest == s[3 * |bs|..] && !IsPair(rest) &&
      forall k :: 0 <= k < |bs| ==> IsPair(s[3 * k..]) && bs[k] == PairValue(s[3 * k..])
    decreases |s|
  {
    if IsPair(s) {
      HexBytesShape(s[3..]);
      var (bs, rest) := HexBytes(s[3..]);
      forall k | 1 <= k < |bs| + 1
        ensures s[3 * k..] == s[3..][3 * (k - 1)..]
      {
      }
    }
  }

  /** The `"XX "` text of a byte: two lower-case hex digits and a space. */
  function PairText(b: Byte): string {
    [DigitChar(b / 16), DigitChar(b % 16), ' ']
  }

  /** The pair texts of the bytes, run together. */
  function PairsText(bs: seq<Byte>): string {
    if bs == [] then "" else PairText(bs[0]) + PairsText(bs[1..])
  }

  lemma PairParses(b: Byte, tail: string)
    ensures var s := PairText(b) + tail; IsPair(s) && PairValue(s) == b && s[3..] == tail
  {
    var s := PairText(b) + tail;
    assert s[0] == DigitChar(b / 16) && s[1] == DigitChar(b % 16);
  }

  /** Reading back printed bytes gives the bytes, and leaves what follows them. */
  lemma {:induction false} HexBytesRoundTrip(bs: seq<Byte>, rest: string)
    requires !IsPair(rest)
    ensures HexBytes(PairsText(bs) + rest) == (bs, rest)
  {
    var s := PairsText(bs) + rest;
    if bs == [] {
      assert s == rest;
    } else {
      var t := PairsText(bs[1..]);
      assert PairsText(bs) == PairText(bs[0]) + t;
      assert s == PairText(bs[0]) + (t + rest);
      PairParses(bs[0], t + rest);
      HexBytesRoundTrip(bs[1..], rest);
      assert HexBytes(s[3..]) == (bs[1..], rest);
      assert [bs[0]] + bs[1..] == bs;
    }
  }

  /** `strip()` leaves a stripped string alone. */
  lemma StripStripped(s: string)
    ensures Strip(Strip(s)) == Strip(s)
  {
    var r := Strip(s);
    StripShape(s);
    assert TrimLeft(r) == r;
    assert TrimRight(r) == r;
  }

  /** `t` has no whitespace to strip. */
  predicate IsStripped(t: string) {
    Strip(t) == t
  }

  /** The split finds no separator in `f`. */
  predicate NoSeparator(f: string) {
    FirstSeparator(f) == |f|
  }

  /** The split finds no separator exactly when none starts anywhere. */
  lemma NoSeparatorAnywhere(f: string)
    ensures NoSeparator(f) <==> forall k :: 0 <= k < |f| ==> !SeparatorAt(f, k)
  {
    if !NoSeparator(f) {
      assert SeparatorAt(f, FirstSeparator(f));
    }
  }

  /** The text before the leftmost separator holds none. */
  lemma BeforeFirstSeparator(s: string)
    ensures NoSeparator(s[..FirstSeparator(s)])
  {
    var i := FirstSeparator(s);
    forall k | 0 <= k < i
      ensures !SeparatorAt(s[..i], k)
    {
      assert !SeparatorAt(s, k);
    }
    NoSeparatorAnywhere(s[..i]);
  }

  /** No operand piece holds a separator: the split is at every separator. */
  lemma {:induction false} SplitAtEverySeparator(s: string)
    ensures forall f :: f in SplitOperands(s) ==> NoSeparator(f)
    decreases |s|
  {
    var i := FirstSeparator(s);
    BeforeFirstSeparator(s);
    if i < |s| {
      var rest := SplitOperands(s[AfterFirstSeparator(s)..]);
      SplitAtEverySeparator(s[AfterFirstSeparator(s)..]);
      assert SplitOperands(s) == [s[..i]] + rest;
      forall f | f in SplitOperands(s)
        ensures NoSeparator(f)
      {
        if f != s[..i] {
          assert f in rest;
        }
      }
    } else {
      assert SplitOperands(s) == [s];
    }
  }

  /** The separator texts `re.split` drops, one between each two pieces. */
  function SeparatorsOf(s: string): seq<string>
    decreases |s|
  {
    if FirstSeparator(s) == |s| then []
    else [s[FirstSeparator(s)..AfterFirstSeparator(s)]] + SeparatorsOf(s[AfterFirstSeparator(s)..])
  }

  /** A text `, [ \t]+` matches: a comma, a space and at least one blank. */
  predicate IsSeparatorText(t: string) {
    |t| >= 3 && t[0] == ',' && t[1] == ' ' && forall k :: 2 <= k < |t| ==> IsBlank(t[k])
  }

  /** The pieces with the separators between them, run together. */
  function Join(pieces: seq<string>, seps: seq<string>): string
    requires |pieces| == |seps| + 1
  {
    if seps == [] then pieces[0] else pieces[0] + seps[0] + Join(pieces[1..], seps[1..])
  }

  /** The separator that starts at `i` is a matching text, taken with all its blanks. */
  lemma {:induction false} SeparatorMatch(s: string, i: nat)
    requires SeparatorAt(s, i)
    ensures var j := i + 2 + BlankRun(s[i + 2..]);
      i + 3 <= j <= |s| && IsSeparatorText(s[i..j]) && (j < |s| ==> !IsBlank(s[j]))
  {
    var j := i + 2 + BlankRun(s[i + 2..]);
    assert s[i + 2..][0] == s[i + 2];
    BlankRunFrom(s, i + 2);
    var t := s[i..j];
    forall k | 2 <= k < |t|
      ensures IsBlank(t[k])
    {
      assert t[k] == s[i + k];
    }
  }

  /** One step of the split: the piece before the leftmost separator, the separator, and the split of the rest. */
  lemma {:induction false} SplitStep(s: string)
    requires FirstSeparator(s) < |s|
    ensures var i, j := FirstSeparator(s), AfterFirstSeparator(s);
      SplitOperands(s) == [s[..i]] + SplitOperands(s[j..]) &&
      SeparatorsOf(s) == [s[i..j]] + SeparatorsOf(s[j..]) &&
      IsSeparatorText(s[i..j]) && (j < |s| ==> !IsBlank(s[j]))
  {
    SeparatorMatch(s, FirstSeparator(s));
  }

  /**
   * The split loses nothing: the pieces with the dropped separators between
   * them make up the text again.
   */
  lemma {:induction false} SplitJoin(s: string)
    ensures |SplitOperands(s)| == |SeparatorsOf(s)| + 1
    ensures Join(SplitOperands(s), SeparatorsOf(s)) == s
    decreases |s|
  {
    if FirstSeparator(s) < |s| {
      var i, j := FirstSeparator(s), AfterFirstSeparator(s);
      SplitStep(s);
      var t := s[j..];
      SplitJoin(t);
      var ps, ss := SplitOperands(t), SeparatorsOf(t);
      var p0, s0 := s[..i], s[i..j];
      calc {
        Join(SplitOperands(s), SeparatorsOf(s));
        { assert ([p0] + ps)[1..] == ps && ([s0] + ss)[1..] == ss; }
        p0 + s0 + Join(ps, ss);
        p0 + s0 + t;
        { assert s == s[..i] + s[i..j] + s[j..]; }
        s;
      }
    } else {
      assert SplitOperands(s) == [s];
      assert SeparatorsOf(s) == [];
    }
  }

  /**
   * Each dropped separator is a `, [ \t]+` match taken with all its blanks,
   * so no piece after the first starts with a blank.
   */
  lemma {:induction false} SplitSeparators(s: string)
    ensures forall k :: 0 <= k < |SeparatorsOf(s)| ==> IsSeparatorText(SeparatorsOf(s)[k])
    ensures forall k :: 0 < k < |SplitOperands(s)| ==> SplitOperands(s)[k] == "" || !IsBlank(SplitOperands(s)[k][0])
    decreases |s|
  {
    if FirstSeparator(s) < |s| {
      var i, j := FirstSeparator(s), AfterFirstSeparator(s);
      SplitStep(s);
      var t := s[j..];
      SplitSeparators(t);
      var ps, ss := SplitOperands(t), SeparatorsOf(t);
      forall k | 0 <= k < |SeparatorsOf(s)|
        ensures IsSeparatorText(SeparatorsOf(s)[k])
      {
        if k > 0 {
          assert SeparatorsOf(s)[k] == ss[k - 1];
        }
      }
      SplitHead(t);
      forall k | 0 < k < |SplitOperands(s)|
        ensures SplitOperands(s)[k] == "" || !IsBlank(SplitOperands(s)[k][0])
      {
        assert SplitOperands(s)[k] == ps[k - 1];
        if k == 1 && ps[0] != "" {
          assert ps[0][0] == s[j];
        }
      }
    } else {
      assert SplitOperands(s) == [s];
      assert SeparatorsOf(s) == [];
    }
  }

  /** The first piece is the text before the leftmost separator. */
  lemma {:induction false} SplitHead(s: string)
    ensures SplitOperands(s) != [] && SplitOperands(s)[0] == s[..FirstSeparator(s)]
  {
  }

  /** The split always yields a piece, and exactly one when there is no separator. */
  lemma {:induction false} SplitSingle(s: string)
    ensures |SplitOperands(s)| >= 1
    ensures |SplitOperands(s)| == 1 <==> FirstSeparator(s) == |s|
    decreases |s|
  {
    var i := FirstSeparator(s);
    if i < |s| {
      SplitSingle(s[AfterFirstSeparator(s)..]);
    }
  }

  /** `"a, b"` has a single operand: one blank after the comma's space is needed. */
  lemma OneSpaceDoesNotSplit()
    ensures SplitOperands("a, b") == ["a, b"]
    ensures SplitOperands("a,  b") == ["a", "b"]
  {
    assert !SeparatorAt("a, b", 0) && !SeparatorAt("a, b", 1) && !SeparatorAt("a, b", 2) && !SeparatorAt("a, b", 3);
    assert FirstSeparator("a, b") == 4;
    var t := "a,  b";
    assert SeparatorAt(t, 1) && !SeparatorAt(t, 0);
    assert FirstSeparator(t) == 1;
    assert t[3..] == " b";
    assert BlankRun(t[3..]) == 1;
    assert AfterFirstSeparator(t) == 4;
    assert t[4..] == "b";
    assert FirstSeparator("b") == 1;
    assert SplitOperands("b") == ["b"];
    assert t[..1] == "a";
    assert SplitOperands(t) == [t[..1]] + SplitOperands(t[4..]);
  }

  /** `parse_line` raises exactly on a line without an address field. */
  lemma ParseFailsWithoutAddress(line: string)
    ensures ParseLineSpec(line).Failure? <==> AddressEnd(line).None?
  {
  }

  /**
   * A parsed line keeps the line, has the address field as its `Address`
   * (the text before what `parse_line` goes on to read, by `AddressSplit`)
   * and the leading pairs' bytes as its `Bytes`. Its `Op` is the blank-free
   * token after the bytes and the blanks that follow them, absent when
   * nothing follows, and its `Operands` are read from the text after that
   * token.
   */
  lemma ParseLineShape(line: string)
    requires ParseLineSpec(line).Success? && ParseLineSpec(line).value.Some?
    ensures var p, e := ParseLineSpec(line).value.value, AddressEnd(line).value;
      var s := SkipSpaces(HexBytes(line[e..]).1);
      var n := NonBlankRun(s);
      p.line == line && p.address == line[..e] && p.bytes == HexBytes(line[e..]).0 &&
      p.op == (if n > 0 then Some(s[..n]) else None) && p.operands == OperandsOf(s[n..])
  {
    var e := AddressEnd(line).value;
    var h := HexBytes(line[e..]);
    var r := MnemonicAndOperands(SkipSpaces(h.1));
    assert r.Some? && ParseLineSpec(line).value.value == ParsedLine(line, line[..e], h.0, r.value.0, r.value.1);
  }

  /**
   * A line whose token after the bytes ends in `':'` or `';'` (a label or a
   * comment) parses to `None`, and no other line with an address field does.
   */
  lemma LabelIsNone(line: string)
    requires AddressEnd(line).Some?
    ensures var s := SkipSpaces(HexBytes(line[AddressEnd(line).value..]).1);
      var n := NonBlankRun(s);
      (n > 0 && (s[n - 1] == ':' || s[n - 1] == ';')) <==> ParseLineSpec(line) == Success(None)
  {
  }

  /**
   * The mnemonic of a parsed line is a non-empty blank-free token not
   * ending in `':'` or `';'` (the other lines are `None`, by `LabelIsNone`).
   */
  lemma ParsedMnemonic(line: string)
    requires ParseLineSpec(line).Success? && ParseLineSpec(line).value.Some?
    ensures var p := ParseLineSpec(line).value.value;
      p.op.Some? ==> IsMnemonic(p.op.value)
  {
    var e := AddressEnd(line).value;
    var h := HexBytes(line[e..]);
    var r := MnemonicAndOperands(SkipSpaces(h.1));
    assert r.Some? && ParseLineSpec(line).value.value.op == r.value.0;
    MnemonicShape(SkipSpaces(h.1));
  }

  /** Every operand of a parsed line is stripped. */
  lemma ParsedOperandsStripped(line: string)
    requires ParseLineSpec(line).Success? && ParseLineSpec(line).value.Some?
    ensures var p := ParseLineSpec(line).value.value;
      forall k :: 0 <= k < |p.operands| ==> IsStripped(p.operands[k])
  {
    var e := AddressEnd(line).value;
    var h := HexBytes(line[e..]);
    var r := MnemonicAndOperands(SkipSpaces(h.1));
    assert r.Some? && ParseLineSpec(line).value.value.operands == r.value.1;
    MnemonicShape(SkipSpaces(h.1));
  }

  /** The mnemonic stage yields a mnemonic token, when it yields one, and stripped operands. */
  lemma MnemonicShape(s: string)
    ensures var r := MnemonicAndOperands(s);
      (r.Some? && r.value.0.Some? ==> IsMnemonic(r.value.0.value)) &&
      (r.Some? ==> forall k :: 0 <= k < |r.value.1| ==> IsStripped(r.value.1[k]))
  {
    var n := NonBlankRun(s);
    if n > 0 && s[n - 1] != ':' && s[n - 1] != ';' {
      TokenIsMnemonic(s);
    }
    OperandsStripped(s[n..]);
  }

  /** A mnemonic token: non-empty, blank-free, and not ending in `':'` or `';'`. */
  predicate IsMnemonic(t: string) {
    t != "" && (forall i :: 0 <= i < |t| ==> !IsBlank(t[i])) && t[|t| - 1] != ':' && t[|t| - 1] != ';'
  }

  /** The blank-free token at the front of `s` is a mnemonic unless it ends in `':'` or `';'`. */
  lemma TokenIsMnemonic(s: string)
    requires NonBlankRun(s) > 0 && s[NonBlankRun(s) - 1] != ':' && s[NonBlankRun(s) - 1] != ';'
    ensures IsMnemonic(s[..NonBlankRun(s)])
  {
  }

  /** Every operand read from `s` is stripped. */
  lemma OperandsStripped(s: string)
    ensures forall k :: 0 <= k < |OperandsOf(s)| ==> IsStripped(OperandsOf(s)[k])
  {
    StripAllStripped(SplitOperands(SkipSpaces(s)));
  }

  lemma {:induction false} StripAllStripped(fields: seq<string>)
    ensures forall k :: 0 <= k < |StripAll(fields)| ==> IsStripped(StripAll(fields)[k])
  {
    if fields != [] {
      var init, last := fields[..|fields| - 1], fields[|fields| - 1];
      var r, r', x := StripAll(fields), StripAll(init), Strip(last);
      StripAllStripped(init);
      StripStripped(last);
      assert r == r' + [x];
      forall k | 0 <= k < |r|
        ensures IsStripped(r[k])
      {
        SnocIndex(r', x, k);
      }
    }
  }

  // ---------------------------------------------------------------------
  // Properties of parse

  predicate IsProcLine(l: string) {
    |Tokens(l)| > 2 && Tokens(l)[2] == "proc"
  }

  predicate IsEndpLine(l: string) {
    |Tokens(l)| > 2 && Tokens(l)[2] == "endp"
  }

  /** A line inside a procedure that neither opens nor closes one, and parses when it is parsed at all. */
  predicate IsBodyLine(l: string) {
    l != "" && !IsProcLine(l) && !IsEndpLine(l) && (|Tokens(l)| > 2 ==> ParseLineSpec(l).Success?)
  }

  /** Every line is a body line. */
  predicate AllBody(body: seq<string>) {
    body == [] || (IsBodyLine(body[0]) && AllBody(body[1..]))
  }

  /** What a body line adds to the open procedure's lines: its parse, when it has more than two tokens. */
  function BodyHead(l: string): seq<Option<ParsedLine>>
    requires IsBodyLine(l)
  {
    if |Tokens(l)| > 2 then [ParseLineSpec(l).value] else []
  }

  /** The parsed lines of a procedure body. */
  function ParsedBody(body: seq<string>): seq<Option<ParsedLine>>
    requires AllBody(body)
  {
    if body == [] then [] else BodyHead(body[0]) + ParsedBody(body[1..])
  }

  /** A line that steps without raising moves the loop on to the next line. */
  lemma RunStep(st: ParseState, l: string, rest: seq<string>, st': ParseState)
    requires l != "" && Step(st, l) == Success(st')
    ensures Run(st, [l] + rest) == Run(st', rest)
  {
    assert ([l] + rest)[0] == l;
    assert ([l] + rest)[1..] == rest;
  }

  /** A `proc` line opens a procedure with no lines yet. */
  lemma RunProc(st: ParseState, p: string, rest: seq<string>)
    requires IsProcLine(p) && |Fields(Tokens(p)[0], ':')| >= 2
    ensures Run(st, [p] + rest) == Run(ParseState(Tokens(p)[1], Fields(Tokens(p)[0], ':')[1], [], st.entries), rest)
  {
    var open := ParseState(Tokens(p)[1], Fields(Tokens(p)[0], ':')[1], [], st.entries);
    assert p != "" && Step(st, p) == Success(open);
    RunStep(st, p, rest, open);
  }

  /** An `endp` line closes the open procedure into an entry. */
  lemma RunEndp(st: ParseState, e: string, rest: seq<string>)
    requires st.name != "" && IsEndpLine(e)
    ensures Run(st, [e] + rest) == Run(ParseState("", "", st.lines, st.entries + [Entry(st.name, st.addr, st.lines)]), rest)
  {
    var closed := ParseState("", "", st.lines, st.entries + [Entry(st.name, st.addr, st.lines)]);
    assert e != "" && Step(st, e) == Success(closed);
    RunStep(st, e, rest, closed);
  }

  lemma StepBody(st: ParseState, l: string)
    requires st.name != "" && IsBodyLine(l)
    ensures Step(st, l) == Success(st.(lines := st.lines + BodyHead(l)))
  {
    assert st.lines + [] == st.lines;
  }

  /** Inside an open procedure, body lines only add their parsed lines. */
  lemma {:induction false} BodyRun(st: ParseState, body: seq<string>, tail: seq<string>)
    requires st.name != "" && AllBody(body)
    ensures Run(st, body + tail) == Run(st.(lines := st.lines + ParsedBody(body)), tail)
    decreases |body|
  {
    if body == [] {
      EmptyAppend(tail);
      AppendEmpty(st.lines);
    } else {
      ConsTail(body, tail);
      var st' := st.(lines := st.lines + BodyHead(body[0]));
      StepBody(st, body[0]);
      assert Run(st, body + tail) == Run(st', body[1..] + tail);
      BodyRun(st', body[1..], tail);
      var h, r := BodyHead(body[0]), ParsedBody(body[1..]);
      assert ParsedBody(body) == h + r;
      ConcatAssoc(st.lines, h, r);
    }
  }

  /**
   * A `proc` line, body lines and an `endp` line append exactly one entry:
   * named by the `proc` line's second token, with the part of its first
   * token after the colon as its address, and the body's parsed lines. The
   * lines of a procedure still open before the `proc` line are discarded.
   */
  lemma ProcEntry(st: ParseState, p: string, body: seq<string>, e: string, tail: seq<string>)
    requires IsProcLine(p) && |Fields(Tokens(p)[0], ':')| >= 2
    requires AllBody(body)
    requires IsEndpLine(e)
    ensures var entry := Entry(Tokens(p)[1], Fields(Tokens(p)[0], ':')[1], ParsedBody(body));
      Run(st, [p] + body + [e] + tail) == Run(ParseState("", "", ParsedBody(body), st.entries + [entry]), tail)
  {
    var open := ParseState(Tokens(p)[1], Fields(Tokens(p)[0], ':')[1], [], st.entries);
    TokensShape(p);
    assert IsToken(Tokens(p)[1]);
    RunProc(st, p, body + ([e] + tail));
    ConsShape(p, body, [e], tail);
    ProcCloses(open, body, e, tail);
  }

  lemma ProcCloses(open: ParseState, body: seq<string>, e: string, tail: seq<string>)
    requires open.name != "" && open.lines == [] && AllBody(body) && IsEndpLine(e)
    ensures Run(open, body + ([e] + tail)) ==
      Run(ParseState("", "", ParsedBody(body), open.entries + [Entry(open.name, open.addr, ParsedBody(body))]), tail)
  {
    BodyRun(open, body, [e] + tail);
    EmptyAppend(ParsedBody(body));
    RunEndp(open.(lines := ParsedBody(body)), e, tail);
  }

  /** Outside a procedure, every line but a `proc` line is ignored. */
  lemma {:induction false} OutsideIgnored(st: ParseState, lines: seq<string>)
    requires st.name == "" && forall l :: l in lines ==> !IsProcLine(l)
    ensures Run(st, lines) == (st, None)
  {
    if lines != [] && lines[0] != "" {
      assert lines[0] in lines;
      assert Step(st, lines[0]) == Success(st);
      OutsideIgnored(st, lines[1..]);
    }
  }

  /** Lines with at most two tokens never change the state. */
  lemma {:induction false} ShortLinesIgnored(st: ParseState, lines: seq<string>)
    requires forall l :: l in lines ==> |Tokens(l)| <= 2
    ensures Run(st, lines) == (st, None)
  {
    if lines != [] && lines[0] != "" {
      assert Step(st, lines[0]) == Success(st);
      ShortLinesIgnored(st, lines[1..]);
    }
  }

  // ---------------------------------------------------------------------
  // Properties of get_bytes

  lemma {:induction false} BytesOfConcat(xs: seq<Entry>, ys: seq<Entry>, name: string)
    ensures BytesOf(xs + ys, name) == BytesOf(xs, name) + BytesOf(ys, name)
  {
    if ys == [] {
      assert xs + ys == xs;
    } else {
      assert (xs + ys)[..|xs + ys| - 1] == xs + ys[..|ys| - 1];
      BytesOfConcat(xs, ys[..|ys| - 1], name);
    }
  }

  lemma BytesOfSingle(entry: Entry)
    ensures BytesOf([entry], entry.name) == LineBytes(entry.lines)
  {
    assert [entry][..0] == [];
    assert [] + LineBytes(entry.lines) == LineBytes(entry.lines);
  }

  /**
   * A listing that is one procedure: the parser ends with that one entry,
   * and the procedure's bytes are the bytes of its parsed lines.
   */
  lemma OneProcedure(p: string, body: seq<string>, e: string)
    requires IsProcLine(p) && |Fields(Tokens(p)[0], ':')| >= 2
    requires AllBody(body)
    requires IsEndpLine(e)
    ensures var entry := Entry(Tokens(p)[1], Fields(Tokens(p)[0], ':')[1], ParsedBody(body));
      var r := Run(ParseState("", "", [], []), [p] + body + [e]);
      r.1.None? && r.0.entries == [entry] && BytesOf(r.0.entries, entry.name) == LineBytes(ParsedBody(body))
  {
    var entry := Entry(Tokens(p)[1], Fields(Tokens(p)[0], ':')[1], ParsedBody(body));
    var lines := [p] + body + [e];
    ProcEntry(ParseState("", "", [], []), p, body, e, []);
    AppendEmpty(lines);
    EmptyAppend([entry]);
    var fin := ParseState("", "", ParsedBody(body), [entry]);
    assert Run(fin, []) == (fin, None);
    BytesOfSingle(entry);
  }
}
