/**
 * Annotations: `GetNotations` collects names and comments outside the
 * functions' instructions, `SaveNotations` stores them in the `Notations`
 * table, and `LoadNotations` replays a table onto the database. The table
 * is a set of rows: its unique constraint over all seven stored columns
 * makes a second insertion of a row a rejected no-op. The names and
 * comments `LoadNotations` writes are its output, a list of actions.
 */
module Notations {
  import opened Wrappers
  import opened Seqs
  import opened Model
  import opened Backend
  import opened Functions

  /** One `(rva, function_hash, sequence, type, value)` tuple of `GetNotations`. */
  datatype Notation = Notation(rva: int, hash: string, sequence: int, kind: string, value: string)

  // ---------------------------------------------------------------------
  // GetNotations

  /** The notes of one address the segment scan stops at: its name, comment and repeatable comment. */
  function NotesAt(b: Backend, a: Address): seq<Notation> {
    var rva := a - b.imageBase;
    (match TrueName(b, a)
     case Some(n) => if n != "" && !b.isReserved(n) then [Notation(rva, "", 0, "Name", n)] else []
     case None => []) +
    (match GetComment(b, a, false)
     case Some(c) => [Notation(rva, "", 0, "Comment", c)]
     case None => []) +
    (match GetComment(b, a, true)
     case Some(c) => [Notation(rva, "", 0, "Repeatable Comment", c)]
     case None => [])
  }

  /** The addresses the scan of `[a, end)` stops at, stepping by item size. */
  function Visited(b: Backend, a: Address, end: Address): set<Address>
    decreases end - a
  {
    if a >= end then {} else {a} + Visited(b, a + ItemSize(b, a), end)
  }

  /** The notes of the scan of `[a, end)`, skipping the checked addresses. */
  function ScanNotes(b: Backend, checked: set<Address>, a: Address, end: Address): seq<Notation>
    decreases end - a
  {
    if a >= end then []
    else (if a in checked then [] else NotesAt(b, a)) + ScanNotes(b, checked, a + ItemSize(b, a), end)
  }

  /** The notes of every segment, in segment order. */
  function SegmentsNotes(b: Backend, checked: set<Address>, segs: seq<Segment>): seq<Notation> {
    if segs == [] then []
    else
      var s := segs[|segs| - 1];
      SegmentsNotes(b, checked, segs[..|segs| - 1]) + ScanNotes(b, checked, s.start, s.end)
  }

  /**
   * `_GetFunctionNotations`: the addresses of every instruction of the given
   * functions. The hashes and notes it also builds are discarded.
   */
  function Checked(b: Backend, fs: seq<Address>): Result<set<Address>, Fault> {
    if fs == [] then Success({})
    else
      var c :- Checked(b, fs[..|fs| - 1]);
      var s :- FunctionInstructions(b, fs[|fs| - 1], None);
      Success(c + set x | x in s :: x.address)
  }

  /** What `GetNotations(hash_types)` returns. */
  function AllNotations(b: Backend, hashTypes: seq<string>): Result<seq<Notation>, Fault> {
    var checked :- if |hashTypes| > 0 then Checked(b, b.functions) else Success({});
    Success(SegmentsNotes(b, checked, b.segments))
  }

  method FunctionNotations(b: Backend) returns (r: Result<set<Address>, Fault>)
    ensures r == Checked(b, b.functions)
  {
    var checked := {};
    for i := 0 to |b.functions|
      invariant Checked(b, b.functions[..i]) == Success(checked)
    {
      CheckedSnoc(b, b.functions, i);
      var s := GetFunctionInstructions(b, b.functions[i], None);
      if s.Failure? {
        CheckedFailsOnPrefix(b, b.functions, i + 1);
        return Failure(s.error);
      }
      var addresses := InstructionAddresses(s.value);
      checked := checked + addresses;
    }
    assert b.functions[..|b.functions|] == b.functions;
    r := Success(checked);
  }

  /** The inner loop of `_GetFunctionNotations`: the address of every instruction. */
  method InstructionAddresses(insns: seq<Instruction>) returns (addresses: set<Address>)
    ensures addresses == set x | x in insns :: x.address
  {
    addresses := {};
    for k := 0 to |insns|
      invariant addresses == set x | x in insns[..k] :: x.address
    {
      assert (set x | x in insns[..k + 1] :: x.address) == (set x | x in insns[..k] :: x.address) + {insns[k].address};
      addresses := addresses + {insns[k].address};
    }
    assert insns[..|insns|] == insns;
  }

  /** One more function checked. */
  lemma CheckedSnoc(b: Backend, fs: seq<Address>, i: nat)
    requires i < |fs|
    ensures Checked(b, fs[..i + 1]) ==
      match Checked(b, fs[..i])
      case Failure(e) => Failure(e)
      case Success(c) =>
        match FunctionInstructions(b, fs[i], None)
        case Failure(e) => Failure(e)
        case Success(s) => Success(c + set x | x in s :: x.address)
  {
    assert fs[..i + 1][..i] == fs[..i];
  }

  /** A failure on a prefix of the functions is the failure of the whole list. */
  lemma {:induction false} CheckedFailsOnPrefix(b: Backend, fs: seq<Address>, n: nat)
    requires n <= |fs| && Checked(b, fs[..n]).Failure?
    ensures Checked(b, fs) == Checked(b, fs[..n])
    decreases |fs| - n
  {
    if n < |fs| {
      assert fs[..n + 1][..n] == fs[..n];
      CheckedFailsOnPrefix(b, fs, n + 1);
    } else {
      assert fs[..n] == fs;
    }
  }

  /** The `while current_address < seg.endEA` loop over one segment. */
  method ScanSegment(b: Backend, checked: set<Address>, seg: Segment) returns (notes: seq<Notation>)
    ensures notes == ScanNotes(b, checked, seg.start, seg.end)
  {
    notes := [];
    var current := seg.start;
    while current < seg.end
      invariant notes + ScanNotes(b, checked, current, seg.end) == ScanNotes(b, checked, seg.start, seg.end)
      decreases seg.end - current
    {
      var next := current + ItemSize(b, current);
      ghost var rest := ScanNotes(b, checked, next, seg.end);
      ScanNotesStep(b, checked, current, seg.end);
      if current in checked {
        EmptyAppend(rest);
        current := next;
        continue;
      }
      var more := AddressNotes(b, current);
      ConcatAssoc(notes, more, rest);
      notes := notes + more;
      current := next;
    }
  }

  lemma ScanNotesStep(b: Backend, checked: set<Address>, a: Address, end: Address)
    requires a < end
    ensures ScanNotes(b, checked, a, end) ==
      (if a in checked then [] else NotesAt(b, a)) + ScanNotes(b, checked, a + ItemSize(b, a), end)
  {
  }

  /** One more segment appends the notes of its scan. */
  lemma SegmentsNotesSnoc(b: Backend, checked: set<Address>, segs: seq<Segment>, i: nat)
    requires i < |segs|
    ensures SegmentsNotes(b, checked, segs[..i + 1]) ==
      SegmentsNotes(b, checked, segs[..i]) + ScanNotes(b, checked, segs[i].start, segs[i].end)
  {
    assert segs[..i + 1][..i] == segs[..i];
  }

  /** The notes of one address the scan stops at. */
  method AddressNotes(b: Backend, current: Address) returns (notes: seq<Notation>)
    ensures notes == NotesAt(b, current)
  {
    notes := [];
    var rva := current - b.imageBase;
    var name := TrueName(b, current);
    if name.Some? && name.value != "" && !b.isReserved(name.value) {
      notes := notes + [Notation(rva, "", 0, "Name", name.value)];
    }
    var comment := GetComment(b, current, false);
    if comment.Some? {
      notes := notes + [Notation(rva, "", 0, "Comment", comment.value)];
    }
    var repeatable := GetComment(b, current, true);
    if repeatable.Some? {
      notes := notes + [Notation(rva, "", 0, "Repeatable Comment", repeatable.value)];
    }
  }

  method GetNotations(b: Backend, hashTypes: seq<string>) returns (r: Result<seq<Notation>, Fault>)
    ensures r == AllNotations(b, hashTypes)
  {
    var checked := {};
    if |hashTypes| > 0 {
      var c := FunctionNotations(b);
      if c.Failure? {
        return Failure(c.error);
      }
      checked := c.value;
    }
    var notes := [];
    for i := 0 to |b.segments|
      invariant notes == SegmentsNotes(b, checked, b.segments[..i])
    {
      var more := ScanSegment(b, checked, b.segments[i]);
      SegmentsNotesSnoc(b, checked, b.segments, i);
      notes := notes + more;
    }
    assert b.segments[..|b.segments|] == b.segments;
    r := Success(notes);
  }

  // ---------------------------------------------------------------------
  // SaveNotations

  /** A row of the `Notations` table, without its `id`; a missing `RVA` is `None`. */
  datatype Row = Row(rva: Option<int>, hashType: string, hashParam: string, hash: string, sequence: int, kind: string, value: string)

  /** The row `SaveNotations` inserts for a note; `str(address)` lands in an integer column as the integer. */
  function RowOf(n: Notation): Row {
    Row(Some(n.rva), "FunctionHash", "", n.hash, n.sequence, n.kind, n.value)
  }

  /** The table after inserting every note whose value is not a reserved name. */
  function Saved(b: Backend, rows: set<Row>, notes: seq<Notation>): set<Row> {
    rows + set n | n in notes && !b.isReserved(n.value) :: RowOf(n)
  }

  /** The insertion loop of `SaveNotations`. */
  method InsertNotations(b: Backend, rows: set<Row>, notes: seq<Notation>) returns (rows': set<Row>)
    ensures rows' == Saved(b, rows, notes)
  {
    rows' := rows;
    for i := 0 to |notes|
      invariant rows' == Saved(b, rows, notes[..i])
    {
      assert (set n | n in notes[..i + 1] && !b.isReserved(n.value) :: RowOf(n)) ==
        (set n | n in notes[..i] && !b.isReserved(n.value) :: RowOf(n)) +
        (if b.isReserved(notes[i].value) then {} else {RowOf(notes[i])});
      if b.isReserved(notes[i].value) {
        continue;
      }
      var row := RowOf(notes[i]);
      if row in rows' {
        // the unique constraint rejects the insertion; the source prints the note
      } else {
        rows' := rows' + {row};
      }
    }
    assert notes[..|notes|] == notes;
  }

  method SaveNotations(b: Backend, rows: set<Row>, hashTypes: seq<string>) returns (r: Result<set<Row>, Fault>)
    ensures r.Success? <==> AllNotations(b, hashTypes).Success?
    ensures r.Success? ==> r.value == Saved(b, rows, AllNotations(b, hashTypes).value)
  {
    var notes := GetNotations(b, hashTypes);
    if notes.Failure? {
      return Failure(notes.error);
    }
    var rows' := InsertNotations(b, rows, notes.value);
    r := Success(rows');
  }

  // ---------------------------------------------------------------------
  // LoadNotations

  /** A write `LoadNotations` makes: `Cmt.Set(address, value[, 1])` or `Name.SetName(address, value)`. */
  datatype Action = SetComment(address: int, text: string, repeatable: bool) | SetName(address: int, name: string)

  /** The writes one row causes when no hash types are given. */
  function RowActions(b: Backend, row: Row): seq<Action> {
    if row.rva.None? then []
    else
      var a := b.imageBase + row.rva.value;
      if row.kind == "Comment" then [SetComment(a, row.value, false)]
      else if row.kind == "Repeatable Comment" then [SetComment(a, row.value, true)]
      else if row.kind == "Name" && !b.isReserved(row.value) then [SetName(a, row.value)]
      else []
  }

  /** The writes of the rows, in the order the query returns them. */
  function Replay(b: Backend, rows: seq<Row>): seq<Action> {
    if rows == [] then [] else Replay(b, rows[..|rows| - 1]) + RowActions(b, rows[|rows| - 1])
  }

  /**
   * What `LoadNotations` writes for the query result `rows`. With hash
   * types, the rows are stored by address but looked up by function hash,
   * so nothing is ever found and nothing is written; the function walks it
   * makes can still raise.
   */
  function LoadActions(b: Backend, rows: seq<Row>, hashTypes: seq<string>): Result<seq<Action>, Fault> {
    if |hashTypes| > 0 then
      var _ :- Checked(b, b.functions);
      Success([])
    else Success(Replay(b, rows))
  }

  method LoadNotations(b: Backend, rows: seq<Row>, hashTypes: seq<string>) returns (r: Result<seq<Action>, Fault>)
    ensures r == LoadActions(b, rows, hashTypes)
  {
    if |hashTypes| > 0 {
      var walked := FunctionNotations(b);
      if walked.Failure? {
        return Failure(walked.error);
      }
      return Success([]);
    }
    var actions := [];
    for i := 0 to |rows|
      invariant actions == Replay(b, rows[..i])
    {
      assert rows[..i + 1][..i] == rows[..i];
      var writes := RowWrites(b, rows[i]);
      actions := actions + writes;
    }
    assert rows[..|rows|] == rows;
    r := Success(actions);
  }

  /** The body of the replay loop for one row. */
  method RowWrites(b: Backend, row: Row) returns (writes: seq<Action>)
    ensures writes == RowActions(b, row)
  {
    writes := [];
    if row.rva.None? {
      return;
    }
    var a := b.imageBase + row.rva.value;
    if row.kind == "Comment" {
      writes := [SetComment(a, row.value, false)];
    } else if row.kind == "Repeatable Comment" {
      writes := [SetComment(a, row.value, true)];
    } else if row.kind == "Name" {
      if !b.isReserved(row.value) {
        writes := [SetName(a, row.value)];
      }
    }
  }

  // ---------------------------------------------------------------------
  // Properties

  /** The one note of an address that can be its name note. */
  lemma NotesAtName(b: Backend, y: Address, x: Address, name: string)
    ensures Notation(x - b.imageBase, "", 0, "Name", name) in NotesAt(b, y) <==>
      y == x && TrueName(b, x) == Some(name) && name != "" && !b.isReserved(name)
  {
  }

  /**
   * The scan of `[a, end)` emits the name note of `x` exactly when it
   * stops at `x`, `x` is not a checked instruction address, and `x` has a
   * non-empty name that is not reserved.
   */
  lemma {:induction false} ScanNameNotes(b: Backend, checked: set<Address>, a: Address, end: Address, x: Address, name: string)
    ensures Notation(x - b.imageBase, "", 0, "Name", name) in ScanNotes(b, checked, a, end) <==>
      x in Visited(b, a, end) && x !in checked && TrueName(b, x) == Some(name) && name != "" && !b.isReserved(name)
    decreases end - a
  {
    if a < end {
      var next := a + ItemSize(b, a);
      var here := if a in checked then [] else NotesAt(b, a);
      ScanNameNotes(b, checked, next, end, x, name);
      NotesAtName(b, a, x, name);
      ScanNotesStep(b, checked, a, end);
      InConcat(Notation(x - b.imageBase, "", 0, "Name", name), here, ScanNotes(b, checked, next, end));
      assert Visited(b, a, end) == {a} + Visited(b, next, end);
    }
  }

  /** Some segment's scan stops at `x`. */
  ghost predicate Scanned(b: Backend, segs: seq<Segment>, x: Address) {
    exists i :: 0 <= i < |segs| && x in Visited(b, segs[i].start, segs[i].end)
  }

  lemma ScannedSnoc(b: Backend, segs: seq<Segment>, x: Address)
    requires segs != []
    ensures Scanned(b, segs, x) <==>
      Scanned(b, segs[..|segs| - 1], x) || x in Visited(b, segs[|segs| - 1].start, segs[|segs| - 1].end)
  {
    var n := |segs| - 1;
    if x in Visited(b, segs[n].start, segs[n].end) {
      assert 0 <= n < |segs| && x in Visited(b, segs[n].start, segs[n].end);
    }
    if Scanned(b, segs, x) {
      var i :| 0 <= i < |segs| && x in Visited(b, segs[i].start, segs[i].end);
      if i < n {
        assert segs[..n][i] == segs[i];
      }
    }
    if Scanned(b, segs[..n], x) {
      var i :| 0 <= i < n && x in Visited(b, segs[..n][i].start, segs[..n][i].end);
      assert segs[..n][i] == segs[i];
    }
  }

  /** The name notes of all segments, by the same condition. */
  lemma {:induction false} SegmentsNameNotes(b: Backend, checked: set<Address>, segs: seq<Segment>, x: Address, name: string)
    ensures Notation(x - b.imageBase, "", 0, "Name", name) in SegmentsNotes(b, checked, segs) <==>
      Scanned(b, segs, x) && x !in checked && TrueName(b, x) == Some(name) && name != "" && !b.isReserved(name)
  {
    if segs != [] {
      var n := |segs| - 1;
      var note := Notation(x - b.imageBase, "", 0, "Name", name);
      SegmentsNameNotes(b, checked, segs[..n], x, name);
      ScanNameNotes(b, checked, segs[n].start, segs[n].end, x, name);
      ScannedSnoc(b, segs, x);
      assert SegmentsNotes(b, checked, segs) == SegmentsNotes(b, checked, segs[..n]) + ScanNotes(b, checked, segs[n].start, segs[n].end);
      InConcat(note, SegmentsNotes(b, checked, segs[..n]), ScanNotes(b, checked, segs[n].start, segs[n].end));
    }
  }

  /**
   * The writes of a replay: a name is set at `a` exactly when some row with
   * an `RVA` that lands on `a` is a `'Name'` row carrying it, and the name
   * is not reserved.
   */
  lemma {:induction false} ReplayNames(b: Backend, rows: seq<Row>, a: int, v: string)
    ensures SetName(a, v) in Replay(b, rows) <==>
      !b.isReserved(v) && exists r :: r in rows && r.rva.Some? && b.imageBase + r.rva.value == a && r.kind == "Name" && r.value == v
  {
    if rows != [] {
      var n := |rows| - 1;
      ReplayNames(b, rows[..n], a, v);
      RowSetsName(b, rows[n], a, v);
      assert forall r :: r in rows <==> r in rows[..n] || r == rows[n];
      assert Replay(b, rows) == Replay(b, rows[..n]) + RowActions(b, rows[n]);
    }
  }

  lemma RowSetsName(b: Backend, row: Row, a: int, v: string)
    ensures SetName(a, v) in RowActions(b, row) <==>
      !b.isReserved(v) && row.rva.Some? && b.imageBase + row.rva.value == a && row.kind == "Name" && row.value == v
  {
  }

  /** With hash types nothing is written; without them the rows are replayed. */
  lemma LoadWrites(b: Backend, rows: seq<Row>, hashTypes: seq<string>)
    ensures |hashTypes| == 0 ==> LoadActions(b, rows, hashTypes) == Success(Replay(b, rows))
    ensures |hashTypes| > 0 ==>
      (LoadActions(b, rows, hashTypes).Success? <==> Checked(b, b.functions).Success?) &&
      (LoadActions(b, rows, hashTypes).Success? ==> LoadActions(b, rows, hashTypes).value == [])
  {
  }

  /** No reserved name is ever set, whatever the table holds. */
  lemma LoadNeverSetsReserved(b: Backend, rows: seq<Row>, hashTypes: seq<string>, a: int, v: string)
    requires LoadActions(b, rows, hashTypes).Success? && SetName(a, v) in LoadActions(b, rows, hashTypes).value
    ensures !b.isReserved(v)
  {
    if |hashTypes| == 0 {
      ReplayNames(b, rows, a, v);
    }
  }

  /** Saving keeps the old rows, adds no row whose value is reserved, and saving the same notes again adds nothing. */
  lemma SaveKeeps(b: Backend, rows: set<Row>, notes: seq<Notation>)
    ensures rows <= Saved(b, rows, notes)
    ensures forall r :: r in Saved(b, rows, notes) && r !in rows ==> !b.isReserved(r.value) && r.hashType == "FunctionHash"
    ensures Saved(b, Saved(b, rows, notes), notes) == Saved(b, rows, notes)
  {
  }

  /**
   * The annotation round trip without hash types: a non-empty, non-reserved
   * name at an address the segment scan stops at is saved, and replaying
   * any query result that holds the saved rows sets that name at that same
   * address.
   */
  lemma NameRoundTrip(b: Backend, rows: set<Row>, selected: seq<Row>, i: nat, x: Address, name: string)
    requires i < |b.segments| && x in Visited(b, b.segments[i].start, b.segments[i].end)
    requires TrueName(b, x) == Some(name) && name != "" && !b.isReserved(name)
    requires forall r :: r in Saved(b, rows, AllNotations(b, []).value) ==> r in selected
    ensures Notation(x - b.imageBase, "", 0, "Name", name) in AllNotations(b, []).value
    ensures LoadActions(b, selected, []) == Success(Replay(b, selected))
    ensures SetName(x, name) in LoadActions(b, selected, []).value
  {
    var notes := AllNotations(b, []).value;
    var note := Notation(x - b.imageBase, "", 0, "Name", name);
    SegmentsNameNotes(b, {}, b.segments, x, name);
    assert Scanned(b, b.segments, x);
    assert note in notes;
    var row := RowOf(note);
    assert row in Saved(b, rows, notes);
    assert row in selected;
    ReplayNames(b, selected, x, name);
  }
}
