/**
 * `GetStackArgs`: the stack arguments of a function, found by scanning its
 * frame offset by offset and keeping the members after the return address
 * member `' r'`, each with its offset relative to that member.
 */
module Frames {
  import opened Wrappers
  import opened Model
  import opened Backend

  /** `GetMemberName` as a truth value and a text: no member reads as `''`. */
  function Name(m: Option<string>): string {
    if m.Some? then m.value else ""
  }

  /** The scan's variables: `return_address_passed`, `last_name`, `return_offset` and `args`. */
  datatype ArgScan = ArgScan(passed: bool, last: string, ret: nat, args: seq<(string, int)>)

  /** The scan after the frame offsets in `s`. */
  function StackScan(s: seq<Option<string>>): ArgScan {
    if s == [] then ArgScan(false, "", 0, [])
    else
      var st := StackScan(s[..|s| - 1]);
      var offset := |s| - 1;
      var name := Name(s[offset]);
      if name != "" && name != st.last then
        if st.passed then st.(args := st.args + [(name, offset - st.ret)], last := name)
        else if name == " r" then st.(passed := true, ret := offset, last := name)
        else st.(last := name)
      else st
  }

  method GetStackArgs(b: Backend, ea: Address) returns (args: seq<(string, int)>)
    ensures args == StackScan(Frame(b, ea)).args
  {
    var stack := Frame(b, ea);
    args := [];
    var passed := false;
    var last := "";
    var ret := 0;
    for offset := 0 to |stack|
      invariant StackScan(stack[..offset]) == ArgScan(passed, last, ret, args)
    {
      assert stack[..offset + 1][..offset] == stack[..offset];
      var name := Name(stack[offset]);
      if name != "" && name != last {
        if passed {
          args := args + [(name, offset - ret)];
        } else if name == " r" {
          passed := true;
          ret := offset;
        }
        last := name;
      }
    }
    assert stack[..|stack|] == stack;
  }

  // ---------------------------------------------------------------------
  // What the scan finds

  /** The first offset whose member is the return address. */
  function ReturnOffset(s: seq<Option<string>>): Option<nat> {
    if s == [] then None
    else
      var r := ReturnOffset(s[..|s| - 1]);
      if r.Some? then r else if Name(s[|s| - 1]) == " r" then Some(|s| - 1) else None
  }

  /** The last non-empty member name in `s`, `''` if there is none. */
  function LastName(s: seq<Option<string>>): string {
    if s == [] then ""
    else if Name(s[|s| - 1]) != "" then Name(s[|s| - 1])
    else LastName(s[..|s| - 1])
  }

  /**
   * The members that start after offset `r`, each with its offset relative
   * to `r`: an offset starts a member when it has a name that differs from
   * the last name before it (a member spanning several offsets has the
   * same name at each).
   */
  function MembersAfter(s: seq<Option<string>>, r: nat): seq<(string, int)> {
    if |s| <= r + 1 then []
    else
      var o := |s| - 1;
      var name := Name(s[o]);
      MembersAfter(s[..o], r) + (if name != "" && name != LastName(s[..o]) then [(name, o - r)] else [])
  }

  /** The scan finds the return address member and lists the members after it. */
  lemma {:induction false} StackScanFinds(s: seq<Option<string>>)
    ensures var st := StackScan(s);
      st.last == LastName(s) &&
      (st.passed <==> ReturnOffset(s).Some?) &&
      (st.passed ==> st.ret == ReturnOffset(s).value) &&
      st.args == if ReturnOffset(s).Some? then MembersAfter(s, ReturnOffset(s).value) else []
  {
    if s != [] {
      var init := s[..|s| - 1];
      StackScanFinds(init);
      ReturnOffsetBelow(init);
      LastNameBeforeReturn(init);
      if ReturnOffset(init).None? && Name(s[|s| - 1]) == " r" {
        assert MembersAfter(s, |s| - 1) == [];
      }
    }
  }

  /** Before the return address member, the last name is never `' r'`. */
  lemma {:induction false} LastNameBeforeReturn(s: seq<Option<string>>)
    ensures ReturnOffset(s).None? ==> LastName(s) != " r"
  {
    if s != [] {
      LastNameBeforeReturn(s[..|s| - 1]);
    }
  }

  lemma {:induction false} ReturnOffsetBelow(s: seq<Option<string>>)
    ensures ReturnOffset(s).Some? ==> ReturnOffset(s).value < |s| && Name(s[ReturnOffset(s).value]) == " r"
  {
    if s != [] {
      ReturnOffsetBelow(s[..|s| - 1]);
    }
  }

  /** The member `x` lies after `r` and before the end of `s` and is named by `s` at its offset. */
  predicate PlacedAt(s: seq<Option<string>>, r: nat, x: (string, int)) {
    1 <= x.1 && r + x.1 < |s| && x.0 == Name(s[r + x.1]) && x.0 != ""
  }

  /** Each listed member is placed in the frame. */
  predicate Placed(s: seq<Option<string>>, r: nat, m: seq<(string, int)>) {
    forall i :: 0 <= i < |m| ==> PlacedAt(s, r, m[i])
  }

  /** Offsets strictly increase along the list. */
  predicate Increasing(m: seq<(string, int)>) {
    forall i :: 0 < i < |m| ==> m[i - 1].1 < m[i].1
  }

  /** The members after `r` come in increasing offset order, each placed in the frame. */
  lemma {:induction false} MembersAfterOrdered(s: seq<Option<string>>, r: nat)
    ensures Placed(s, r, MembersAfter(s, r)) && Increasing(MembersAfter(s, r))
  {
    if |s| > r + 1 {
      var o := |s| - 1;
      var init := s[..o];
      MembersAfterOrdered(init, r);
      var m := MembersAfter(init, r);
      var name := Name(s[o]);
      var tail := if name != "" && name != LastName(init) then [(name, o - r)] else [];
      var all := m + tail;
      assert MembersAfter(s, r) == all;
      forall i | 0 <= i < |all|
        ensures PlacedAt(s, r, all[i])
      {
        if i < |m| {
          assert all[i] == m[i];
          assert PlacedAt(init, r, m[i]);
          assert init[r + m[i].1] == s[r + m[i].1];
        } else {
          assert all[i] == (name, o - r);
        }
      }
      forall i | 0 < i < |all|
        ensures all[i - 1].1 < all[i].1
      {
        assert all[i - 1] == m[i - 1];
        assert PlacedAt(init, r, m[i - 1]);
        if i < |m| {
          assert all[i] == m[i];
        } else {
          assert all[i] == (name, o - r);
        }
      }
    }
  }

  /**
   * A frame without a return address member has no arguments; otherwise
   * they are the members after it, in increasing offset order, each offset
   * positive and relative to the return address, each named by the frame.
   */
  lemma StackArgsShape(s: seq<Option<string>>)
    ensures ReturnOffset(s).None? ==> StackScan(s).args == []
    ensures ReturnOffset(s).Some? ==>
      var r, args := ReturnOffset(s).value, StackScan(s).args;
      args == MembersAfter(s, r) && Placed(s, r, args) && Increasing(args)
  {
    StackScanFinds(s);
    if ReturnOffset(s).Some? {
      MembersAfterOrdered(s, ReturnOffset(s).value);
    }
  }
}
