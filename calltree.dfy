/**
 * The call-tree walker: `FindUtilityFunctions` and `GetFunctionTree`. The
 * nested `GetCallRefs` of `GetFunctionTree` mutates three variables of its
 * enclosing call (`call_ref_maps`, `function_list`, `function_instructions`);
 * here they are the fields of a `TreeWalker`, and `Expand` says what one
 * `GetCallRefs` call turns them into.
 */
module CallTree {
  import opened Wrappers
  import opened Sets
  import opened Model
  import opened Backend
  import opened Operands
  import opened Filters
  import opened CallRefsLoop
  import opened Functions

  // ---------------------------------------------------------------------
  // FindUtilityFunctions

  /** The function starts with at least `threshold` incoming code references. */
  function UtilityFunctions(b: Backend, threshold: int): set<Address> {
    set f | f in b.functions && CallersCount(b, f) >= threshold
  }

  method FindUtilityFunctions(b: Backend, threshold: int) returns (utility: set<Address>)
    ensures utility == UtilityFunctions(b, threshold)
  {
    utility := {};
    for i := 0 to |b.functions|
      invariant utility == set f | f in b.functions[..i] && CallersCount(b, f) >= threshold
    {
      assert b.functions[..i + 1] == b.functions[..i] + [b.functions[i]];
      if CallersCount(b, b.functions[i]) >= threshold {
        utility := utility + {b.functions[i]};
      }
    }
    assert b.functions[..|b.functions|] == b.functions;
  }

  // ---------------------------------------------------------------------
  // The state of GetFunctionTree

  /** One `(level, name, ea, call_ea)` entry of `function_list`. */
  datatype TreeRecord = TreeRecord(level: nat, name: string, ea: Address, callEa: Address)

  /**
   * What the walk has built: the keys of `call_ref_maps` in the order they
   * were added, `function_list` and `function_instructions`.
   */
  datatype Tree = Tree(expanded: seq<Address>, records: seq<TreeRecord>, instructions: map<string, seq<Instruction>>)

  /** What every `GetCallRefs` call reads and none changes. */
  datatype Env = Env(b: Backend, filter: Option<Filter>, utility: set<Address>)

  /** The number of function addresses not yet expanded: what bounds the recursion. */
  function Measure(env: Env, t: Tree): nat {
    |Unexpanded(env, t)|
  }

  function Unexpanded(env: Env, t: Tree): set<Address> {
    env.b.functionOf.Keys - (set a | a in t.expanded)
  }

  /** `u` is `t` with more expanded addresses and more records after the old ones. */
  predicate Grows(t: Tree, u: Tree) {
    t.expanded <= u.expanded && t.records <= u.records
  }

  lemma GrowsMeasure(env: Env, t: Tree, u: Tree)
    requires Grows(t, u)
    ensures Measure(env, u) <= Measure(env, t)
  {
    SubsetNotLarger(Unexpanded(env, u), Unexpanded(env, t));
  }

  lemma MarkShrinks(env: Env, t: Tree, u: Tree, ea: Address)
    requires u.expanded == t.expanded + [ea] && ea in env.b.functionOf && ea !in t.expanded
    ensures Measure(env, u) < Measure(env, t)
  {
    SubsetSmaller(Unexpanded(env, u), Unexpanded(env, t), ea);
  }

  /** The record of the function `ea`, called from `callEa`, at `level`. */
  function Visit(env: Env, callEa: Address, ea: Address, level: nat): TreeRecord {
    TreeRecord(level, FunctionName(env.b, ea), ea, callEa)
  }

  /** The leaf record of one indirect register call site. */
  function Leaf(site: (Address, seq<Operand>), level: nat): Result<TreeRecord, Fault> {
    var text :- if |site.1| > 0 then GetOperandStr(site.1[0]) else Success(Str(""));
    Success(TreeRecord(level, PyStr(text), 0, site.0))
  }

  /** The leaf loop of `GetCallRefs`, from site `k` on. */
  function AddLeaves(t: Tree, sites: seq<(Address, seq<Operand>)>, k: nat, level: nat): Result<Tree, Fault>
    requires k <= |sites|
    decreases |sites| - k
  {
    if k == |sites| then Success(t)
    else
      var leaf :- Leaf(sites[k], level);
      AddLeaves(t.(records := t.records + [leaf]), sites, k + 1, level)
  }

  /** One `GetCallRefs(callEa, ea, level)` call. */
  function Expand(env: Env, t: Tree, callEa: Address, ea: Address, level: nat): (r: Result<Tree, Fault>)
    ensures r.Success? ==> Grows(t, r.value)
    decreases Measure(env, t), 1, 0
  {
    var name := FunctionName(env.b, ea);
    var t1 := t.(records := t.records + [Visit(env, callEa, ea, level)]);
    if ea in env.utility || ea in t.expanded then Success(t1)
    else
      var refs :- FunctionCallRefs(env.b, ea, env.filter);
      var marked := Tree(t.expanded + [ea], t1.records, t.instructions[name := refs.instructions]);
      var t2 :- AddLeaves(marked, refs.indirect, 0, level + 1);
      LeavesShape(marked, refs.indirect, 0, level + 1);
      MarkShrinks(env, t, t2, ea);
      Calls(env, t2, refs.calls, 0, level + 1)
  }

  /** The loop of `GetCallRefs` over the direct call references, from `k` on. */
  function Calls(env: Env, t: Tree, calls: seq<(Address, Address)>, k: nat, level: nat): (r: Result<Tree, Fault>)
    requires k <= |calls|
    ensures r.Success? ==> Grows(t, r.value)
    decreases Measure(env, t), 2, |calls| - k
  {
    if k == |calls| then Success(t)
    else
      var u :- Expand(env, t, calls[k].0, calls[k].1, level);
      GrowsMeasure(env, t, u);
      Calls(env, u, calls, k + 1, level)
  }

  /** What `GetFunctionTree` returns for the tree rooted at `root`. */
  function FunctionTree(b: Backend, root: Address, threshold: int, filter: Option<Filter>)
    : Result<(seq<TreeRecord>, map<string, seq<Instruction>>), Fault>
  {
    var t :- Expand(Env(b, filter, UtilityFunctions(b, threshold)), Tree([], [], map[]), root, root, 0);
    Success((t.records, t.instructions))
  }

  /** A fault as the `Option` a `TreeWalker` method returns, with the state it leaves. */
  function Outcome(fault: Option<Fault>, t: Tree): Result<Tree, Fault> {
    if fault.None? then Success(t) else Failure(fault.value)
  }

  // ---------------------------------------------------------------------
  // The walk as the source runs it

  class TreeWalker {
    const env: Env
    var expanded: seq<Address>
    var records: seq<TreeRecord>
    var instructions: map<string, seq<Instruction>>

    function State(): Tree
      reads this
    {
      Tree(expanded, records, instructions)
    }

    constructor(env: Env)
      ensures this.env == env && State() == Tree([], [], map[])
    {
      this.env := env;
      expanded := [];
      records := [];
      instructions := map[];
    }

    /** The loop over the indirect call sites, appending one leaf record each. */
    method AddLeafRecords(sites: seq<(Address, seq<Operand>)>, level: nat) returns (fault: Option<Fault>)
      modifies this
      ensures Outcome(fault, State()) == AddLeaves(old(State()), sites, 0, level)
    {
      for k := 0 to |sites|
        invariant AddLeaves(State(), sites, k, level) == AddLeaves(old(State()), sites, 0, level)
      {
        var text := Str("");
        if |sites[k].1| > 0 {
          var s := GetOperandStr(sites[k].1[0]);
          if s.Failure? {
            return Some(s.error);
          }
          text := s.value;
        }
        records := records + [TreeRecord(level, PyStr(text), 0, sites[k].0)];
      }
      return None;
    }

    method GetCallRefs(callEa: Address, ea: Address, level: nat) returns (fault: Option<Fault>)
      modifies this
      ensures Outcome(fault, State()) == Expand(env, old(State()), callEa, ea, level)
      decreases Measure(env, State()), 1
    {
      var name := FunctionName(env.b, ea);
      records := records + [TreeRecord(level, name, ea, callEa)];
      if ea in env.utility || ea in expanded {
        return None;
      }
      expanded := expanded + [ea];
      var refs := GetFunctionCallRefs(env.b, ea, env.filter);
      if refs.Failure? {
        return Some(refs.error);
      }
      instructions := instructions[name := refs.value.instructions];
      ghost var marked := State();
      fault := AddLeafRecords(refs.value.indirect, level + 1);
      if fault.Some? {
        return;
      }
      LeavesShape(marked, refs.value.indirect, 0, level + 1);
      ghost var t2 := State();
      MarkShrinks(env, old(State()), t2, ea);
      var calls := refs.value.calls;
      for k := 0 to |calls|
        invariant Calls(env, State(), calls, k, level + 1) == Expand(env, old(State()), callEa, ea, level)
        invariant Grows(t2, State())
      {
        GrowsMeasure(env, t2, State());
        var f := GetCallRefs(calls[k].0, calls[k].1, level + 1);
        if f.Some? {
          return f;
        }
      }
      return None;
    }
  }

  method GetFunctionTree(b: Backend, root: Address, threshold: int, filter: Option<Filter>)
    returns (r: Result<(seq<TreeRecord>, map<string, seq<Instruction>>), Fault>)
    ensures r == FunctionTree(b, root, threshold, filter)
  {
    var utility := FindUtilityFunctions(b, threshold);
    var walker := new TreeWalker(Env(b, filter, utility));
    var fault := walker.GetCallRefs(root, root, 0);
    if fault.Some? {
      return Failure(fault.value);
    }
    r := Success((walker.records, walker.instructions));
  }

  // ---------------------------------------------------------------------
  // Properties

  /**
   * The leaf loop appends exactly one record per site, in order, and
   * touches nothing else; it fails exactly when some site's operand text
   * raises.
   */
  lemma {:induction false} LeavesShape(t: Tree, sites: seq<(Address, seq<Operand>)>, k: nat, level: nat)
    requires k <= |sites|
    ensures var r := AddLeaves(t, sites, k, level);
      (r.Success? <==> forall j :: k <= j < |sites| ==> Leaf(sites[j], level).Success?) &&
      (r.Success? ==>
        r.value.expanded == t.expanded && r.value.instructions == t.instructions &&
        |r.value.records| == |t.records| + |sites| - k && t.records <= r.value.records &&
        forall j :: k <= j < |sites| ==> r.value.records[|t.records| + j - k] == Leaf(sites[j], level).value)
    decreases |sites| - k
  {
    if k < |sites| && Leaf(sites[k], level).Success? {
      var u := t.(records := t.records + [Leaf(sites[k], level).value]);
      LeavesShape(u, sites, k + 1, level);
    }
  }

  /**
   * What the walk keeps true: no address is expanded twice, no utility
   * function is expanded, every expanded address lies in a function, and
   * `function_instructions` has an entry for exactly the expanded names.
   */
  predicate TreeInv(env: Env, t: Tree) {
    (forall i, j :: 0 <= i < j < |t.expanded| ==> t.expanded[i] != t.expanded[j]) &&
    (forall a :: a in t.expanded ==> a !in env.utility && a in env.b.functionOf) &&
    t.instructions.Keys == set a | a in t.expanded :: FunctionName(env.b, a)
  }

  lemma {:induction false} ExpandKeeps(env: Env, t: Tree, callEa: Address, ea: Address, level: nat)
    requires TreeInv(env, t)
    ensures Expand(env, t, callEa, ea, level).Success? ==> TreeInv(env, Expand(env, t, callEa, ea, level).value)
    decreases Measure(env, t), 1, 0
  {
    if Expand(env, t, callEa, ea, level).Success? && ea !in env.utility && ea !in t.expanded {
      var name := FunctionName(env.b, ea);
      var refs := FunctionCallRefs(env.b, ea, env.filter).value;
      var marked := Tree(t.expanded + [ea], t.records + [Visit(env, callEa, ea, level)], t.instructions[name := refs.instructions]);
      MarkKeeps(env, t, marked, ea);
      LeavesShape(marked, refs.indirect, 0, level + 1);
      var t2 := AddLeaves(marked, refs.indirect, 0, level + 1).value;
      MarkShrinks(env, t, t2, ea);
      CallsKeeps(env, t2, refs.calls, 0, level + 1);
    }
  }

  /** Marking an address outside the utility functions and inside a function, not yet marked, keeps the invariant. */
  lemma MarkKeeps(env: Env, t: Tree, u: Tree, ea: Address)
    requires TreeInv(env, t) && ea !in env.utility && ea in env.b.functionOf && ea !in t.expanded
    requires u.expanded == t.expanded + [ea] && u.instructions.Keys == t.instructions.Keys + {FunctionName(env.b, ea)}
    ensures TreeInv(env, u)
  {
    assert (set a | a in u.expanded :: FunctionName(env.b, a)) == (set a | a in t.expanded :: FunctionName(env.b, a)) + {FunctionName(env.b, ea)};
  }

  lemma {:induction false} CallsKeeps(env: Env, t: Tree, calls: seq<(Address, Address)>, k: nat, level: nat)
    requires k <= |calls| && TreeInv(env, t)
    ensures Calls(env, t, calls, k, level).Success? ==> TreeInv(env, Calls(env, t, calls, k, level).value)
    decreases Measure(env, t), 2, |calls| - k
  {
    if k < |calls| && Expand(env, t, calls[k].0, calls[k].1, level).Success? {
      var u := Expand(env, t, calls[k].0, calls[k].1, level).value;
      ExpandKeeps(env, t, calls[k].0, calls[k].1, level);
      GrowsMeasure(env, t, u);
      CallsKeeps(env, u, calls, k + 1, level);
    }
  }

  /**
   * Every call appends its own record first; a utility function or an
   * address already expanded gets that record and nothing else.
   */
  lemma ExpandRecordsFirst(env: Env, t: Tree, callEa: Address, ea: Address, level: nat)
    ensures var r := Expand(env, t, callEa, ea, level);
      r.Success? ==> |t.records| < |r.value.records| && r.value.records[|t.records|] == Visit(env, callEa, ea, level)
    ensures ea in env.utility || ea in t.expanded ==>
      Expand(env, t, callEa, ea, level) == Success(t.(records := t.records + [Visit(env, callEa, ea, level)]))
  {
    var r := Expand(env, t, callEa, ea, level);
    if r.Success? && ea !in env.utility && ea !in t.expanded {
      var refs := FunctionCallRefs(env.b, ea, env.filter).value;
      var marked := Tree(t.expanded + [ea], t.records + [Visit(env, callEa, ea, level)], t.instructions[FunctionName(env.b, ea) := refs.instructions]);
      LeavesShape(marked, refs.indirect, 0, level + 1);
    }
  }

  /** Every direct call reference of the list gets a record at the calls' level. */
  lemma {:induction false} CallsRecords(env: Env, t: Tree, calls: seq<(Address, Address)>, k: nat, level: nat)
    requires k <= |calls|
    ensures var r := Calls(env, t, calls, k, level);
      r.Success? ==> forall j :: k <= j < |calls| ==> Visit(env, calls[j].0, calls[j].1, level) in r.value.records
    decreases |calls| - k
  {
    if k < |calls| && Calls(env, t, calls, k, level).Success? {
      var u := Expand(env, t, calls[k].0, calls[k].1, level).value;
      var r := Calls(env, u, calls, k + 1, level).value;
      ExpandRecordsFirst(env, t, calls[k].0, calls[k].1, level);
      CallsRecords(env, u, calls, k + 1, level);
      forall j | k <= j < |calls|
        ensures Visit(env, calls[j].0, calls[j].1, level) in r.records
      {
        if j == k {
          assert r.records[|t.records|] == u.records[|t.records|];
        }
      }
    }
  }

  /**
   * Expanding a function that is neither a utility function nor expanded
   * already: it lies in a function, it is marked, its indirect sites yield
   * leaf records one level down right after its own record, in order.
   */
  lemma ExpandExpands(env: Env, t: Tree, callEa: Address, ea: Address, level: nat)
    requires ea !in env.utility && ea !in t.expanded
    requires Expand(env, t, callEa, ea, level).Success?
    ensures FunctionCallRefs(env.b, ea, env.filter).Success? && ea in env.b.functionOf
    ensures var refs, u := FunctionCallRefs(env.b, ea, env.filter).value, Expand(env, t, callEa, ea, level).value;
      |t.expanded| < |u.expanded| && u.expanded[|t.expanded|] == ea &&
      |t.records| + 1 + |refs.indirect| <= |u.records| &&
      (forall j :: 0 <= j < |refs.indirect| ==>
        Leaf(refs.indirect[j], level + 1).Success? && u.records[|t.records| + 1 + j] == Leaf(refs.indirect[j], level + 1).value)
  {
    var marked, t2 := ExpandUnfold(env, t, callEa, ea, level);
    var refs := FunctionCallRefs(env.b, ea, env.filter).value;
    ExpansionShape(t, marked, t2, Expand(env, t, callEa, ea, level).value, refs.indirect, ea, level + 1);
  }

  /** A tree marked with `ea`, then given its leaves, then grown, has `ea` and the leaves where they were put. */
  lemma ExpansionShape(t: Tree, marked: Tree, t2: Tree, u: Tree, sites: seq<(Address, seq<Operand>)>, ea: Address, level: nat)
    requires marked.expanded == t.expanded + [ea] && |marked.records| == |t.records| + 1
    requires AddLeaves(marked, sites, 0, level) == Success(t2) && Grows(t2, u)
    ensures |t.expanded| < |u.expanded| && u.expanded[|t.expanded|] == ea &&
      |t.records| + 1 + |sites| <= |u.records| &&
      (forall j :: 0 <= j < |sites| ==> Leaf(sites[j], level).Success? && u.records[|t.records| + 1 + j] == Leaf(sites[j], level).value)
  {
    LeavesShape(marked, sites, 0, level);
    assert u.expanded[|t.expanded|] == marked.expanded[|t.expanded|];
    forall j | 0 <= j < |sites|
      ensures u.records[|t.records| + 1 + j] == Leaf(sites[j], level).value
    {
      assert u.records[|t.records| + 1 + j] == t2.records[|marked.records| + j];
    }
  }

  /** Each direct call reference of an expanded function is visited one level down. */
  lemma ExpandVisitsCalls(env: Env, t: Tree, callEa: Address, ea: Address, level: nat)
    requires ea !in env.utility && ea !in t.expanded
    requires Expand(env, t, callEa, ea, level).Success?
    ensures FunctionCallRefs(env.b, ea, env.filter).Success?
    ensures var refs, u := FunctionCallRefs(env.b, ea, env.filter).value, Expand(env, t, callEa, ea, level).value;
      forall j :: 0 <= j < |refs.calls| ==> Visit(env, refs.calls[j].0, refs.calls[j].1, level + 1) in u.records
  {
    var marked, t2 := ExpandUnfold(env, t, callEa, ea, level);
    var refs := FunctionCallRefs(env.b, ea, env.filter).value;
    CallsRecords(env, t2, refs.calls, 0, level + 1);
  }

  /** The expansion of a function neither a utility nor expanded: mark it, add its leaves, walk its calls. */
  lemma ExpandUnfold(env: Env, t: Tree, callEa: Address, ea: Address, level: nat) returns (marked: Tree, t2: Tree)
    requires ea !in env.utility && ea !in t.expanded
    requires Expand(env, t, callEa, ea, level).Success?
    ensures FunctionCallRefs(env.b, ea, env.filter).Success? && ea in env.b.functionOf
    ensures var refs := FunctionCallRefs(env.b, ea, env.filter).value;
      marked == Tree(t.expanded + [ea], t.records + [Visit(env, callEa, ea, level)], t.instructions[FunctionName(env.b, ea) := refs.instructions]) &&
      AddLeaves(marked, refs.indirect, 0, level + 1) == Success(t2) &&
      Expand(env, t, callEa, ea, level) == Calls(env, t2, refs.calls, 0, level + 1)
  {
    CallRefsInFunction(env.b, ea, env.filter);
    var refs := FunctionCallRefs(env.b, ea, env.filter).value;
    marked := Tree(t.expanded + [ea], t.records + [Visit(env, callEa, ea, level)], t.instructions[FunctionName(env.b, ea) := refs.instructions]);
    t2 := AddLeaves(marked, refs.indirect, 0, level + 1).value;
  }

  lemma CallRefsInFunction(b: Backend, ea: Address, filter: Option<Filter>)
    ensures FunctionCallRefs(b, ea, filter).Success? ==> ea in b.functionOf
  {
  }

  /**
   * The tree's first record is the root's, at level 0 and called from
   * itself; a utility root is all there is; a root outside every function
   * (and not a utility function) raises; and every entry of
   * `function_instructions` is the name of a function that is not a utility
   * function.
   */
  lemma FunctionTreeRoot(b: Backend, root: Address, threshold: int, filter: Option<Filter>)
    ensures var r := FunctionTree(b, root, threshold, filter);
      r.Success? ==> |r.value.0| > 0 && r.value.0[0] == TreeRecord(0, FunctionName(b, root), root, root)
    ensures root in UtilityFunctions(b, threshold) ==>
      FunctionTree(b, root, threshold, filter) == Success(([TreeRecord(0, FunctionName(b, root), root, root)], map[]))
    ensures root !in UtilityFunctions(b, threshold) && root !in b.functionOf ==>
      FunctionTree(b, root, threshold, filter) == Failure(NotInFunction(root))
    ensures var r := FunctionTree(b, root, threshold, filter);
      r.Success? ==> forall n :: n in r.value.1 ==>
        exists a :: a in b.functionOf && a !in UtilityFunctions(b, threshold) && FunctionName(b, a) == n
  {
    var env := Env(b, filter, UtilityFunctions(b, threshold));
    var empty := Tree([], [], map[]);
    ExpandRecordsFirst(env, empty, root, root, 0);
    assert [] + [Visit(env, root, root, 0)] == [Visit(env, root, root, 0)];
    assert root in env.utility ==> Expand(env, empty, root, root, 0) == Success(Tree([], [TreeRecord(0, FunctionName(b, root), root, root)], map[]));
    ExpandKeeps(env, empty, root, root, 0);
    FunctionCallRefsFacts(b, root, filter);
  }
}
