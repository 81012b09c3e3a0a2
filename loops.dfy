/**
 * The loop finder (`EnumeratePaths`, `FindFunctionLoops`): a depth-first
 * walk over the block successor map `src_map` that carries the current path
 * and, per branch, the set of siblings already explored, and records every
 * path suffix that closes a cycle. The `loops` dictionary is keyed by the
 * text of the suffix, which is one key per distinct suffix; here it is the
 * list of its values, in insertion order.
 */
module Loops {
  import opened Wrappers
  import opened Sets
  import opened Model
  import opened Functions

  /** `src_map`: the successors of each block start. */
  type Graph = map<Address, seq<Address>>

  /** `dst` is a successor of `src`. */
  predicate Edge(g: Graph, src: Address, dst: Address) {
    src in g && dst in g[src]
  }

  /** The position of the first occurrence of `x` in `path`, `|path|` when there is none. */
  function FirstIndex(path: seq<Address>, x: Address): (i: nat)
    ensures i <= |path| && (i < |path| <==> x in path) && (i < |path| ==> path[i] == x)
    ensures forall j :: 0 <= j < i ==> path[j] != x
  {
    if path == [] then 0
    else if path[0] == x then 0
    else 1 + FirstIndex(path[1..], x)
  }

  /** `loops[str(loop)] = loop`: a new key is appended; an existing key keeps its place and value. */
  function Record(loops: seq<seq<Address>>, loop: seq<Address>): seq<seq<Address>> {
    if loop in loops then loops else loops + [loop]
  }

  /** The block starts not yet on the path: shrinks as the path grows. */
  function Unvisited(g: Graph, path: seq<Address>): set<Address> {
    set a | a in g && a !in path
  }

  lemma UnvisitedShrinks(g: Graph, path: seq<Address>, src: Address)
    requires src in g && src !in path
    ensures |Unvisited(g, path + [src])| < |Unvisited(g, path)|
  {
    SubsetSmaller(Unvisited(g, path + [src]), Unvisited(g, path), src);
  }

  /**
   * `EnumeratePaths(src_map, src, visited_nodes, paths, loops)`: the loops
   * dictionary after the call. A node already explored by an earlier sibling
   * is skipped; a node already on the path closes the loop from its first
   * occurrence; otherwise the node's successors are explored in order, each
   * marked as explored once its call returns.
   */
  function Enumerate(g: Graph, src: Address, visited: set<Address>, path: seq<Address>, loops: seq<seq<Address>>): seq<seq<Address>>
    decreases |Unvisited(g, path)|, 0, 0
  {
    if src in visited then loops
    else if src in path then Record(loops, path[FirstIndex(path, src)..])
    else if src in g then
      UnvisitedShrinks(g, path, src);
      Children(g, g[src], 0, visited, path + [src], loops)
    else loops
  }

  /** The loop over the successors `dsts`, from position `k` on, below the node that ends `path`. */
  function Children(g: Graph, dsts: seq<Address>, k: nat, visited: set<Address>, path: seq<Address>, loops: seq<seq<Address>>): seq<seq<Address>>
    requires k <= |dsts|
    decreases |Unvisited(g, path)|, 1, |dsts| - k
  {
    if k == |dsts| then loops
    else Children(g, dsts, k + 1, visited + {dsts[k]}, path, Enumerate(g, dsts[k], visited, path, loops))
  }

  /**
   * The walk as the source runs it: the search loop for the position of
   * `src` on the path, then the recursion, which threads the shared `loops`
   * through all calls and grows this call's copy of `visited_nodes`.
   */
  method EnumeratePaths(g: Graph, src: Address, visited: set<Address>, path: seq<Address>, loops: seq<seq<Address>>)
    returns (loops': seq<seq<Address>>)
    ensures loops' == Enumerate(g, src, visited, path, loops)
    decreases |Unvisited(g, path)|
  {
    var index := 0;
    while index < |path| && path[index] != src
      invariant index <= |path| && forall j :: 0 <= j < index ==> path[j] != src
    {
      index := index + 1;
    }
    if src in visited {
      return loops;
    }
    if index != |path| {
      assert index == FirstIndex(path, src);
      return Record(loops, path[index..]);
    }
    assert src !in path;
    loops' := loops;
    if src in g {
      var dsts := g[src];
      var explored := visited;
      UnvisitedShrinks(g, path, src);
      for k := 0 to |dsts|
        invariant Children(g, dsts, k, explored, path + [src], loops') == Enumerate(g, src, visited, path, loops)
      {
        loops' := EnumeratePaths(g, dsts[k], explored, path + [src], loops');
        explored := explored + {dsts[k]};
      }
    }
  }

  /** A list without repeated elements. */
  predicate Distinct<T(==)>(s: seq<T>) {
    forall i, j :: 0 <= i < j < |s| ==> s[i] != s[j]
  }

  /** Consecutive nodes are edges. */
  predicate Chained(g: Graph, p: seq<Address>) {
    forall i :: 0 <= i < |p| - 1 ==> Edge(g, p[i], p[i + 1])
  }

  /** A simple cycle: distinct nodes, consecutive ones joined by edges, and an edge from the last back to the first. */
  predicate IsCycle(g: Graph, c: seq<Address>) {
    |c| >= 1 && Distinct(c) && Chained(g, c) && Edge(g, c[|c| - 1], c[0])
  }

  /** The cycle is the end of a path from `root`. */
  ghost predicate FromRoot(g: Graph, root: Address, c: seq<Address>) {
    exists pre :: |pre + c| > 0 && Chained(g, pre + c) && (pre + c)[0] == root
  }

  /** Every recorded loop is a simple cycle at the end of a path from `root`. */
  ghost predicate LoopsFrom(g: Graph, root: Address, loops: seq<seq<Address>>) {
    forall l :: l in loops ==> IsCycle(g, l) && FromRoot(g, root, l)
  }

  /**
   * The search state at a call: the path is a simple path from `root`, and
   * `src` is `root` on the first call and a successor of the path's end on
   * every other.
   */
  predicate PathTo(g: Graph, root: Address, path: seq<Address>, src: Address) {
    Distinct(path) && Chained(g, path) &&
    (path == [] ==> src == root) &&
    (path != [] ==> path[0] == root && Edge(g, path[|path| - 1], src))
  }

  /** A suffix of a simple chained path is simple and chained. */
  lemma Suffix(g: Graph, p: seq<Address>, i: nat)
    requires i <= |p| && Distinct(p) && Chained(g, p)
    ensures Distinct(p[i..]) && Chained(g, p[i..])
  {
    var c := p[i..];
    forall j | 0 <= j < |c| - 1
      ensures Edge(g, c[j], c[j + 1])
    {
      assert c[j] == p[i + j] && c[j + 1] == p[i + j + 1];
    }
    forall j, j' | 0 <= j < j' < |c|
      ensures c[j] != c[j']
    {
      assert c[j] == p[i + j] && c[j'] == p[i + j'];
    }
  }

  /** The suffix of the path from the first occurrence of `src` is a cycle reachable from `root`. */
  lemma ClosedLoop(g: Graph, root: Address, path: seq<Address>, src: Address)
    requires PathTo(g, root, path, src) && src in path
    ensures var c := path[FirstIndex(path, src)..]; IsCycle(g, c) && FromRoot(g, root, c)
  {
    var i := FirstIndex(path, src);
    var c := path[i..];
    Suffix(g, path, i);
    assert c[0] == src && c[|c| - 1] == path[|path| - 1];
    assert Edge(g, c[|c| - 1], c[0]);
    SuffixFromRoot(g, root, path, i);
  }

  /** Every non-empty suffix of a chained path from `root` is the end of a path from `root`. */
  lemma SuffixFromRoot(g: Graph, root: Address, path: seq<Address>, i: nat)
    requires i < |path| && Chained(g, path) && path[0] == root
    ensures FromRoot(g, root, path[i..])
  {
    var pre := path[..i];
    assert pre + path[i..] == path;
  }

  /** Extending the path by an unvisited successor keeps it a simple path from `root`. */
  lemma PathStep(g: Graph, root: Address, path: seq<Address>, src: Address, dst: Address)
    requires PathTo(g, root, path, src) && src !in path && Edge(g, src, dst)
    ensures PathTo(g, root, path + [src], dst)
  {
    var p := path + [src];
    assert forall j :: 0 <= j < |path| ==> p[j] == path[j];
  }

  /**
   * The walk only ever adds loops, never twice the same, and each one it adds
   * is a simple cycle at the end of a path from `root`.
   */
  lemma {:induction false} EnumerateSound(g: Graph, root: Address, src: Address, visited: set<Address>, path: seq<Address>, loops: seq<seq<Address>>)
    requires PathTo(g, root, path, src) && LoopsFrom(g, root, loops) && Distinct(loops)
    ensures var r := Enumerate(g, src, visited, path, loops); loops <= r && LoopsFrom(g, root, r) && Distinct(r)
    decreases |Unvisited(g, path)|, 0, 0
  {
    if src in visited {
    } else if src in path {
      ClosedLoop(g, root, path, src);
    } else if src in g {
      UnvisitedShrinks(g, path, src);
      ChildrenSound(g, root, g[src], 0, visited, path + [src], loops);
    }
  }

  lemma {:induction false} ChildrenSound(g: Graph, root: Address, dsts: seq<Address>, k: nat, visited: set<Address>, path: seq<Address>, loops: seq<seq<Address>>)
    requires k <= |dsts| && |path| >= 1 && LoopsFrom(g, root, loops) && Distinct(loops)
    requires forall j :: k <= j < |dsts| ==> PathTo(g, root, path, dsts[j])
    ensures var r := Children(g, dsts, k, visited, path, loops); loops <= r && LoopsFrom(g, root, r) && Distinct(r)
    decreases |Unvisited(g, path)|, 1, |dsts| - k
  {
    if k < |dsts| {
      var mid := Enumerate(g, dsts[k], visited, path, loops);
      EnumerateSound(g, root, dsts[k], visited, path, loops);
      ChildrenSound(g, root, dsts, k + 1, visited + {dsts[k]}, path, mid);
    }
  }

  /** The loops found from `root` with nothing explored yet: `EnumeratePaths(src_map, root, {}, [], {})`. */
  function LoopsOf(g: Graph, root: Address): seq<seq<Address>> {
    Enumerate(g, root, {}, [], [])
  }

  /**
   * From one root every loop found is a simple cycle at the end of a path
   * from the root, and no loop is found twice; so where no such cycle
   * exists, nothing is found.
   */
  lemma LoopsOfSound(g: Graph, root: Address)
    ensures LoopsFrom(g, root, LoopsOf(g, root)) && Distinct(LoopsOf(g, root))
    ensures (forall c :: IsCycle(g, c) ==> !FromRoot(g, root, c)) ==> LoopsOf(g, root) == []
  {
    EnumerateSound(g, root, root, {}, [], []);
    if LoopsOf(g, root) != [] {
      assert LoopsOf(g, root)[0] in LoopsOf(g, root);
    }
  }

  /** For `{A: [B, C], B: [A]}` walked from A, the only loop is `[A, B]`. */
  lemma TwoNodeLoop(a: Address, b: Address, c: Address)
    requires a != b && b != c && a != c
    ensures LoopsOf(map[a := [b, c], b := [a]], root := a) == [[a, b]]
  {
    var g := map[a := [b, c], b := [a]];
    assert [] + [a] == [a] && [a] + [b] == [a, b];
    assert {} + {a} == {a} && {} + {b} == {b} && {b} + {c} == {b, c};
    assert FirstIndex([a, b], a) == 0 && [a, b][0..] == [a, b];
    var afterB := Enumerate(g, a, {}, [a, b], []);
    assert afterB == [[a, b]];
    assert Children(g, [a], 0, {}, [a, b], []) == Children(g, [a], 1, {a}, [a, b], afterB);
    var fromB := Enumerate(g, b, {}, [a], []);
    assert fromB == Children(g, [a], 0, {}, [a, b], []);
    assert fromB == [[a, b]];
    var fromC := Enumerate(g, c, {b}, [a], fromB);
    assert fromC == [[a, b]];
    assert Children(g, [b, c], 0, {}, [a], []) == Children(g, [b, c], 1, {b}, [a], fromB);
    assert Children(g, [b, c], 1, {b}, [a], fromB) == Children(g, [b, c], 2, {b, c}, [a], fromC);
    assert Enumerate(g, a, {}, [], []) == Children(g, [b, c], 0, {}, [a], []);
  }

  /** `roots`: the keys of `src_map`, in the dictionary's iteration order `order`, that are not keys of `dst_map`. */
  function Roots(srcMap: Graph, dstMap: Graph, order: seq<Address>): (roots: seq<Address>)
    ensures forall r :: r in roots <==> r in order && r in srcMap && r !in dstMap
  {
    if order == [] then []
    else (if order[0] in srcMap && order[0] !in dstMap then [order[0]] else []) + Roots(srcMap, dstMap, order[1..])
  }

  /** `loops += EnumeratePaths(src_map, root, {}, [], {})` for each root in turn. */
  function AllLoops(g: Graph, roots: seq<Address>): seq<seq<Address>>
    decreases |roots|
  {
    if roots == [] then []
    else
      var n := |roots| - 1;
      AllLoops(g, roots[..n]) + LoopsOf(g, roots[n])
  }

  /**
   * `FindFunctionLoops(ea)`, with the iteration order of `src_map`'s keys
   * given as `order` (the source's dictionary order is unspecified).
   */
  function FunctionLoops(b: Backend.Backend, ea: Address, order: seq<Address>): Result<seq<seq<Address>>, Fault> {
    var m :- FunctionMap(b, ea);
    Success(AllLoops(m.0, Roots(m.0, m.1, order)))
  }

  method FindFunctionLoops(b: Backend.Backend, ea: Address, order: seq<Address>) returns (r: Result<seq<seq<Address>>, Fault>)
    ensures r == FunctionLoops(b, ea, order)
  {
    var m := GetFunctionMap(b, ea);
    if m.Failure? {
      return Failure(m.error);
    }
    var srcMap, dstMap := m.value.0, m.value.1;
    var roots := FindRoots(srcMap, dstMap, order);
    var loops := CollectLoops(srcMap, roots);
    r := Success(loops);
  }

  /** The loop over `src_map`'s keys that collects the roots. */
  method FindRoots(srcMap: Graph, dstMap: Graph, order: seq<Address>) returns (roots: seq<Address>)
    ensures roots == Roots(srcMap, dstMap, order)
  {
    roots := [];
    for i := 0 to |order|
      invariant roots == Roots(srcMap, dstMap, order[..i])
    {
      var src := order[i];
      RootsSnoc(srcMap, dstMap, order[..i], src);
      assert order[..i + 1] == order[..i] + [src];
      if src in srcMap && src !in dstMap {
        roots := roots + [src];
      }
    }
    assert order[..|order|] == order;
  }

  /** The loop over the roots that concatenates what each walk finds. */
  method CollectLoops(g: Graph, roots: seq<Address>) returns (loops: seq<seq<Address>>)
    ensures loops == AllLoops(g, roots)
  {
    loops := [];
    for i := 0 to |roots|
      invariant loops == AllLoops(g, roots[..i])
    {
      assert roots[..i + 1][..i] == roots[..i];
      var found := EnumeratePaths(g, roots[i], {}, [], []);
      loops := loops + found;
    }
    assert roots[..|roots|] == roots;
  }

  lemma {:induction false} RootsSnoc(srcMap: Graph, dstMap: Graph, order: seq<Address>, x: Address)
    ensures Roots(srcMap, dstMap, order + [x]) ==
      Roots(srcMap, dstMap, order) + (if x in srcMap && x !in dstMap then [x] else [])
    decreases |order|
  {
    if order == [] {
      assert [x][1..] == [];
    } else {
      assert (order + [x])[0] == order[0] && (order + [x])[1..] == order[1..] + [x];
      RootsSnoc(srcMap, dstMap, order[1..], x);
    }
  }

  /**
   * Every loop `FindFunctionLoops` returns is a simple cycle of `src_map`
   * reachable from one of the roots; the lists of different roots are simply
   * concatenated, so the same loop may appear once per root.
   */
  lemma {:induction false} AllLoopsSound(g: Graph, roots: seq<Address>)
    ensures forall l :: l in AllLoops(g, roots) ==> IsCycle(g, l) && exists r :: r in roots && FromRoot(g, r, l)
    decreases |roots|
  {
    if roots != [] {
      var n := |roots| - 1;
      AllLoopsSound(g, roots[..n]);
      LoopsOfSound(g, roots[n]);
      forall l | l in AllLoops(g, roots)
        ensures IsCycle(g, l) && exists r :: r in roots && FromRoot(g, r, l)
      {
        if l in AllLoops(g, roots[..n]) {
          var r :| r in roots[..n] && FromRoot(g, r, l);
          assert r in roots;
        } else {
          assert roots[n] in roots;
        }
      }
    }
  }

  /**
   * Every loop `FindFunctionLoops` returns is a simple cycle of `src_map`
   * reachable from a key of `src_map` that is not a key of `dst_map`.
   */
  lemma FunctionLoopsSound(b: Backend.Backend, ea: Address, order: seq<Address>)
    ensures FunctionLoops(b, ea, order).Success? <==> FunctionMap(b, ea).Success?
    ensures FunctionLoops(b, ea, order).Success? ==>
      var m := FunctionMap(b, ea).value;
      forall l :: l in FunctionLoops(b, ea, order).value ==>
        IsCycle(m.0, l) && exists r :: r in m.0 && r !in m.1 && FromRoot(m.0, r, l)
  {
    if FunctionMap(b, ea).Success? {
      var m := FunctionMap(b, ea).value;
      AllLoopsSound(m.0, Roots(m.0, m.1, order));
    }
  }
}
