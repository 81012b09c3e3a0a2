/**
 * How `GetFunctionMap` groups the `(src, src_end, dst)` edges of the `'Map'`
 * walk: `src_map` lists the destinations of each source and `dst_map` the
 * sources of each destination, each in yield order.
 */
module EdgeMaps {
  import opened Model
  import opened Partition

  /** Every yielded value is an edge. */
  predicate AllEdges(e: seq<Yielded>) {
    forall k :: 0 <= k < |e| ==> e[k].EdgeOut?
  }

  /** `(key, value)` pairs grouped by key, values in order: how `src_map` and `dst_map` are filled. */
  function Group(pairs: seq<(Address, Address)>): map<Address, seq<Address>> {
    map a | a in Keys(pairs) :: ValuesOf(pairs, a)
  }

  function Keys(pairs: seq<(Address, Address)>): set<Address> {
    set k | 0 <= k < |pairs| :: pairs[k].0
  }

  /** The values paired with `a`, in order. */
  function ValuesOf(pairs: seq<(Address, Address)>, a: Address): seq<Address>
    decreases |pairs|
  {
    if pairs == [] then []
    else
      var n := |pairs| - 1;
      ValuesOf(pairs[..n], a) + (if pairs[n].0 == a then [pairs[n].1] else [])
  }

  /** The edges as `(src, dst)` and as `(dst, src)` pairs. */
  function Forward(e: seq<Yielded>): seq<(Address, Address)>
    requires AllEdges(e)
  {
    seq(|e|, k requires 0 <= k < |e| => (e[k].src, e[k].dst))
  }

  function Backward(e: seq<Yielded>): seq<(Address, Address)>
    requires AllEdges(e)
  {
    seq(|e|, k requires 0 <= k < |e| => (e[k].dst, e[k].src))
  }

  /** A value is listed under a key exactly when the pair occurs. */
  lemma {:induction false} ValuesOfMembers(pairs: seq<(Address, Address)>, a: Address)
    ensures forall v :: v in ValuesOf(pairs, a) <==> (a, v) in pairs
    decreases |pairs|
  {
    if pairs != [] {
      var n := |pairs| - 1;
      ValuesOfMembers(pairs[..n], a);
      assert pairs == pairs[..n] + [pairs[n]];
    }
  }

  /** A key is grouped, and lists a value, exactly when the pair occurs. */
  lemma GroupMember(pairs: seq<(Address, Address)>, a: Address, v: Address)
    ensures (a in Group(pairs) && v in Group(pairs)[a]) <==> (a, v) in pairs
  {
    ValuesOfMembers(pairs, a);
    if (a, v) in pairs {
      var k :| 0 <= k < |pairs| && pairs[k] == (a, v);
      assert a == pairs[k].0;
    }
  }

  /** A key no pair carries has no values. */
  lemma {:induction false} ValuesOfOutside(pairs: seq<(Address, Address)>, a: Address)
    requires a !in Keys(pairs)
    ensures ValuesOf(pairs, a) == []
    decreases |pairs|
  {
    if pairs != [] {
      var n := |pairs| - 1;
      assert forall k :: 0 <= k < n ==> pairs[..n][k] == pairs[k];
      assert pairs[n].0 in Keys(pairs);
      ValuesOfOutside(pairs[..n], a);
    }
  }

  lemma ValuesOfSnoc(pairs: seq<(Address, Address)>, a: Address, v: Address, x: Address)
    ensures ValuesOf(pairs + [(a, v)], x) == ValuesOf(pairs, x) + (if x == a then [v] else [])
  {
    assert (pairs + [(a, v)])[..|pairs|] == pairs;
  }

  lemma KeysSnoc(pairs: seq<(Address, Address)>, a: Address, v: Address)
    ensures Keys(pairs + [(a, v)]) == Keys(pairs) + {a}
  {
    var q := pairs + [(a, v)];
    assert forall k :: 0 <= k < |pairs| ==> q[k] == pairs[k];
    assert q[|pairs|].0 == a;
  }

  /** Adding a pair appends its value under its key, creating the key when it is new. */
  lemma GroupSnoc(pairs: seq<(Address, Address)>, a: Address, v: Address)
    ensures Group(pairs + [(a, v)]) ==
      Group(pairs)[a := (if a in Group(pairs) then Group(pairs)[a] else []) + [v]]
  {
    var m, m' := Group(pairs), Group(pairs + [(a, v)]);
    var r := m[a := (if a in m then m[a] else []) + [v]];
    KeysSnoc(pairs, a, v);
    if a !in Keys(pairs) {
      ValuesOfOutside(pairs, a);
    }
    forall x | x in m'
      ensures x in r && m'[x] == r[x]
    {
      ValuesOfSnoc(pairs, a, v, x);
    }
    assert m'.Keys == r.Keys;
  }

  /** Some edge goes from `src` to `dst`. */
  ghost predicate HasEdge(e: seq<Yielded>, src: Address, dst: Address)
    requires AllEdges(e)
  {
    exists k :: 0 <= k < |e| && e[k].src == src && e[k].dst == dst
  }

  lemma ForwardMember(e: seq<Yielded>, src: Address, dst: Address)
    requires AllEdges(e)
    ensures (src, dst) in Forward(e) <==> HasEdge(e, src, dst)
    ensures (dst, src) in Backward(e) <==> HasEdge(e, src, dst)
  {
    if HasEdge(e, src, dst) {
      var k :| 0 <= k < |e| && e[k].src == src && e[k].dst == dst;
      assert Forward(e)[k] == (src, dst) && Backward(e)[k] == (dst, src);
    }
    if (src, dst) in Forward(e) {
      var k :| 0 <= k < |e| && Forward(e)[k] == (src, dst);
    }
    if (dst, src) in Backward(e) {
      var k :| 0 <= k < |e| && Backward(e)[k] == (dst, src);
    }
  }

  /**
   * `src_map[src]` lists `dst` exactly when some edge goes from `src` to
   * `dst`, and so exactly when `dst_map[dst]` lists `src`.
   */
  lemma MapsSymmetric(e: seq<Yielded>, src: Address, dst: Address)
    requires AllEdges(e)
    ensures (src in Group(Forward(e)) && dst in Group(Forward(e))[src]) <==> HasEdge(e, src, dst)
    ensures (dst in Group(Backward(e)) && src in Group(Backward(e))[dst]) <==> HasEdge(e, src, dst)
  {
    GroupMember(Forward(e), src, dst);
    GroupMember(Backward(e), dst, src);
    ForwardMember(e, src, dst);
  }

  /** Some run starts at `src` and `crefs_map` records `dst` for the run's last address. */
  ghost predicate RunEdge(crefs: map<Address, seq<Address>>, runs: seq<seq<Instruction>>, src: Address, dst: Address) {
    exists k :: 0 <= k < |runs| && runs[k] != [] && EdgeOfRun(crefs, runs[k], src, runs[k][|runs[k]| - 1].address, dst)
  }

  /** Every yielded value is an edge, and each is an edge of some run. */
  lemma EmittedEdgesSound(crefs: map<Address, seq<Address>>, runs: seq<seq<Instruction>>, src: Address, dst: Address)
    requires forall k :: 0 <= k < |runs| ==> runs[k] != []
    ensures AllEdges(EmitAll(MapMode, crefs, runs))
    ensures HasEdge(EmitAll(MapMode, crefs, runs), src, dst) ==> RunEdge(crefs, runs, src, dst)
  {
    var e := EmitAll(MapMode, crefs, runs);
    EmitEdgesSound(crefs, runs);
    assert AllEdges(e) by {
      assert forall k :: 0 <= k < |e| ==> e[k] in e;
    }
    if HasEdge(e, src, dst) {
      var k :| 0 <= k < |e| && e[k].src == src && e[k].dst == dst;
      var y := e[k];
      assert y in e;
      var j :| 0 <= j < |runs| && EdgeOfRun(crefs, runs[j], y.src, y.srcEnd, y.dst);
      assert runs[j] != [] && EdgeOfRun(crefs, runs[j], src, runs[j][|runs[j]| - 1].address, dst);
    }
  }

  /** Every edge of every run is yielded. */
  lemma EmittedEdgesComplete(crefs: map<Address, seq<Address>>, runs: seq<seq<Instruction>>, src: Address, dst: Address)
    requires forall k :: 0 <= k < |runs| ==> runs[k] != []
    requires AllEdges(EmitAll(MapMode, crefs, runs))
    ensures RunEdge(crefs, runs, src, dst) ==> HasEdge(EmitAll(MapMode, crefs, runs), src, dst)
  {
    if RunEdge(crefs, runs, src, dst) {
      var e := EmitAll(MapMode, crefs, runs);
      var k :| 0 <= k < |runs| && runs[k] != [] && EdgeOfRun(crefs, runs[k], src, runs[k][|runs[k]| - 1].address, dst);
      var y := EdgeOut(src, runs[k][|runs[k]| - 1].address, dst);
      EmitEdgesComplete(crefs, runs, k, src, y.srcEnd, dst);
      var j :| 0 <= j < |e| && e[j] == y;
      assert e[j].src == src && e[j].dst == dst;
    }
  }

  /** The `'Map'` yield of a list of runs has an edge from `src` to `dst` exactly when a run does. */
  lemma EmittedEdges(crefs: map<Address, seq<Address>>, runs: seq<seq<Instruction>>, src: Address, dst: Address)
    requires forall k :: 0 <= k < |runs| ==> runs[k] != []
    ensures AllEdges(EmitAll(MapMode, crefs, runs))
    ensures HasEdge(EmitAll(MapMode, crefs, runs), src, dst) <==> RunEdge(crefs, runs, src, dst)
  {
    EmittedEdgesSound(crefs, runs, src, dst);
    EmittedEdgesComplete(crefs, runs, src, dst);
  }

  lemma ForwardSnoc(e: seq<Yielded>, i: nat)
    requires AllEdges(e) && i < |e|
    ensures Forward(e[..i + 1]) == Forward(e[..i]) + [(e[i].src, e[i].dst)]
    ensures Backward(e[..i + 1]) == Backward(e[..i]) + [(e[i].dst, e[i].src)]
  {
  }

  /** `if not key in m: m[key] = []` followed by `m[key].append(value)`. */
  method Append(m: map<Address, seq<Address>>, key: Address, value: Address) returns (m': map<Address, seq<Address>>)
    ensures m' == m[key := (if key in m then m[key] else []) + [value]]
  {
    m' := m;
    if key !in m' {
      m' := m'[key := []];
    }
    m' := m'[key := m'[key] + [value]];
  }

  /** The loop that fills `src_map` and `dst_map` from the yielded edges. */
  method GroupEdges(e: seq<Yielded>) returns (srcMap: map<Address, seq<Address>>, dstMap: map<Address, seq<Address>>)
    requires AllEdges(e)
    ensures srcMap == Group(Forward(e)) && dstMap == Group(Backward(e))
  {
    srcMap, dstMap := map[], map[];
    for i := 0 to |e|
      invariant srcMap == Group(Forward(e[..i])) && dstMap == Group(Backward(e[..i]))
    {
      var y := e[i];
      GroupSnoc(Forward(e[..i]), y.src, y.dst);
      GroupSnoc(Backward(e[..i]), y.dst, y.src);
      ForwardSnoc(e, i);
      srcMap := Append(srcMap, y.src, y.dst);
      dstMap := Append(dstMap, y.dst, y.src);
    }
    assert e[..|e|] == e;
  }
}
