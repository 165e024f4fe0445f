/**
 * Prim's minimum-spanning-tree routine and its random test graph
 * (src/controllers/test.ts). The adjacency matrix holds natural weights; a
 * zero entry means "no edge". `Number.MAX_VALUE`, the initial key of every
 * vertex, becomes the sentinel `MaxValue`.
 */
module Prim {
  import opened Wrappers

  /** Stands for `Number.MAX_VALUE`: no weight below it is ever "infinite". */
  const MaxValue: nat := 0x7FFF_FFFF_FFFF_FFFF

  /** A vertex `minKey` may pick: outside the tree, with a key below the
   *  sentinel. */
  ghost predicate Candidate(key: seq<nat>, inTree: seq<bool>, v: int)
    requires |key| == |inTree|
  {
    0 <= v < |key| && !inTree[v] && key[v] < MaxValue
  }

  /** `u` is the lowest-index candidate among those of minimal key. */
  ghost predicate EarliestMinimal(key: seq<nat>, inTree: seq<bool>, V: nat, u: int)
    requires V <= |key| == |inTree|
  {
    && 0 <= u < V && Candidate(key, inTree, u)
    && (forall v :: 0 <= v < V && Candidate(key, inTree, v) ==> key[u] <= key[v])
    && (forall v :: 0 <= v < u && Candidate(key, inTree, v) ==> key[u] < key[v])
  }

  /** `minKey` (test.ts:12-25): the earliest vertex of minimal key outside the
   *  tree; 0 when every vertex is in the tree or still at the sentinel. */
  method MinKey(key: array<nat>, mstSet: array<bool>, V: nat) returns (minIndex: nat)
    requires V <= key.Length == mstSet.Length
    ensures (exists v :: 0 <= v < V && Candidate(key[..], mstSet[..], v)) ==> EarliestMinimal(key[..], mstSet[..], V, minIndex)
    ensures (forall v :: 0 <= v < V ==> !Candidate(key[..], mstSet[..], v)) ==> minIndex == 0
  {
    var min := MaxValue;
    minIndex := 0;
    var v := 0;
    while v < V
      invariant 0 <= v <= V
      invariant min <= MaxValue
      invariant min == MaxValue ==> minIndex == 0 && forall w :: 0 <= w < v ==> !Candidate(key[..], mstSet[..], w)
      invariant min < MaxValue ==> EarliestMinimal(key[..], mstSet[..], v, minIndex) && min == key[minIndex]
    {
      if mstSet[v] == false && key[v] < min {
        min := key[v];
        minIndex := v;
      }
      v := v + 1;
    }
  }

  /** Edge weight `w` lowers the key `k` of a vertex outside the tree. */
  predicate Improves(w: nat, inTree: bool, k: nat) {
    w != 0 && !inTree && w < k
  }

  /** The relaxation loop of test.ts:60-67 for the vertex `u` just added. */
  method Relax(matrix: array2<nat>, V: nat, u: nat, key: array<nat>, mstSet: array<bool>, parent: array<Option<int>>)
    requires matrix.Length0 == V && matrix.Length1 == V && u < V
    requires V <= key.Length == mstSet.Length == parent.Length
    modifies key, parent
    ensures forall v :: 0 <= v < V && Improves(matrix[u, v], mstSet[v], old(key[v])) ==>
      key[v] == matrix[u, v] && parent[v] == Some(u)
    ensures forall v :: 0 <= v < key.Length && !(v < V && Improves(matrix[u, v], mstSet[v], old(key[v]))) ==>
      key[v] == old(key[v]) && parent[v] == old(parent[v])
  {
    var v := 0;
    while v < V
      invariant 0 <= v <= V
      invariant forall w :: 0 <= w < v && Improves(matrix[u, w], mstSet[w], old(key[w])) ==>
        key[w] == matrix[u, w] && parent[w] == Some(u)
      invariant forall w :: 0 <= w < key.Length && !(w < v && Improves(matrix[u, w], mstSet[w], old(key[w]))) ==>
        key[w] == old(key[w]) && parent[w] == old(parent[w])
    {
      if matrix[u, v] != 0 && mstSet[v] == false && matrix[u, v] < key[v] {
        parent[v] := Some(u);
        key[v] := matrix[u, v];
      }
      v := v + 1;
    }
  }

  /** What the main loop keeps: vertex 0 is the root, and every vertex with a
   *  parent hangs from a tree vertex by a real edge whose weight is its key. */
  ghost predicate ParentEdges(matrix: array2<nat>, V: nat, key: seq<nat>, inTree: seq<bool>, parent: seq<Option<int>>)
    requires matrix.Length0 == V && matrix.Length1 == V && V <= |key| == |inTree| == |parent|
    reads matrix
  {
    && (forall v :: 0 < v < V && parent[v].Some? ==>
          var p := parent[v].value;
          0 <= p < V && p != v && inTree[p] && matrix[p, v] != 0 && key[v] == matrix[p, v])
    && (forall v :: 0 < v < V && key[v] < MaxValue ==> parent[v].Some?)
  }

  /** The state before the main loop (test.ts:28-45): key 0 and parent -1
   *  for the root, the sentinel and no parent for every other vertex, and an
   *  empty tree. */
  ghost predicate Initial(key: seq<nat>, inTree: seq<bool>, parent: seq<Option<int>>) {
    && |key| == |inTree| == |parent| >= 1 && key[0] == 0 && parent[0] == Some(-1)
    && (forall v :: 0 < v < |key| ==> key[v] == MaxValue && parent[v] == None)
    && (forall v :: 0 <= v < |inTree| ==> !inTree[v])
  }

  /** One round of the main loop took (key, inTree, parent) to (key', inTree',
   *  parent'): it put `u` in the tree, `u` being `minKey`'s choice (the
   *  earliest vertex of minimal key outside the tree, or 0 when there is
   *  none), and gave every vertex outside the tree that an edge of `u`
   *  improves that edge's weight as key and `u` as parent. */
  ghost predicate Round(matrix: array2<nat>, V: nat, key: seq<nat>, inTree: seq<bool>, parent: seq<Option<int>>, u: nat,
                        key': seq<nat>, inTree': seq<bool>, parent': seq<Option<int>>)
    requires matrix.Length0 == V && matrix.Length1 == V
    requires V <= |key| == |inTree| == |parent| == |key'| == |inTree'| == |parent'|
    reads matrix
  {
    && u < V
    && inTree' == inTree[u := true]
    && ((exists v :: 0 <= v < V && Candidate(key, inTree, v)) ==> EarliestMinimal(key, inTree, V, u))
    && ((forall v :: 0 <= v < V ==> !Candidate(key, inTree, v)) ==> u == 0)
    && (forall v :: 0 <= v < |key| ==>
          var better := v < V && Improves(matrix[u, v], inTree'[v], key[v]);
          key'[v] == (if better then matrix[u, v] else key[v]) && parent'[v] == (if better then Some(u) else parent[v]))
  }

  /** `picks[i]` is the vertex round i added, and `keys[i]`, `trees[i]`,
   *  `parents[i]` the state round i started from. */
  ghost predicate Trace(matrix: array2<nat>, V: nat, picks: seq<nat>, keys: seq<seq<nat>>, trees: seq<seq<bool>>,
                        parents: seq<seq<Option<int>>>)
    requires matrix.Length0 == V && matrix.Length1 == V
    reads matrix
  {
    && |keys| == |trees| == |parents| == |picks| + 1
    && (forall i :: 0 <= i < |keys| ==> V <= |keys[i]| == |trees[i]| == |parents[i]| == |keys[0]|)
    && (forall i :: 0 <= i < |picks| ==>
          Round(matrix, V, keys[i], trees[i], parents[i], picks[i], keys[i + 1], trees[i + 1], parents[i + 1]))
  }

  lemma TraceSnoc(matrix: array2<nat>, V: nat, picks: seq<nat>, keys: seq<seq<nat>>, trees: seq<seq<bool>>,
                  parents: seq<seq<Option<int>>>, u: nat, key': seq<nat>, inTree': seq<bool>, parent': seq<Option<int>>)
    requires matrix.Length0 == V && matrix.Length1 == V
    requires Trace(matrix, V, picks, keys, trees, parents)
    requires |key'| == |inTree'| == |parent'| == |keys[0]|
    requires Round(matrix, V, keys[|picks|], trees[|picks|], parents[|picks|], u, key', inTree', parent')
    ensures Trace(matrix, V, picks + [u], keys + [key'], trees + [inTree'], parents + [parent'])
  {
    var picks', keys', trees', parents' := picks + [u], keys + [key'], trees + [inTree'], parents + [parent'];
    forall i | 0 <= i < |picks'|
      ensures Round(matrix, V, keys'[i], trees'[i], parents'[i], picks'[i], keys'[i + 1], trees'[i + 1], parents'[i + 1])
    {
      if i < |picks| {
        assert keys'[i] == keys[i] && keys'[i + 1] == keys[i + 1];
        assert trees'[i] == trees[i] && trees'[i + 1] == trees[i + 1];
        assert parents'[i] == parents[i] && parents'[i + 1] == parents[i + 1];
      }
    }
  }

  /** A round never raises a key, and while some vertex outside the tree
   *  has a key below the sentinel it adds such a vertex, a new one. */
  lemma RoundProgress(matrix: array2<nat>, V: nat, key: seq<nat>, inTree: seq<bool>, parent: seq<Option<int>>, u: nat,
                      key': seq<nat>, inTree': seq<bool>, parent': seq<Option<int>>)
    requires matrix.Length0 == V && matrix.Length1 == V
    requires V <= |key| == |inTree| == |parent| == |key'| == |inTree'| == |parent'|
    requires Round(matrix, V, key, inTree, parent, u, key', inTree', parent')
    ensures forall v :: 0 <= v < |key| ==> key'[v] <= key[v]
    ensures (exists v :: 0 <= v < V && Candidate(key, inTree, v)) ==> !inTree[u] && key[u] < MaxValue && inTree'[u]
  {
  }

  /** The first round adds the root: its key 0 is the unique minimum. */
  lemma FirstPickIsRoot(matrix: array2<nat>, V: nat, key: seq<nat>, inTree: seq<bool>, parent: seq<Option<int>>, u: nat,
                        key': seq<nat>, inTree': seq<bool>, parent': seq<Option<int>>)
    requires matrix.Length0 == V && matrix.Length1 == V
    requires 1 <= V <= |key| == |inTree| == |parent| == |key'| == |inTree'| == |parent'|
    requires Initial(key, inTree, parent)
    requires Round(matrix, V, key, inTree, parent, u, key', inTree', parent')
    ensures u == 0
  {
    assert Candidate(key, inTree, 0);
  }

  /** At most one round leaves a given state: `minKey`'s choice and the
   *  relaxation that follows are fixed by it. */
  lemma RoundDeterministic(matrix: array2<nat>, V: nat, key: seq<nat>, inTree: seq<bool>, parent: seq<Option<int>>,
                           u1: nat, key1: seq<nat>, inTree1: seq<bool>, parent1: seq<Option<int>>,
                           u2: nat, key2: seq<nat>, inTree2: seq<bool>, parent2: seq<Option<int>>)
    requires matrix.Length0 == V && matrix.Length1 == V
    requires V <= |key| == |inTree| == |parent| == |key1| == |inTree1| == |parent1| == |key2| == |inTree2| == |parent2|
    requires Round(matrix, V, key, inTree, parent, u1, key1, inTree1, parent1)
    requires Round(matrix, V, key, inTree, parent, u2, key2, inTree2, parent2)
    ensures u1 == u2 && key1 == key2 && inTree1 == inTree2 && parent1 == parent2
  {
    if exists v :: 0 <= v < V && Candidate(key, inTree, v) {
      assert EarliestMinimal(key, inTree, V, u1) && EarliestMinimal(key, inTree, V, u2);
    }
    assert key1 == key2 && parent1 == parent2;
  }

  /** Runs from the same initial state take the same rounds: `PrimMST`'s
   *  trace, and with it the parent array it returns, is the only one. */
  lemma {:induction false} TraceDeterministic(matrix: array2<nat>, V: nat, picks1: seq<nat>, keys1: seq<seq<nat>>,
                                              trees1: seq<seq<bool>>, parents1: seq<seq<Option<int>>>,
                                              picks2: seq<nat>, keys2: seq<seq<nat>>, trees2: seq<seq<bool>>,
                                              parents2: seq<seq<Option<int>>>, n: nat)
    requires matrix.Length0 == V && matrix.Length1 == V
    requires Trace(matrix, V, picks1, keys1, trees1, parents1) && Trace(matrix, V, picks2, keys2, trees2, parents2)
    requires keys1[0] == keys2[0] && trees1[0] == trees2[0] && parents1[0] == parents2[0]
    requires n <= |picks1| && n <= |picks2|
    ensures keys1[n] == keys2[n] && trees1[n] == trees2[n] && parents1[n] == parents2[n]
    ensures picks1[..n] == picks2[..n]
  {
    if n > 0 {
      TraceDeterministic(matrix, V, picks1, keys1, trees1, parents1, picks2, keys2, trees2, parents2, n - 1);
      var i := n - 1;
      assert Round(matrix, V, keys1[i], trees1[i], parents1[i], picks1[i], keys1[n], trees1[n], parents1[n]);
      assert Round(matrix, V, keys2[i], trees2[i], parents2[i], picks2[i], keys2[n], trees2[n], parents2[n]);
      RoundDeterministic(matrix, V, keys1[i], trees1[i], parents1[i], picks1[i], keys1[n], trees1[n], parents1[n],
                         picks2[i], keys2[n], trees2[n], parents2[n]);
      assert picks1[..n] == picks1[..i] + [picks1[i]] && picks2[..n] == picks2[..i] + [picks2[i]];
    }
  }

  /** Each vertex's parent other than the root's -1 is a vertex that entered
   *  the tree before it: some state among the first n + 1 of the trace has
   *  the parent inside the tree and the child outside. As a round only ever
   *  adds a vertex to the tree, the parent links cannot form a cycle. */
  ghost predicate ParentsEnteredFirst(V: nat, trees: seq<seq<bool>>, n: nat, parent: seq<Option<int>>)
    requires n < |trees| && (forall i :: 0 <= i < |trees| ==> V <= |trees[i]|) && V <= |parent|
  {
    forall v :: 0 <= v < V && parent[v].Some? && parent[v].value != -1 ==>
      var p := parent[v].value;
      0 <= p < V && exists i :: 0 <= i <= n && trees[i][p] && !trees[i][v]
  }

  lemma {:induction false} TraceParentsEnteredFirst(matrix: array2<nat>, V: nat, picks: seq<nat>, keys: seq<seq<nat>>,
                                                    trees: seq<seq<bool>>, parents: seq<seq<Option<int>>>, n: nat)
    requires matrix.Length0 == V && matrix.Length1 == V
    requires Trace(matrix, V, picks, keys, trees, parents) && Initial(keys[0], trees[0], parents[0])
    requires n <= |picks|
    ensures ParentsEnteredFirst(V, trees, n, parents[n])
  {
    if n > 0 {
      TraceParentsEnteredFirst(matrix, V, picks, keys, trees, parents, n - 1);
      var u := picks[n - 1];
      assert Round(matrix, V, keys[n - 1], trees[n - 1], parents[n - 1], u, keys[n], trees[n], parents[n]);
      forall v | 0 <= v < V && parents[n][v].Some? && parents[n][v].value != -1
        ensures 0 <= parents[n][v].value < V
        ensures exists i :: 0 <= i <= n && trees[i][parents[n][v].value] && !trees[i][v]
      {
        if Improves(matrix[u, v], trees[n][v], keys[n - 1][v]) {
          assert parents[n][v] == Some(u) && trees[n][u] && !trees[n][v];
        } else {
          var p := parents[n - 1][v].value;
          var i :| 0 <= i <= n - 1 && trees[i][p] && !trees[i][v];
          assert 0 <= i <= n && trees[i][parents[n][v].value];
        }
      }
    }
  }

  /** What the main loop of `primMST` keeps after `count` rounds: the arrays
   *  agree with the last state of the trace of rounds, every vertex in the
   *  tree was picked in some round, and the parents hang off the tree. */
  ghost predicate Rounds(matrix: array2<nat>, V: nat, key: array<nat>, mstSet: array<bool>, parent: array<Option<int>>,
                         count: nat, picks: seq<nat>, keys: seq<seq<nat>>, trees: seq<seq<bool>>,
                         parents: seq<seq<Option<int>>>)
    reads matrix, key, mstSet, parent
  {
    && matrix.Length0 == V && matrix.Length1 == V
    && key.Length == mstSet.Length == parent.Length == (if V == 0 then 1 else V)
    && parent[0] == Some(-1)
    && (count > 0 ==> mstSet[0])
    && ParentEdges(matrix, V, key[..], mstSet[..], parent[..])
    && |picks| == count && Trace(matrix, V, picks, keys, trees, parents) && |keys[0]| == key.Length
    && Initial(keys[0], trees[0], parents[0])
    && keys[count] == key[..] && trees[count] == mstSet[..] && parents[count] == parent[..]
    && (count > 0 ==> picks[0] == 0)
    && (forall v :: 0 <= v < mstSet.Length ==> (mstSet[v] <==> v in picks))
  }

  /**
   * `primMST` (test.ts:8-70). The parent array is indexed by vertex:
   * `Some(-1)` for the root 0, `Some(u)` for a vertex attached to `u`, and
   * `None` where JavaScript's sparse array holds no element. The ghost
   * `picks`, `keys`, `trees` and `parents` record the V - 1 rounds of the
   * main loop; the parent array returned is the last state of that trace.
   */
  method PrimMST(matrix: array2<nat>, V: nat)
    returns (parent: array<Option<int>>, ghost key: seq<nat>, ghost inTree: seq<bool>,
             ghost picks: seq<nat>, ghost keys: seq<seq<nat>>, ghost trees: seq<seq<bool>>,
             ghost parents: seq<seq<Option<int>>>)
    requires matrix.Length0 == V && matrix.Length1 == V
    ensures parent.Length == if V == 0 then 1 else V
    ensures parent[0] == Some(-1)
    ensures |key| == |inTree| == parent.Length && V <= |key|
    ensures |picks| == if V == 0 then 0 else V - 1
    ensures Trace(matrix, V, picks, keys, trees, parents) && Initial(keys[0], trees[0], parents[0])
    ensures keys[|picks|] == key && trees[|picks|] == inTree && parents[|picks|] == parent[..]
    ensures V >= 2 ==> picks[0] == 0 && inTree[0]
    ensures forall v :: 0 <= v < |inTree| ==> (inTree[v] <==> v in picks)
    ensures ParentEdges(matrix, V, key, inTree, parent[..])
    ensures ParentsEnteredFirst(V, trees, |picks|, parent[..])
  {
    var weights, mstSet;
    weights, mstSet, parent := Start(matrix, V);
    picks, keys, trees, parents := [], [weights[..]], [mstSet[..]], [parent[..]];
    var count := 0;
    while count < V - 1
      invariant 0 <= count <= if V == 0 then 0 else V - 1
      invariant Rounds(matrix, V, weights, mstSet, parent, count, picks, keys, trees, parents)
    {
      picks, keys, trees, parents := NextRound(matrix, V, weights, mstSet, parent, count, picks, keys, trees, parents);
      count := count + 1;
    }
    key, inTree := weights[..], mstSet[..];
    TraceParentsEnteredFirst(matrix, V, picks, keys, trees, parents, |picks|);
  }

  /** The arrays before the main loop (test.ts:28-45), of length 1 when V is 0
   *  so that `parent[0] = -1` has a place. */
  method Start(matrix: array2<nat>, V: nat) returns (key: array<nat>, mstSet: array<bool>, parent: array<Option<int>>)
    requires matrix.Length0 == V && matrix.Length1 == V
    ensures fresh(key) && fresh(mstSet) && fresh(parent)
    ensures Rounds(matrix, V, key, mstSet, parent, 0, [], [key[..]], [mstSet[..]], [parent[..]])
  {
    var n := if V == 0 then 1 else V;
    parent := new Option<int>[n](_ => None);
    key := new nat[n](_ => MaxValue);
    mstSet := new bool[n](_ => false);
    key[0] := 0;
    parent[0] := Some(-1);
  }

  /** The body of the main loop, with the trace extended by the new round. */
  method NextRound(matrix: array2<nat>, V: nat, key: array<nat>, mstSet: array<bool>, parent: array<Option<int>>,
                   count: nat, ghost picks: seq<nat>, ghost keys: seq<seq<nat>>, ghost trees: seq<seq<bool>>,
                   ghost parents: seq<seq<Option<int>>>)
    returns (ghost picks': seq<nat>, ghost keys': seq<seq<nat>>, ghost trees': seq<seq<bool>>,
             ghost parents': seq<seq<Option<int>>>)
    requires Rounds(matrix, V, key, mstSet, parent, count, picks, keys, trees, parents) && count + 1 < V
    modifies key, mstSet, parent
    ensures Rounds(matrix, V, key, mstSet, parent, count + 1, picks', keys', trees', parents')
  {
    var u := AddVertex(matrix, V, key, mstSet, parent, count == 0);
    TraceSnoc(matrix, V, picks, keys, trees, parents, u, key[..], mstSet[..], parent[..]);
    if count == 0 {
      FirstPickIsRoot(matrix, V, keys[0], trees[0], parents[0], u, key[..], mstSet[..], parent[..]);
    }
    picks', keys', trees', parents' := picks + [u], keys + [key[..]], trees + [mstSet[..]], parents + [parent[..]];
  }

  /** One round of the main loop (test.ts:48-68): pick `u` with `minKey`,
   *  put it in the tree, and relax its edges. Tree membership never reverts. */
  method AddVertex(matrix: array2<nat>, V: nat, key: array<nat>, mstSet: array<bool>, parent: array<Option<int>>, first: bool)
    returns (u: nat)
    requires matrix.Length0 == V && matrix.Length1 == V && 1 <= V <= key.Length == mstSet.Length == parent.Length
    requires parent[0] == Some(-1)
    requires first ==> key[0] == 0 && forall v :: 0 <= v < mstSet.Length ==> !mstSet[v]
    requires !first ==> mstSet[0]
    requires ParentEdges(matrix, V, key[..], mstSet[..], parent[..])
    modifies key, mstSet, parent
    ensures parent[0] == Some(-1) && mstSet[0]
    ensures ParentEdges(matrix, V, key[..], mstSet[..], parent[..])
    ensures Round(matrix, V, old(key[..]), old(mstSet[..]), old(parent[..]), u, key[..], mstSet[..], parent[..])
  {
    u := MinKey(key, mstSet, V);
    if first {
      assert Candidate(key[..], mstSet[..], 0);
    }
    ghost var inTree0 := mstSet[..];
    mstSet[u] := true;
    GrowTreeKeepsParentEdges(matrix, V, key[..], inTree0, parent[..], u);
    assert mstSet[..] == inTree0[u := true];
    ghost var key0, parent0 := key[..], parent[..];
    Relax(matrix, V, u, key, mstSet, parent);
    RelaxKeepsParentEdges(matrix, V, u, key0, mstSet[..], parent0, key[..], parent[..]);
  }

  lemma GrowTreeKeepsParentEdges(matrix: array2<nat>, V: nat, key: seq<nat>, inTree: seq<bool>, parent: seq<Option<int>>, u: nat)
    requires matrix.Length0 == V && matrix.Length1 == V && u < V <= |key| == |inTree| == |parent|
    requires ParentEdges(matrix, V, key, inTree, parent)
    ensures ParentEdges(matrix, V, key, inTree[u := true], parent)
  {
  }

  lemma RelaxKeepsParentEdges(matrix: array2<nat>, V: nat, u: nat, key: seq<nat>, inTree: seq<bool>, parent: seq<Option<int>>,
                              key': seq<nat>, parent': seq<Option<int>>)
    requires matrix.Length0 == V && matrix.Length1 == V && u < V
    requires V <= |key| == |inTree| == |parent| == |key'| == |parent'|
    requires inTree[u]
    requires ParentEdges(matrix, V, key, inTree, parent)
    requires forall v :: 0 <= v < V && Improves(matrix[u, v], inTree[v], key[v]) ==> key'[v] == matrix[u, v] && parent'[v] == Some(u)
    requires forall v :: 0 <= v < |key| && !(v < V && Improves(matrix[u, v], inTree[v], key[v])) ==> key'[v] == key[v] && parent'[v] == parent[v]
    ensures ParentEdges(matrix, V, key', inTree, parent')
  {
  }

  /** The vertex count `createRandomGraph` uses. */
  const GraphSize: nat := 10

  /** The value written at iteration (u, v) of createRandomGraph's loops;
   *  `heads` is whether `Math.random() < 0.5` came out true there (the draw
   *  is skipped when u = v). */
  function Drawn(heads: array2<bool>, u: nat, v: nat): nat
    requires u < heads.Length0 && v < heads.Length1
    reads heads
  {
    if u == v || heads[u, v] then 0 else 1
  }

  /** Iteration (a, b) comes before iteration (u, v). */
  predicate Before(a: nat, b: nat, u: nat, v: nat) {
    a < u || (a == u && b < v)
  }

  function Max(a: nat, b: nat): nat { if a < b then b else a }
  function Min(a: nat, b: nat): nat { if a < b then a else b }

  /** What the cells hold once iterations before (u, v) have run: each cell
   *  {a, b} holds the value of the later of its two writes so far. */
  ghost predicate WrittenSoFar(m: array2<nat>, heads: array2<bool>, u: nat, v: nat)
    requires m.Length0 == m.Length1 == heads.Length0 == heads.Length1
    reads m, heads
  {
    forall a, b :: 0 <= a < m.Length0 && 0 <= b < m.Length0 ==>
      (Before(Max(a, b), Min(a, b), u, v) ==> m[a, b] == Drawn(heads, Max(a, b), Min(a, b)))
      && (!Before(Max(a, b), Min(a, b), u, v) && Before(Min(a, b), Max(a, b), u, v) ==> m[a, b] == Drawn(heads, Min(a, b), Max(a, b)))
  }

  /**
   * `createRandomGraph` (test.ts:72-91). Every iteration writes both cells of
   * a pair, so the later iteration (max, min) decides it: the matrix is
   * symmetric, has a zero diagonal and holds only 0 and 1.
   */
  method CreateRandomGraph(heads: array2<bool>) returns (V: nat, matrix: array2<nat>)
    requires heads.Length0 == GraphSize && heads.Length1 == GraphSize
    ensures V == GraphSize && matrix.Length0 == V && matrix.Length1 == V
    ensures forall a, b :: 0 <= a < V && 0 <= b < V ==> matrix[a, b] == Drawn(heads, Max(a, b), Min(a, b))
    ensures forall a, b :: 0 <= a < V && 0 <= b < V ==> matrix[a, b] == matrix[b, a]
    ensures forall a :: 0 <= a < V ==> matrix[a, a] == 0
    ensures forall a, b :: 0 <= a < V && 0 <= b < V ==> matrix[a, b] <= 1
  {
    V := GraphSize;
    matrix := new nat[V, V]((_, _) => 0);
    var u := 0;
    while u < V
      invariant 0 <= u <= V
      invariant WrittenSoFar(matrix, heads, u, 0)
    {
      FillRow(matrix, heads, u);
      u := u + 1;
    }
    FinalCells(matrix, heads);
  }

  /** The inner loop of test.ts:80-84 for one `u`. */
  method FillRow(matrix: array2<nat>, heads: array2<bool>, u: nat)
    requires matrix.Length0 == matrix.Length1 == heads.Length0 == heads.Length1 && u < matrix.Length0
    requires WrittenSoFar(matrix, heads, u, 0)
    modifies matrix
    ensures WrittenSoFar(matrix, heads, u + 1, 0)
  {
    var V := matrix.Length0;
    var v := 0;
    while v < V
      invariant 0 <= v <= V
      invariant WrittenSoFar(matrix, heads, u, v)
    {
      WriteCell(matrix, heads, u, v);
      v := v + 1;
    }
    RowDone(matrix, heads, u);
  }

  /** Iteration (u, v): both cells of the pair get the drawn value. */
  method WriteCell(matrix: array2<nat>, heads: array2<bool>, u: nat, v: nat)
    requires matrix.Length0 == matrix.Length1 == heads.Length0 == heads.Length1 && u < matrix.Length0 && v < matrix.Length0
    requires WrittenSoFar(matrix, heads, u, v)
    modifies matrix
    ensures WrittenSoFar(matrix, heads, u, v + 1)
  {
    var value := if u == v || heads[u, v] then 0 else 1;
    matrix[u, v] := value;
    matrix[v, u] := value;
    forall a, b | 0 <= a < matrix.Length0 && 0 <= b < matrix.Length0
      ensures Before(Max(a, b), Min(a, b), u, v + 1) ==> matrix[a, b] == Drawn(heads, Max(a, b), Min(a, b))
      ensures !Before(Max(a, b), Min(a, b), u, v + 1) && Before(Min(a, b), Max(a, b), u, v + 1) ==>
        matrix[a, b] == Drawn(heads, Min(a, b), Max(a, b))
    {
      if (a, b) != (u, v) && (a, b) != (v, u) {
        assert matrix[a, b] == old(matrix[a, b]);
      }
    }
  }

  lemma RowDone(m: array2<nat>, heads: array2<bool>, u: nat)
    requires m.Length0 == m.Length1 == heads.Length0 == heads.Length1
    requires WrittenSoFar(m, heads, u, m.Length0)
    ensures WrittenSoFar(m, heads, u + 1, 0)
  {
    forall a, b | 0 <= a < m.Length0 && 0 <= b < m.Length0
      ensures Before(Max(a, b), Min(a, b), u + 1, 0) <==> Before(Max(a, b), Min(a, b), u, m.Length0)
      ensures Before(Min(a, b), Max(a, b), u + 1, 0) <==> Before(Min(a, b), Max(a, b), u, m.Length0)
    {
    }
  }

  lemma FinalCells(m: array2<nat>, heads: array2<bool>)
    requires m.Length0 == m.Length1 == heads.Length0 == heads.Length1
    requires WrittenSoFar(m, heads, m.Length0, 0)
    ensures forall a, b :: 0 <= a < m.Length0 && 0 <= b < m.Length0 ==> m[a, b] == Drawn(heads, Max(a, b), Min(a, b))
  {
    forall a, b | 0 <= a < m.Length0 && 0 <= b < m.Length0
      ensures m[a, b] == Drawn(heads, Max(a, b), Min(a, b))
    {
      assert Before(Max(a, b), Min(a, b), m.Length0, 0);
    }
  }
}
