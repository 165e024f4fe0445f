/**
 * Peer-to-peer relay routing tables computed from a connectivity mesh
 * (src/controllers/rpc/routing.ts).
 *
 * A route from one peer to another is either `Server` (relay through the
 * server) or a list of intermediate peers (`Relay([])` is a direct link).
 * The computation is a recursive depth-first search that memoises every
 * route it finds, together with its reverse, in one shared map of tables.
 * The memo is keyed by the pair of peers only, not by the exclusion list of
 * the search that filled it, so a stored route is a walk through the mesh
 * but not necessarily a shortest one, and a connected pair can be left on
 * `Server`.
 */
module Routing {

  type Peer = string

  datatype Route = Server | Relay(peers: seq<Peer>)

  /**
   * A `Map<string, Set<string>>`: `order` holds the keys in insertion order
   * (the order a `for ... of` visits them), `adj` the neighbour sets, each in
   * its own insertion order.
   */
  datatype Mesh = Mesh(order: seq<Peer>, adj: map<Peer, seq<Peer>>)

  type Tables = map<Peer, map<Peer, Route>>

  ghost predicate Distinct<T>(s: seq<T>) {
    forall i, j :: 0 <= i < j < |s| ==> s[i] != s[j]
  }

  /** A JavaScript Map has each key once and iterates over exactly its keys,
   *  and a Set holds each neighbour once. */
  ghost predicate ValidMesh(m: Mesh) {
    && Distinct(m.order)
    && (forall p :: p in m.order <==> p in m.adj)
    && (forall k :: k in m.adj ==> Distinct(m.adj[k]))
  }

  /** Every peer that is a key of the mesh or a neighbour listed in it. */
  ghost function Universe(m: Mesh): set<Peer> {
    m.adj.Keys + set k, p | k in m.adj && p in m.adj[k] :: p
  }

  /** `x` and `y` are connected in either direction. */
  ghost predicate Linked(m: Mesh, x: Peer, y: Peer) {
    (x in m.adj && y in m.adj[x]) || (y in m.adj && x in m.adj[y])
  }

  /** `x` and `y` list each other as neighbours. */
  ghost predicate Mutual(m: Mesh, x: Peer, y: Peer) {
    x in m.adj && y in m.adj[x] && y in m.adj && x in m.adj[y]
  }

  /** Consecutive peers of `w` are linked in the mesh. */
  ghost predicate IsWalk(m: Mesh, w: seq<Peer>) {
    forall i :: 0 <= i < |w| - 1 ==> Linked(m, w[i], w[i + 1])
  }

  function Reversed<T>(s: seq<T>): seq<T> {
    if s == [] then [] else Reversed(s[1..]) + [s[0]]
  }

  /** The route stored for the opposite direction (routing.ts:51). */
  function Reverse(r: Route): Route {
    match r
    case Server => Server
    case Relay(ps) => Relay(Reversed(ps))
  }

  lemma {:induction false} ReversedAt<T>(s: seq<T>, k: nat)
    requires k < |s|
    ensures |Reversed(s)| == |s| && Reversed(s)[k] == s[|s| - 1 - k]
  {
    if k < |s| - 1 {
      ReversedAt(s[1..], k);
    } else {
      ReversedLength(s[1..]);
    }
  }

  lemma {:induction false} ReversedLength<T>(s: seq<T>)
    ensures |Reversed(s)| == |s|
  {
    if s != [] {
      ReversedLength(s[1..]);
    }
  }

  lemma ReversedTwice<T>(s: seq<T>)
    ensures Reversed(Reversed(s)) == s
  {
    ReversedLength(s);
    ReversedLength(Reversed(s));
    forall k | 0 <= k < |s|
      ensures Reversed(Reversed(s))[k] == s[k]
    {
      ReversedAt(Reversed(s), k);
      ReversedAt(s, |s| - 1 - k);
    }
  }

  /** Reversing a route twice gives it back, so both directions agree. */
  lemma ReverseTwice(r: Route)
    ensures Reverse(Reverse(r)) == r
  {
    if r.Relay? {
      ReversedTwice(r.peers);
    }
  }

  /** A walk read backwards is a walk: links count in both directions. */
  lemma ReversedWalk(m: Mesh, w: seq<Peer>)
    requires IsWalk(m, w)
    ensures IsWalk(m, Reversed(w))
  {
    ReversedLength(w);
    var n := |w|;
    forall i | 0 <= i < n - 1
      ensures Linked(m, Reversed(w)[i], Reversed(w)[i + 1])
    {
      ReversedAt(w, i);
      ReversedAt(w, i + 1);
      assert Linked(m, w[n - 2 - i], w[n - 1 - i]);
    }
  }

  /** The walk of the reverse route is the reverse of the walk. */
  lemma ReversedEnds(a: Peer, ps: seq<Peer>, b: Peer)
    ensures Reversed([a] + ps + [b]) == [b] + Reversed(ps) + [a]
  {
    var w := [a] + ps + [b];
    ReversedLength(w);
    ReversedLength(ps);
    forall k | 0 <= k < |w|
      ensures Reversed(w)[k] == ([b] + Reversed(ps) + [a])[k]
    {
      ReversedAt(w, k);
      if 0 < k < |w| - 1 {
        ReversedAt(ps, k - 1);
      }
    }
  }

  /** A relay through neighbour `p` extends p's own walk by one link. */
  lemma PrependWalk(m: Mesh, from: Peer, p: Peer, ps: seq<Peer>, to: Peer)
    requires from in m.adj && p in m.adj[from]
    requires IsWalk(m, [p] + ps + [to])
    ensures IsWalk(m, [from] + ([p] + ps) + [to])
  {
    var w := [p] + ps + [to];
    var w' := [from] + ([p] + ps) + [to];
    assert w' == [from] + w;
    forall i | 0 <= i < |w'| - 1
      ensures Linked(m, w'[i], w'[i + 1])
    {
      if i > 0 {
        assert w'[i] == w[i - 1] && w'[i + 1] == w[i];
      }
    }
  }

  // ---------------------------------------------------------------------
  // Choosing among the relays offered by the neighbours (routing.ts:39-43)
  // ---------------------------------------------------------------------

  /** A candidate replaces the best so far only if it is a relay and the
   *  best is `Server` or strictly longer. */
  function Better(best: Route, cand: Route): Route {
    if cand.Relay? && (best.Server? || |best.peers| > |cand.peers|) then cand else best
  }

  /** The route the neighbour loop ends with, the candidates taken in order. */
  function Pick(cands: seq<Route>): Route {
    if cands == [] then Server else Better(Pick(cands[..|cands| - 1]), cands[|cands| - 1])
  }

  /** `k` holds a shortest relay of `cands`, and every relay before it is longer. */
  ghost predicate EarliestShortest(cands: seq<Route>, k: int) {
    && 0 <= k < |cands| && cands[k].Relay?
    && (forall j :: 0 <= j < |cands| && cands[j].Relay? ==> |cands[k].peers| <= |cands[j].peers|)
    && (forall j :: 0 <= j < k && cands[j].Relay? ==> |cands[k].peers| < |cands[j].peers|)
  }

  /** The loop keeps `Server` only when no neighbour offered a relay, and
   *  otherwise ends with the first of the shortest relays offered. */
  lemma {:induction false} PickIsEarliestShortest(cands: seq<Route>)
    ensures Pick(cands).Server? <==> forall j :: 0 <= j < |cands| ==> cands[j].Server?
    ensures Pick(cands).Relay? ==> exists k :: EarliestShortest(cands, k) && cands[k] == Pick(cands)
  {
    if cands != [] {
      var init := cands[..|cands| - 1];
      var last := cands[|cands| - 1];
      PickIsEarliestShortest(init);
      assert forall j :: 0 <= j < |init| ==> init[j] == cands[j];
      if Pick(init).Relay? {
        var k :| EarliestShortest(init, k) && init[k] == Pick(init);
        if Pick(cands) == last && last != Pick(init) {
          assert EarliestShortest(cands, |cands| - 1);
        } else {
          assert EarliestShortest(cands, k);
        }
      } else if last.Relay? {
        assert EarliestShortest(cands, |cands| - 1);
      }
    }
  }

  // ---------------------------------------------------------------------
  // Invariants of the shared tables
  // ---------------------------------------------------------------------

  ghost predicate Memoised(t: Tables, from: Peer, to: Peer) {
    from in t && to in t[from]
  }

  /** Every stored route is stored reversed in the other peer's table. */
  ghost predicate Symmetric(t: Tables) {
    forall a, b :: a in t && b in t[a] ==> b in t && a in t[b] && t[b][a] == Reverse(t[a][b])
  }

  lemma SymmetricAt(t: Tables, a: Peer, b: Peer)
    requires Symmetric(t) && Memoised(t, a, b)
    ensures Memoised(t, b, a) && t[b][a] == Reverse(t[a][b])
  {
  }

  /** Every stored relay is a walk through the mesh between its two peers. */
  ghost predicate Sound(m: Mesh, t: Tables) {
    forall a, b :: a in t && b in t[a] && t[a][b].Relay? ==> IsWalk(m, [a] + t[a][b].peers + [b])
  }

  /** No peer has a route to itself. */
  ghost predicate NoSelfRoutes(t: Tables) {
    forall a :: a in t ==> a !in t[a]
  }

  /** Tables exist only for peers of the mesh, and only name peers of the mesh. */
  ghost predicate WithinUniverse(m: Mesh, t: Tables) {
    forall a :: a in t ==> a in Universe(m) && t[a].Keys <= Universe(m)
  }

  /** A pair that lists each other as neighbours is stored as a direct link,
   *  whichever of the two the search started from. */
  ghost predicate DirectKept(m: Mesh, t: Tables) {
    forall a, b :: a in t && b in t[a] && Mutual(m, a, b) ==> t[a][b] == Relay([])
  }

  ghost predicate TablesOk(m: Mesh, t: Tables) {
    Symmetric(t) && Sound(m, t) && NoSelfRoutes(t) && WithinUniverse(m, t) && DirectKept(m, t)
  }

  /** Entries are never removed (their routes may be overwritten). */
  ghost predicate Grows(t: Tables, t': Tables) {
    && t.Keys <= t'.Keys
    && forall a, b :: a in t && b in t[a] ==> b in t'[a]
  }

  /** A route from `a` to every other peer of `peers` is memoised. */
  ghost predicate RowDone(t: Tables, a: Peer, peers: seq<Peer>) {
    forall b :: b in peers && b != a ==> Memoised(t, a, b)
  }

  lemma GrowsKeepsRowDone(t: Tables, t': Tables, a: Peer, peers: seq<Peer>)
    requires Grows(t, t') && RowDone(t, a, peers)
    ensures RowDone(t', a, peers)
  {
  }

  lemma GrowsTransitive(t: Tables, t': Tables, t'': Tables)
    requires Grows(t, t') && Grows(t', t'')
    ensures Grows(t, t'')
  {
  }

  function WithTable(t: Tables, p: Peer): Tables {
    if p in t then t else t[p := map[]]
  }

  /** The two writes at the end of one search (routing.ts:48 and :51). */
  function WithPair(t: Tables, from: Peer, to: Peer, r: Route): Tables
    requires from in t
  {
    var t1 := t[from := t[from][to := r]];
    var t2 := WithTable(t1, to);
    t2[to := t2[to][from := Reverse(r)]]
  }

  lemma WritePairKeepsSymmetric(t: Tables, from: Peer, to: Peer, r: Route)
    requires Symmetric(t) && from in t && from != to
    ensures Symmetric(WithPair(t, from, to, r))
  {
    var t' := WithPair(t, from, to, r);
    ReverseTwice(r);
    forall a: Peer, b: Peer | a in t' && b in t'[a]
      ensures b in t' && a in t'[b] && t'[b][a] == Reverse(t'[a][b])
    {
      if (a == from && b == to) || (a == to && b == from) {
      } else {
        assert a in t && b in t[a];
      }
    }
  }

  lemma WritePairKeepsSound(m: Mesh, t: Tables, from: Peer, to: Peer, r: Route)
    requires Sound(m, t) && from in t && from != to
    requires r.Relay? ==> IsWalk(m, [from] + r.peers + [to])
    ensures Sound(m, WithPair(t, from, to, r))
  {
    var t': Tables := WithPair(t, from, to, r);
    if r.Relay? {
      ReversedWalk(m, [from] + r.peers + [to]);
      ReversedEnds(from, r.peers, to);
    }
    forall a: Peer, b: Peer | a in t' && b in t'[a] && t'[a][b].Relay?
      ensures IsWalk(m, [a] + t'[a][b].peers + [b])
    {
      if (a == from && b == to) || (a == to && b == from) {
      } else {
        assert a in t && b in t[a];
      }
    }
  }

  lemma WritePairKeepsDirect(m: Mesh, t: Tables, from: Peer, to: Peer, r: Route)
    requires DirectKept(m, t) && from in t && from != to
    requires Mutual(m, from, to) ==> r == Relay([])
    ensures DirectKept(m, WithPair(t, from, to, r))
  {
    var t' := WithPair(t, from, to, r);
    forall a: Peer, b: Peer | a in t' && b in t'[a] && Mutual(m, a, b)
      ensures t'[a][b] == Relay([])
    {
      if (a == from && b == to) || (a == to && b == from) {
        assert Reversed<Peer>([]) == [];
      } else {
        assert a in t && b in t[a];
      }
    }
  }

  /** Writing a route and its reverse keeps the tables symmetric, sound,
   *  free of self-routes and direct between mutual neighbours. */
  lemma WritePairKeepsTables(m: Mesh, t: Tables, from: Peer, to: Peer, r: Route)
    requires TablesOk(m, t) && from in t && from != to
    requires from in Universe(m) && to in Universe(m)
    requires r.Relay? ==> IsWalk(m, [from] + r.peers + [to])
    requires Mutual(m, from, to) ==> r == Relay([])
    ensures TablesOk(m, WithPair(t, from, to, r)) && Grows(t, WithPair(t, from, to, r))
    ensures Memoised(WithPair(t, from, to, r), from, to) && WithPair(t, from, to, r)[from][to] == r
  {
    WritePairKeepsSymmetric(t, from, to, r);
    WritePairKeepsSound(m, t, from, to, r);
    WritePairKeepsShape(m, t, from, to, r);
    WritePairKeepsDirect(m, t, from, to, r);
  }

  lemma WritePairKeepsShape(m: Mesh, t: Tables, from: Peer, to: Peer, r: Route)
    requires NoSelfRoutes(t) && WithinUniverse(m, t) && from in t && from != to
    requires from in Universe(m) && to in Universe(m)
    ensures NoSelfRoutes(WithPair(t, from, to, r)) && WithinUniverse(m, WithPair(t, from, to, r))
    ensures Grows(t, WithPair(t, from, to, r))
  {
    var t': Tables := WithPair(t, from, to, r);
    forall a | a in t'
      ensures a !in t'[a] && a in Universe(m) && t'[a].Keys <= Universe(m)
    {
      if a != from && a != to {
        assert a in t;
      }
    }
  }

  /** The candidate a neighbour `p` offers when its own search towards the
   *  target found `r`: `p` in front of r's relays, or nothing. */
  function Via(p: Peer, r: Route): Route {
    if r.Relay? then Relay([p] + r.peers) else Server
  }

  /** One candidate per neighbour, in iteration order: an excluded neighbour
   *  offers `Server`; any other offers `Via` of the route `relayed` found
   *  from it to `to`, which is a direct link when the two are mutual
   *  neighbours and otherwise a walk or `Server`. The route is the one the
   *  loop keeps (see PickIsEarliestShortest). */
  ghost predicate ChosenAmongNeighbours(m: Mesh, to: Peer, neighbours: seq<Peer>, excluding: seq<Peer>,
                                        cands: seq<Route>, relayed: seq<Route>, route: Route) {
    && |cands| == |neighbours| == |relayed|
    && route == Pick(cands)
    && (forall i :: 0 <= i < |cands| && neighbours[i] in excluding ==> cands[i] == Server)
    && (forall i :: 0 <= i < |cands| && neighbours[i] !in excluding ==> cands[i] == Via(neighbours[i], relayed[i]))
    && (forall i :: 0 <= i < |cands| && neighbours[i] !in excluding && Mutual(m, neighbours[i], to) ==>
          relayed[i] == Relay([]))
    && (forall i :: 0 <= i < |cands| && neighbours[i] !in excluding && relayed[i].Relay? ==>
          IsWalk(m, [neighbours[i]] + relayed[i].peers + [to]))
  }

  /** One more neighbour considered by the loop of routing.ts:36-45. */
  lemma ChosenSnoc(m: Mesh, to: Peer, neighbours: seq<Peer>, i: nat, excluding: seq<Peer>, cands: seq<Route>,
                   relayed: seq<Route>, route: Route, cand: Route, r: Route)
    requires i < |neighbours|
    requires ChosenAmongNeighbours(m, to, neighbours[..i], excluding, cands, relayed, route)
    requires neighbours[i] in excluding ==> cand == Server
    requires neighbours[i] !in excluding ==> cand == Via(neighbours[i], r)
    requires neighbours[i] !in excluding && Mutual(m, neighbours[i], to) ==> r == Relay([])
    requires neighbours[i] !in excluding && r.Relay? ==> IsWalk(m, [neighbours[i]] + r.peers + [to])
    ensures ChosenAmongNeighbours(m, to, neighbours[..i + 1], excluding, cands + [cand], relayed + [r], Better(route, cand))
  {
    assert neighbours[..i + 1] == neighbours[..i] + [neighbours[i]];
    assert (cands + [cand])[..|cands|] == cands;
  }

  /** The loop has considered every neighbour. */
  lemma ChosenAll(m: Mesh, to: Peer, neighbours: seq<Peer>, excluding: seq<Peer>,
                  cands: seq<Route>, relayed: seq<Route>, route: Route)
    requires ChosenAmongNeighbours(m, to, neighbours[..|neighbours|], excluding, cands, relayed, route)
    ensures ChosenAmongNeighbours(m, to, neighbours, excluding, cands, relayed, route)
    ensures (exists q :: q in neighbours && q !in excluding && Mutual(m, q, to)) ==>
      route.Relay? && |route.peers| == 1
  {
    assert neighbours[..|neighbours|] == neighbours;
    if q :| q in neighbours && q !in excluding && Mutual(m, q, to) {
      OneHopWins(m, to, neighbours, excluding, cands, relayed, route, q);
    }
  }

  /** A neighbour that is a mutual neighbour of the target, and is not
   *  excluded, makes the search end with a relay through exactly one peer. */
  lemma OneHopWins(m: Mesh, to: Peer, neighbours: seq<Peer>, excluding: seq<Peer>,
                   cands: seq<Route>, relayed: seq<Route>, route: Route, q: Peer)
    requires ChosenAmongNeighbours(m, to, neighbours, excluding, cands, relayed, route)
    requires q in neighbours && q !in excluding && Mutual(m, q, to)
    ensures route.Relay? && |route.peers| == 1
  {
    var i :| 0 <= i < |neighbours| && neighbours[i] == q;
    assert cands[i] == Relay([q]);
    PickIsEarliestShortest(cands);
    var k :| EarliestShortest(cands, k) && cands[k] == route;
    assert neighbours[k] !in excluding;
  }

  /** Creating an empty table for a peer of the mesh keeps the invariants. */
  lemma WithTableKeepsTables(m: Mesh, t: Tables, p: Peer)
    requires TablesOk(m, t) && p in Universe(m)
    ensures TablesOk(m, WithTable(t, p)) && Grows(t, WithTable(t, p))
  {
  }

  lemma NeighbourInUniverse(m: Mesh, from: Peer, p: Peer)
    requires from in m.adj && p in m.adj[from]
    ensures p in Universe(m)
  {
  }

  /**
   * The state of one call of `calculateRoutingTables`: the mesh it reads and
   * the tables it fills, which are both the memo and the result.
   */
  class RoutingCalculation {
    const mesh: Mesh
    var tables: Tables

    ghost predicate Valid()
      reads this
    {
      TablesOk(mesh, tables)
    }

    constructor (mesh: Mesh)
      ensures this.mesh == mesh && tables == map[] && Valid()
    {
      this.mesh := mesh;
      tables := map[];
    }

    /** `getOrCreateRoutingTable` (routing.ts:7-14). */
    method GetOrCreateRoutingTable(peer: Peer)
      modifies this
      ensures tables == WithTable(old(tables), peer)
    {
      if peer !in tables {
        tables := tables[peer := map[]];
      }
    }

    /**
     * `calculateRouteBeetwen` (routing.ts:16-53). The ghost `cands` are the
     * candidates the neighbour loop considered, one per neighbour of `from`
     * in iteration order (`Server` for an excluded neighbour or one that
     * offered no relay), and `relayed` the routes found from those
     * neighbours.
     */
    method CalculateRouteBetween(from: Peer, to: Peer, excluding: seq<Peer>)
      returns (route: Route, ghost cands: seq<Route>, ghost relayed: seq<Route>)
      requires Valid() && from != to
      requires from in Universe(mesh) && to in Universe(mesh)
      modifies this
      decreases Universe(mesh) - set p | p in excluding, 2
      ensures Valid() && Grows(old(tables), tables)
      ensures Memoised(tables, from, to) && tables[from][to] == route
      ensures route.Relay? ==> IsWalk(mesh, [from] + route.peers + [to])
      // a memoised route is returned as it is, whatever `excluding` is
      ensures Memoised(old(tables), from, to) ==> route == old(tables)[from][to] && tables == old(tables)
      // freshly computed routes
      ensures !Memoised(old(tables), from, to) && from !in mesh.adj ==> route == Server
      ensures !Memoised(old(tables), from, to) && from in mesh.adj && to in mesh.adj[from] ==> route == Relay([])
      // without a neighbour search only the pair and its reverse are written
      ensures !Memoised(old(tables), from, to) && (from !in mesh.adj || to in mesh.adj[from]) ==>
        tables == WithPair(WithTable(old(tables), from), from, to, route)
      ensures !Memoised(old(tables), from, to) && from in mesh.adj && to !in mesh.adj[from] ==>
        ChosenAmongNeighbours(mesh, to, mesh.adj[from], excluding, cands, relayed, route)
      ensures !Memoised(old(tables), from, to) && from in mesh.adj && to !in mesh.adj[from] ==>
        (exists q :: q in mesh.adj[from] && q !in excluding && Mutual(mesh, q, to)) ==>
        route.Relay? && |route.peers| == 1
    {
      cands, relayed := [], [];
      GetOrCreateRoutingTable(from);
      WithTableKeepsTables(mesh, old(tables), from);
      if to in tables[from] {
        route := tables[from][to];
        return;
      }

      route := Server;
      if from !in mesh.adj {
        route := Server;
      } else if to in mesh.adj[from] {
        route := Relay([]);
      } else {
        route, cands, relayed := RouteThroughNeighbours(from, to, excluding);
      }
      StoreRoute(from, to, route);
    }

    /** The neighbour loop of `calculateRouteBeetwen` (routing.ts:34-45). */
    method RouteThroughNeighbours(from: Peer, to: Peer, excluding: seq<Peer>)
      returns (route: Route, ghost cands: seq<Route>, ghost relayed: seq<Route>)
      requires Valid() && from != to && from in tables
      requires from in mesh.adj && to !in mesh.adj[from] && to in Universe(mesh)
      modifies this
      decreases Universe(mesh) - set p | p in excluding, 1
      ensures Valid() && Grows(old(tables), tables) && from in tables
      ensures route.Relay? ==> IsWalk(mesh, [from] + route.peers + [to])
      ensures ChosenAmongNeighbours(mesh, to, mesh.adj[from], excluding, cands, relayed, route)
      ensures (exists q :: q in mesh.adj[from] && q !in excluding && Mutual(mesh, q, to)) ==>
        route.Relay? && |route.peers| == 1
    {
      cands, relayed := [], [];
      route := Server;
      var connections := mesh.adj[from];
      var i := 0;
      while i < |connections|
        invariant 0 <= i <= |connections| && |cands| == i
        invariant Valid() && Grows(old(tables), tables) && from in tables
        invariant route.Relay? ==> IsWalk(mesh, [from] + route.peers + [to])
        invariant ChosenAmongNeighbours(mesh, to, connections[..i], excluding, cands, relayed, route)
      {
        var cand, r := TryNeighbour(from, to, excluding, connections[i]);
        ChosenSnoc(mesh, to, connections, i, excluding, cands, relayed, route, cand, r);
        route := Better(route, cand);
        cands, relayed := cands + [cand], relayed + [r];
        i := i + 1;
      }
      ChosenAll(mesh, to, connections, excluding, cands, relayed, route);
    }

    /** The candidate offered by one neighbour `p` (routing.ts:36-44): none
     *  when `p` is excluded, otherwise the route `relayed` found from `p`
     *  with `p` excluded as well, which is then memoised, prefixed by `p`. */
    method TryNeighbour(from: Peer, to: Peer, excluding: seq<Peer>, p: Peer) returns (cand: Route, ghost relayed: Route)
      requires Valid() && from != to && from in tables
      requires from in mesh.adj && p in mesh.adj[from] && to !in mesh.adj[from] && to in Universe(mesh)
      modifies this
      decreases Universe(mesh) - set p | p in excluding, 0
      ensures Valid() && Grows(old(tables), tables) && from in tables
      ensures p in excluding ==> cand == Server && tables == old(tables)
      ensures p !in excluding ==> Memoised(tables, p, to) && relayed == tables[p][to] && cand == Via(p, relayed)
      ensures p !in excluding && Mutual(mesh, p, to) ==> relayed == Relay([])
      ensures p !in excluding && relayed.Relay? ==> IsWalk(mesh, [p] + relayed.peers + [to])
      ensures cand.Relay? ==> |cand.peers| > 0 && cand.peers[0] == p && IsWalk(mesh, [from] + cand.peers + [to])
    {
      cand, relayed := Server, Server;
      if p !in excluding {
        NeighbourInUniverse(mesh, from, p);
        assert (set q | q in [p] + excluding) == (set q | q in excluding) + {p};
        assert p in (Universe(mesh) - set q | q in excluding);
        var r, _, _ := CalculateRouteBetween(p, to, [p] + excluding);
        relayed := r;
        if r.Relay? {
          PrependWalk(mesh, from, p, r.peers, to);
          cand := Relay([p] + r.peers);
        }
      }
    }

    /** Memoise a route and, as routes are bidirectional, its reverse in the
     *  target's table (routing.ts:48-51). */
    method StoreRoute(from: Peer, to: Peer, route: Route)
      requires Valid() && from != to && from in tables
      requires from in Universe(mesh) && to in Universe(mesh)
      requires route.Relay? ==> IsWalk(mesh, [from] + route.peers + [to])
      requires Mutual(mesh, from, to) ==> route == Relay([])
      modifies this
      ensures Valid() && Grows(old(tables), tables)
      ensures tables == WithPair(old(tables), from, to, route)
    {
      WritePairKeepsTables(mesh, tables, from, to, route);
      tables := tables[from := tables[from][to := route]];
      GetOrCreateRoutingTable(to);
      tables := tables[to := tables[to][from := Reverse(route)]];
    }

    /** The inner driver loop (routing.ts:64-70): a route from `peerFrom` to
     *  every other peer. */
    method CalculateRoutesFrom(peerFrom: Peer, peers: seq<Peer>)
      requires Valid() && peerFrom in Universe(mesh)
      requires forall p :: p in peers ==> p in Universe(mesh)
      modifies this
      ensures Valid() && Grows(old(tables), tables)
      ensures RowDone(tables, peerFrom, peers)
    {
      var j := 0;
      while j < |peers|
        invariant 0 <= j <= |peers|
        invariant Valid() && Grows(old(tables), tables)
        invariant RowDone(tables, peerFrom, peers[..j])
      {
        var peerTo := peers[j];
        ghost var t0 := tables;
        if peerFrom != peerTo {
          var _, _, _ := CalculateRouteBetween(peerFrom, peerTo, []);
          GrowsTransitive(old(tables), t0, tables);
        }
        GrowsKeepsRowDone(t0, tables, peerFrom, peers[..j]);
        assert peers[..j + 1] == peers[..j] + [peerTo];
        j := j + 1;
      }
      assert peers[..j] == peers;
    }
  }

  // ---------------------------------------------------------------------
  // The peer universe and the driver loops (routing.ts:55-73)
  // ---------------------------------------------------------------------

  /** Every mesh key and every listed neighbour, each once (routing.ts:55-61). */
  method CollectPeers(mesh: Mesh) returns (peers: seq<Peer>)
    requires ValidMesh(mesh)
    ensures Distinct(peers)
    ensures forall p :: p in peers <==> p in Universe(mesh)
  {
    peers := [];
    var i := 0;
    while i < |mesh.order|
      invariant 0 <= i <= |mesh.order|
      invariant Distinct(peers)
      invariant forall p :: p in peers ==> p in Universe(mesh)
      invariant forall k :: k in mesh.order[..i] ==> k in peers && forall q :: q in mesh.adj[k] ==> q in peers
    {
      var peer := mesh.order[i];
      if peer !in peers {
        peers := peers + [peer];
      }
      var connections := mesh.adj[peer];
      var j := 0;
      while j < |connections|
        invariant 0 <= j <= |connections|
        invariant Distinct(peers)
        invariant forall p :: p in peers ==> p in Universe(mesh)
        invariant peer in peers && forall q :: q in connections[..j] ==> q in peers
        invariant forall k :: k in mesh.order[..i] ==> k in peers && forall q :: q in mesh.adj[k] ==> q in peers
      {
        NeighbourInUniverse(mesh, peer, connections[j]);
        if connections[j] !in peers {
          peers := peers + [connections[j]];
        }
        j := j + 1;
      }
      assert connections[..j] == connections;
      assert mesh.order[..i + 1] == mesh.order[..i] + [peer];
      i := i + 1;
    }
    assert mesh.order[..i] == mesh.order;
  }

  lemma GrowsKeepsRowsDone(t: Tables, t': Tables, peers: seq<Peer>, i: nat)
    requires Grows(t, t') && i < |peers|
    requires forall x :: 0 <= x < i ==> RowDone(t, peers[x], peers)
    requires RowDone(t', peers[i], peers)
    ensures forall x :: 0 <= x < i + 1 ==> RowDone(t', peers[x], peers)
  {
    forall x | 0 <= x < i
      ensures RowDone(t', peers[x], peers)
    {
      GrowsKeepsRowDone(t, t', peers[x], peers);
    }
  }

  lemma RowsDoneMemoiseAll(m: Mesh, t: Tables, peers: seq<Peer>)
    requires forall p :: p in peers <==> p in Universe(m)
    requires forall x :: 0 <= x < |peers| ==> RowDone(t, peers[x], peers)
    ensures forall a, b :: a in Universe(m) && b in Universe(m) && a != b ==> Memoised(t, a, b)
  {
    forall a, b | a in Universe(m) && b in Universe(m) && a != b
      ensures Memoised(t, a, b)
    {
      var x :| 0 <= x < |peers| && peers[x] == a;
      assert RowDone(t, peers[x], peers);
    }
  }

  /**
   * `calculateRoutingTables` (routing.ts:4-74): a route is computed for every
   * ordered pair of distinct peers. The result is symmetric, every relay in it
   * is a walk through the mesh, no peer is routed to itself, and two peers
   * that list each other as neighbours get a direct link.
   */
  method CalculateRoutingTables(mesh: Mesh) returns (tables: Tables)
    requires ValidMesh(mesh)
    ensures Symmetric(tables) && Sound(mesh, tables) && NoSelfRoutes(tables) && WithinUniverse(mesh, tables)
    ensures forall a, b :: a in Universe(mesh) && b in Universe(mesh) && a != b ==> Memoised(tables, a, b)
    ensures forall a, b :: a != b && Mutual(mesh, a, b) ==> Memoised(tables, a, b) && tables[a][b] == Relay([])
  {
    var run := new RoutingCalculation(mesh);
    var peers := CollectPeers(mesh);
    var i := 0;
    while i < |peers|
      invariant 0 <= i <= |peers|
      invariant run.mesh == mesh && run.Valid()
      invariant forall x :: 0 <= x < i ==> RowDone(run.tables, peers[x], peers)
    {
      ghost var t0 := run.tables;
      run.CalculateRoutesFrom(peers[i], peers);
      GrowsKeepsRowsDone(t0, run.tables, peers, i);
      i := i + 1;
    }
    RowsDoneMemoiseAll(mesh, run.tables, peers);
    tables := run.tables;
  }

  /** The mesh A - B - C. */
  function Line(): Mesh {
    Mesh(["A", "B", "C"], map["A" := ["B"], "B" := ["A", "C"], "C" := ["B"]])
  }

  lemma LinePeers()
    ensures ValidMesh(Line())
    ensures "A" in Universe(Line()) && "B" in Universe(Line()) && "C" in Universe(Line())
    ensures "A" in Line().adj && "B" in Line().adj["A"] && "C" !in Line().adj["A"]
    ensures Mutual(Line(), "B", "C")
  {
    var m := Line();
    assert m.adj.Keys == {"A", "B", "C"};
  }

  /** After the search from A to B only that pair is stored. */
  lemma LineAfterFirst(t: Tables)
    requires t == WithPair(WithTable(map[], "A"), "A", "B", Relay([]))
    ensures "A" in t && "C" !in t["A"]
  {
  }

  /** B is the only peer linked to both A and C. */
  lemma LineMiddle(x: Peer)
    requires Linked(Line(), "A", x) && Linked(Line(), x, "C")
    ensures x == "B"
  {
  }

  /** The only one-peer relay from A to C goes through B. */
  lemma LineRelay(r: Route)
    requires r.Relay? && |r.peers| == 1 && IsWalk(Line(), ["A"] + r.peers + ["C"])
    ensures r == Relay(["B"]) && Reverse(r) == r
  {
    var w := ["A"] + r.peers + ["C"];
    assert w[0] == "A" && w[1] == r.peers[0] && w[2] == "C";
    assert Linked(Line(), w[0], w[1]) && Linked(Line(), w[1], w[2]);
    LineMiddle(r.peers[0]);
    assert r.peers == ["B"];
  }

  /**
   * The line A - B - C, searched as the driver starts (peers in the order
   * A, B, C): A reaches B directly and then reaches C through B, and C's
   * table gets the same relay back.
   */
  method LineOfThree() returns (ab: Route, ac: Route, ca: Route)
    ensures ab == Relay([]) && ac == Relay(["B"]) && ca == Relay(["B"])
  {
    LinePeers();
    var run := new RoutingCalculation(Line());
    var r1, _, _ := run.CalculateRouteBetween("A", "B", []);
    LineAfterFirst(run.tables);
    assert "B" in Line().adj["A"] && "B" !in [];
    var r2, _, _ := run.CalculateRouteBetween("A", "C", []);
    LineRelay(r2);
    SymmetricAt(run.tables, "A", "C");
    ab, ac, ca := r1, r2, run.tables["C"]["A"];
  }

  // ---------------------------------------------------------------------
  // Which relays each pair of peers is used by (routing.ts:87-102)
  // ---------------------------------------------------------------------

  /** JavaScript's `<=` on strings: character by character, a proper prefix
   *  before any longer string. */
  predicate LexLeq(a: string, b: string)
    decreases |a|
  {
    a == [] || (b != [] && (a[0] < b[0] || (a[0] == b[0] && LexLeq(a[1..], b[1..]))))
  }

  lemma {:induction false} LexLeqTotal(a: string, b: string)
    ensures LexLeq(a, b) || LexLeq(b, a)
    decreases |a|
  {
    if a != [] && b != [] && a[0] == b[0] {
      LexLeqTotal(a[1..], b[1..]);
    }
  }

  lemma {:induction false} LexLeqAntisymmetric(a: string, b: string)
    requires LexLeq(a, b) && LexLeq(b, a)
    ensures a == b
    decreases |a|
  {
    if a != [] {
      LexLeqAntisymmetric(a[1..], b[1..]);
      assert a == [a[0]] + a[1..] && b == [b[0]] + b[1..];
    }
  }

  /** `generateKey` (routing.ts:90-92): the two peers joined by a dot, the
   *  smaller one first. */
  function GenerateKey(s: Peer, e: Peer): string {
    if LexLeq(s, e) then s + "." + e else e + "." + s
  }

  /** The key does not depend on the direction of the link. */
  lemma GenerateKeySymmetric(s: Peer, e: Peer)
    ensures GenerateKey(s, e) == GenerateKey(e, s)
  {
    LexLeqTotal(s, e);
    if LexLeq(s, e) && LexLeq(e, s) {
      LexLeqAntisymmetric(s, e);
    }
  }

  /** The first and last peer of a processed route. */
  type Endpoints = (Peer, Peer)

  type UsageMap = map<string, seq<Endpoints>>

  /** `usedPaths.get(key) || []` */
  function Used(m: UsageMap, key: string): seq<Endpoints> {
    if key in m then m[key] else []
  }

  /** Append `v` under each of `keys`, in order. */
  function AppendAll(m: UsageMap, keys: seq<string>, v: Endpoints): UsageMap {
    if keys == [] then m
    else
      var m' := AppendAll(m, keys[..|keys| - 1], v);
      var k := keys[|keys| - 1];
      m'[k := Used(m', k) + [v]]
  }

  lemma AppendAllSnoc(m: UsageMap, keys: seq<string>, k: string, v: Endpoints)
    ensures AppendAll(m, keys + [k], v) == AppendAll(m, keys, v)[k := Used(AppendAll(m, keys, v), k) + [v]]
  {
    assert (keys + [k])[..|keys|] == keys;
  }

  lemma {:induction false} AppendAllConcat(m: UsageMap, a: seq<string>, b: seq<string>, v: Endpoints)
    ensures AppendAll(m, a + b, v) == AppendAll(AppendAll(m, a, v), b, v)
  {
    if b == [] {
      assert a + b == a;
    } else {
      assert (a + b)[..|a + b| - 1] == a + b[..|b| - 1];
      AppendAllConcat(m, a, b[..|b| - 1], v);
    }
  }

  /** A pair of positions (i, j) of a route. */
  type Pos = (nat, nat)

  /** The pairs (s, j) with s < j < e, in the order of the inner loop. */
  ghost function RowPairs(s: nat, e: nat): (r: seq<Pos>)
    ensures forall x :: x in r ==> x.0 == s && s < x.1 < e
  {
    if e <= s + 1 then [] else RowPairs(s, e - 1) + [(s, e - 1)]
  }

  /** The pairs (i, j) with i < s and i < j < n, in the order of the two loops. */
  ghost function AllPairs(s: nat, n: nat): (r: seq<Pos>)
    ensures forall x :: x in r ==> x.0 < s && x.0 < x.1 < n
  {
    if s == 0 then [] else AllPairs(s - 1, n) + RowPairs(s - 1, n)
  }

  ghost predicate WithinRoute(route: seq<Peer>, ps: seq<Pos>) {
    forall x :: x in ps ==> x.0 < |route| && x.1 < |route|
  }

  /** The key of each pair, in order. */
  ghost function KeysOf(route: seq<Peer>, ps: seq<Pos>): seq<string>
    requires WithinRoute(route, ps)
  {
    if ps == [] then []
    else
      var x := ps[|ps| - 1];
      KeysOf(route, ps[..|ps| - 1]) + [GenerateKey(route[x.0], route[x.1])]
  }

  /** The key of every position pair i < j of the route, in loop order. */
  ghost function PairKeys(route: seq<Peer>): seq<string> {
    if |route| == 0 then [] else KeysOf(route, AllPairs(|route| - 1, |route|))
  }

  lemma InConcat<T>(a: seq<T>, b: seq<T>, x: T)
    ensures x in a + b <==> x in a || x in b
  {
    if x in a + b {
      var n :| 0 <= n < |a + b| && (a + b)[n] == x;
      if n >= |a| {
        assert b[n - |a|] == x;
      }
    }
    if x in b {
      var n :| 0 <= n < |b| && b[n] == x;
      assert (a + b)[|a| + n] == x;
    }
  }

  lemma {:induction false} RowPairsComplete(s: nat, e: nat, j: nat)
    requires s < j < e
    ensures (s, j) in RowPairs(s, e)
  {
    if j < e - 1 {
      RowPairsComplete(s, e - 1, j);
      InConcat(RowPairs(s, e - 1), [(s, e - 1)], (s, j));
    }
  }

  /** Every pair i < j < n with i < s is visited by the first s rows. */
  lemma {:induction false} AllPairsComplete(s: nat, n: nat, i: nat, j: nat)
    requires i < s && i < j < n
    ensures (i, j) in AllPairs(s, n)
  {
    InConcat(AllPairs(s - 1, n), RowPairs(s - 1, n), (i, j));
    if i < s - 1 {
      AllPairsComplete(s - 1, n, i, j);
    } else {
      RowPairsComplete(i, n, j);
    }
  }

  lemma {:induction false} KeysOfConcat(route: seq<Peer>, a: seq<Pos>, b: seq<Pos>)
    requires WithinRoute(route, a) && WithinRoute(route, b)
    ensures WithinRoute(route, a + b) && KeysOf(route, a + b) == KeysOf(route, a) + KeysOf(route, b)
  {
    if b == [] {
      assert a + b == a;
    } else {
      assert (a + b)[..|a + b| - 1] == a + b[..|b| - 1];
      KeysOfConcat(route, a, b[..|b| - 1]);
    }
  }

  lemma KeysOfSnoc(route: seq<Peer>, ps: seq<Pos>, x: Pos)
    requires WithinRoute(route, ps) && x.0 < |route| && x.1 < |route|
    ensures WithinRoute(route, ps + [x])
    ensures KeysOf(route, ps + [x]) == KeysOf(route, ps) + [GenerateKey(route[x.0], route[x.1])]
  {
    assert (ps + [x])[..|ps|] == ps;
  }

  /** One step of the inner loop of routing.ts:95-100: the pair (start, end)
   *  appends `v` under its key. */
  lemma RowStep(m: UsageMap, route: seq<Peer>, start: nat, end: nat, v: Endpoints)
    requires start < end < |route|
    ensures
      var u := AppendAll(m, KeysOf(route, RowPairs(start, end)), v);
      var key := GenerateKey(route[start], route[end]);
      AppendAll(m, KeysOf(route, RowPairs(start, end + 1)), v) == u[key := Used(u, key) + [v]]
  {
    var ps := RowPairs(start, end);
    assert RowPairs(start, end + 1) == ps + [(start, end)];
    KeysOfSnoc(route, ps, (start, end));
    AppendAllSnoc(m, KeysOf(route, ps), GenerateKey(route[start], route[end]), v);
  }

  lemma {:induction false} KeyHasPair(route: seq<Peer>, ps: seq<Pos>, k: string) returns (x: Pos)
    requires WithinRoute(route, ps) && k in KeysOf(route, ps)
    ensures x in ps && GenerateKey(route[x.0], route[x.1]) == k
  {
    var init := ps[..|ps| - 1];
    var last := ps[|ps| - 1];
    InConcat(KeysOf(route, init), [GenerateKey(route[last.0], route[last.1])], k);
    if k in KeysOf(route, init) {
      x := KeyHasPair(route, init, k);
    } else {
      x := last;
    }
  }

  lemma {:induction false} PairHasKey(route: seq<Peer>, ps: seq<Pos>, x: Pos)
    requires WithinRoute(route, ps) && x in ps
    ensures GenerateKey(route[x.0], route[x.1]) in KeysOf(route, ps)
  {
    var init := ps[..|ps| - 1];
    var last := ps[|ps| - 1];
    assert ps == init + [last];
    InConcat(init, [last], x);
    InConcat(KeysOf(route, init), [GenerateKey(route[last.0], route[last.1])], GenerateKey(route[x.0], route[x.1]));
    if x != last {
      PairHasKey(route, init, x);
    }
  }

  /** A key is appended to exactly when some pair of positions i < j of the
   *  route has it. */
  lemma PairKeysAreThePairs(route: seq<Peer>, k: string)
    ensures k in PairKeys(route) <==> exists i: nat, j: nat :: i < j < |route| && GenerateKey(route[i], route[j]) == k
  {
    if k in PairKeys(route) {
      var x := KeyHasPair(route, AllPairs(|route| - 1, |route|), k);
      assert x.0 < x.1 < |route| && GenerateKey(route[x.0], route[x.1]) == k;
    }
    if exists i: nat, j: nat :: i < j < |route| && GenerateKey(route[i], route[j]) == k {
      var i: nat, j: nat :| i < j < |route| && GenerateKey(route[i], route[j]) == k;
      AllPairsComplete(|route| - 1, |route|, i, j);
      PairHasKey(route, AllPairs(|route| - 1, |route|), (i, j));
    }
  }

  /** Under each key, one copy of `v` is appended per occurrence of the key. */
  lemma {:induction false} AppendAllUsed(m: UsageMap, keys: seq<string>, v: Endpoints, k: string)
    ensures Used(AppendAll(m, keys, v), k) == Used(m, k) + seq(multiset(keys)[k], _ => v)
  {
    if keys != [] {
      var init := keys[..|keys| - 1];
      var last := keys[|keys| - 1];
      assert keys == init + [last];
      AppendAllUsed(m, init, v, k);
      var n := multiset(init)[k];
      if k == last {
        assert multiset(keys)[k] == n + 1;
        assert seq(n + 1, _ => v) == seq(n, _ => v) + [v];
      } else {
        assert multiset(keys)[k] == n;
      }
    }
  }

  /** The module-level `usedPaths` map of the demonstration (routing.ts:88). */
  class UsedPaths {
    var usedPaths: UsageMap

    constructor ()
      ensures usedPaths == map[]
    {
      usedPaths := map[];
    }

    /** `processRoute` (routing.ts:93-102): under the key of every position
     *  pair i < j, append the route's first and last peer. */
    method ProcessRoute(route: seq<Peer>)
      modifies this
      ensures usedPaths == if |route| == 0 then old(usedPaths)
                           else AppendAll(old(usedPaths), PairKeys(route), (route[0], route[|route| - 1]))
    {
      if |route| == 0 {
        return;
      }
      ghost var m0 := usedPaths;
      ghost var v: Endpoints := (route[0], route[|route| - 1]);
      var start := 0;
      while start < |route| - 1
        invariant 0 <= start <= |route| - 1
        invariant usedPaths == AppendAll(m0, KeysOf(route, AllPairs(start, |route|)), v)
      {
        ghost var done := AllPairs(start, |route|);
        ghost var row := RowPairs(start, |route|);
        ProcessRow(route, start);
        assert AllPairs(start + 1, |route|) == done + row;
        KeysOfConcat(route, done, row);
        AppendAllConcat(m0, KeysOf(route, done), KeysOf(route, row), v);
        start := start + 1;
      }
    }

    /** The inner loop of `processRoute` (routing.ts:95-100) for one `start`. */
    method ProcessRow(route: seq<Peer>, start: nat)
      requires start + 1 < |route|
      modifies this
      ensures usedPaths == AppendAll(old(usedPaths), KeysOf(route, RowPairs(start, |route|)), (route[0], route[|route| - 1]))
    {
      ghost var m0 := usedPaths;
      ghost var v: Endpoints := (route[0], route[|route| - 1]);
      var end := start + 1;
      while end < |route|
        invariant start + 1 <= end <= |route|
        invariant usedPaths == AppendAll(m0, KeysOf(route, RowPairs(start, end)), v)
      {
        var key := GenerateKey(route[start], route[end]);
        var result := Used(usedPaths, key);
        result := result + [(route[0], route[|route| - 1])];
        RowStep(m0, route, start, end, v);
        usedPaths := usedPaths[key := result];
        end := end + 1;
      }
    }
  }
}
