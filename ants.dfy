/** The ant-colony travelling-salesman example: ants build closed tours on a
    directed graph one vertex at a time, each tour is priced, the cheapest
    one is kept, and a pheromone matrix is evaporated and reinforced along
    the tours. Pheromone levels are reals: the evaporation factor and the
    deposit amount are parameters, with no floating-point rounding; the
    desirability-weighted choice of the next vertex and the random start
    vertices are parameters too. */
module AntColony {
  import opened Lifecycle

  /** A directed graph on vertices `0 .. |edge| - 1`: an adjacency matrix and
      a matrix of edge weights (read only where there is an edge). */
  datatype Graph = Graph(edge: seq<seq<bool>>, weight: seq<seq<real>>)
  {
    /** Number of vertices. */
    function N(): nat {
      |edge|
    }

    /** Both matrices are square over the vertices. */
    ghost predicate Valid() {
      && |weight| == |edge|
      && forall u :: 0 <= u < |edge| ==> |edge[u]| == |edge| && |weight[u]| == |edge|
    }
  }

  /** A tour cost: a finite sum of edge weights, or the sentinel
      `numeric_limits<double>::max()` that marks an invalid tour. */
  datatype Cost = Finite(value: real) | Sentinel

  /** `a < b` on costs, with the sentinel above every finite cost and not
      below itself. */
  predicate Cheaper(a: Cost, b: Cost) {
    match a
    case Sentinel => false
    case Finite(x) => b.Sentinel? || x < b.value
  }

  /** Strictly cheaper than a cost that is itself no cheaper than `c`'s
      rival is strictly cheaper than `c`. */
  lemma CheaperThanNotCheaper(a: Cost, b: Cost, c: Cost)
    requires Cheaper(a, b) && !Cheaper(c, b)
    ensures Cheaper(a, c)
  {
  }

  /** Strictly cheaper than strictly cheaper is strictly cheaper. */
  lemma CheaperTransitive(a: Cost, b: Cost, c: Cost)
    requires Cheaper(a, b) && Cheaper(b, c)
    ensures Cheaper(a, c)
  {
  }

  /** Every vertex of `t` is a vertex of `g`. */
  ghost predicate OnVertices(g: Graph, t: seq<nat>) {
    forall k :: 0 <= k < |t| ==> t[k] < g.N()
  }

  /** The first `m` steps of `t` all follow edges of `g`. */
  ghost predicate Follows(g: Graph, t: seq<nat>, m: nat)
    requires g.Valid() && OnVertices(g, t) && m < |t|
  {
    forall k :: 0 <= k < m ==> g.edge[t[k]][t[k + 1]]
  }

  /** Sum of the weights of the first `m` steps of `t`, left to right. */
  ghost function Length(g: Graph, t: seq<nat>, m: nat): real
    requires g.Valid() && OnVertices(g, t) && m < |t|
  {
    if m == 0 then 0.0 else Length(g, t, m - 1) + g.weight[t[m - 1]][t[m]]
  }

  /** The price of a tour on `g`: finite exactly when the tour has `N + 1`
      vertices, ends where it starts and every step follows an edge, and
      then the sum of its step weights; the sentinel otherwise. */
  ghost function TourCost(g: Graph, t: seq<nat>): Cost
    requires g.Valid() && OnVertices(g, t)
  {
    if |t| == g.N() + 1 && t[|t| - 1] == t[0] && Follows(g, t, g.N()) then Finite(Length(g, t, g.N())) else Sentinel
  }

  /** The vertices `i < k` that are unvisited and that the current vertex
      has an edge to, in increasing order. */
  function Unvisited(visited: seq<bool>, adjacent: seq<bool>, k: nat): (r: seq<nat>)
    requires k <= |visited| == |adjacent|
    ensures forall v: nat :: v in r <==> v < k && !visited[v] && adjacent[v]
    ensures forall i, j :: 0 <= i < j < |r| ==> r[i] < r[j]
  {
    if k == 0 then []
    else
      var earlier := Unvisited(visited, adjacent, k - 1);
      if !visited[k - 1] && adjacent[k - 1] then
        assert forall i :: 0 <= i < |earlier| ==> earlier[i] in earlier;
        earlier + [k - 1]
      else earlier
  }

  /** The vertices occurring in `s`; as many as `s` is long when `s`
      repeats none. */
  function Elements(s: seq<nat>): (r: set<nat>)
    ensures forall v :: v in r <==> v in s
    ensures Distinct(s) ==> |r| == |s|
  {
    if s == [] then {}
    else
      assert Distinct(s) ==> Distinct(s[1..]) && s[0] !in s[1..];
      {s[0]} + Elements(s[1..])
  }

  /** The vertices below `n`; there are `n` of them. */
  function Below(n: nat): (r: set<nat>)
    ensures forall v: nat :: v in r <==> v < n
    ensures |r| == n
  {
    if n == 0 then {} else Below(n - 1) + {n - 1}
  }

  lemma SubsetSize<T>(a: set<T>, b: set<T>)
    requires a <= b
    ensures |a| <= |b|
  {
    assert b == a + (b - a);
  }

  /** Pigeonhole: `n` distinct vertices below `n` are all of them. */
  lemma DistinctCovers(s: seq<nat>, n: nat)
    requires Distinct(s) && |s| == n
    requires forall k :: 0 <= k < |s| ==> s[k] < n
    ensures forall v: nat :: v < n ==> v in s
  {
    forall v: nat | v < n
      ensures v in s
    {
      if v !in s {
        var inS, others := Elements(s), Below(n) - {v};
        assert inS <= others;
        SubsetSize(inS, others);
      }
    }
  }

  /** With every vertex visited there is no candidate to move to. */
  lemma AllVisitedNoCandidates(visited: seq<bool>, adjacent: seq<bool>, k: nat)
    requires k <= |visited| == |adjacent|
    requires forall v :: 0 <= v < k ==> visited[v]
    ensures Unvisited(visited, adjacent, k) == []
  {
  }

  /** Every step of the walk `t` follows an edge of `g`. */
  ghost predicate OnEdges(g: Graph, t: seq<nat>)
    requires g.Valid()
  {
    OnVertices(g, t) && 1 <= |t| && Follows(g, t, |t| - 1)
  }

  /** `after` continues the tour `before` of an ant on `n` vertices: it
      starts with it, equals it once `before` is complete (`n + 1`
      vertices), and stays on edges when `before` was on edges. */
  ghost predicate Extends(g: Graph, n: nat, before: seq<nat>, after: seq<nat>)
    requires g.Valid()
  {
    && before <= after
    && (|before| == n + 1 ==> after == before)
    && (OnEdges(g, before) ==> OnEdges(g, after))
  }

  /** Continuing a continuation is a continuation. */
  lemma ExtendsTransitive(g: Graph, n: nat, a: seq<nat>, b: seq<nat>, c: seq<nat>)
    requires g.Valid() && Extends(g, n, a, b) && Extends(g, n, b, c)
    ensures Extends(g, n, a, c)
  {
  }

  /** A step along an edge from the end of a walk keeps it on edges. */
  lemma FollowsExtend(g: Graph, t: seq<nat>, x: nat)
    requires g.Valid() && OnVertices(g, t) && 1 <= |t| && x < g.N()
    requires Follows(g, t, |t| - 1) && g.edge[t[|t| - 1]][x]
    ensures OnVertices(g, t + [x]) && Follows(g, t + [x], |t|)
  {
    var t' := t + [x];
    forall k | 0 <= k < |t|
      ensures g.edge[t'[k]][t'[k + 1]]
    {
      if k + 1 < |t| {
        assert t'[k] == t[k] && t'[k + 1] == t[k + 1];
      }
    }
  }

  /** The part of a tour on `n` vertices before its closing return. */
  ghost function OpenPart(tour: seq<nat>, n: nat): seq<nat>
  {
    if |tour| <= n then tour else tour[..n]
  }

  /** An ant's state on `n` vertices: the open part of the tour repeats no
      vertex and is exactly the set of visited vertices, the ant stands on
      its last vertex, and a tour of `n + 1` vertices closes back at the
      start. */
  ghost predicate AntState(n: nat, tour: seq<nat>, visited: seq<bool>, current: nat) {
    && 0 < n
    && 1 <= |tour| <= n + 1
    && |visited| == n
    && (forall k :: 0 <= k < |tour| ==> tour[k] < n)
    && Distinct(OpenPart(tour, n))
    && (forall v :: 0 <= v < n ==> (visited[v] <==> v in OpenPart(tour, n)))
    && current < n
    && current == OpenPart(tour, n)[|OpenPart(tour, n)| - 1]
    && (|tour| == n + 1 ==> tour[n] == tour[0])
  }

  /** Stepping to an unvisited vertex keeps the state consistent. */
  lemma StepKeepsState(n: nat, tour: seq<nat>, visited: seq<bool>, current: nat, next: nat)
    requires AntState(n, tour, visited, current)
    requires |tour| < n && next < n && !visited[next]
    ensures AntState(n, tour + [next], visited[next := true], next)
  {
    assert OpenPart(tour + [next], n) == tour + [next];
  }

  /** Returning to the start after `n` distinct vertices keeps the state
      consistent: the return is not part of the open tour. */
  lemma CloseKeepsState(n: nat, tour: seq<nat>, visited: seq<bool>, current: nat)
    requires AntState(n, tour, visited, current)
    requires |tour| == n
    ensures AntState(n, tour + [tour[0]], visited, current)
  {
    assert OpenPart(tour + [tour[0]], n) == tour;
  }

  /** Once `n` vertices are on the tour, all of them are visited, so no
      vertex is a candidate. */
  lemma FullNoCandidates(n: nat, tour: seq<nat>, visited: seq<bool>, current: nat, adjacent: seq<bool>)
    requires AntState(n, tour, visited, current) && |adjacent| == n
    ensures |tour| >= n ==> Unvisited(visited, adjacent, n) == []
  {
    if |tour| >= n {
      DistinctCovers(OpenPart(tour, n), n);
      AllVisitedNoCandidates(visited, adjacent, n);
    }
  }

  /** A tour of `n + 1` vertices passes through every vertex. */
  lemma CompleteCovers(n: nat, tour: seq<nat>, visited: seq<bool>, current: nat)
    requires AntState(n, tour, visited, current) && |tour| == n + 1
    ensures forall v: nat :: v < n ==> v in tour
  {
    DistinctCovers(OpenPart(tour, n), n);
    assert tour == OpenPart(tour, n) + [tour[n]];
  }

  /** An ant's state as a value: tour, visited flags, current vertex, cost. */
  datatype AntView = AntView(tour: seq<nat>, visited: seq<bool>, current: nat, cost: Cost)

  /** The ant can no longer extend an incomplete tour: no unvisited vertex
      is adjacent, and the tour is not one return away from complete. */
  ghost predicate Stuck(g: Graph, n: nat, a: AntView)
    requires g.Valid() && g.N() == n && AntState(n, a.tour, a.visited, a.current)
  {
    && |a.tour| <= n
    && Unvisited(a.visited, g.edge[a.current], n) == []
    && !(|a.tour| == n && g.edge[a.current][a.tour[0]])
  }

  /** A step along an edge to an unvisited vertex keeps the ant consistent
      and continues its tour. */
  lemma StepExtends(g: Graph, n: nat, a: AntView, next: nat)
    requires g.Valid() && g.N() == n && AntState(n, a.tour, a.visited, a.current)
    requires |a.tour| < n && next < n && !a.visited[next] && g.edge[a.current][next]
    ensures AntState(n, a.tour + [next], a.visited[next := true], next)
    ensures Extends(g, n, a.tour, a.tour + [next])
  {
    StepKeepsState(n, a.tour, a.visited, a.current, next);
    if OnEdges(g, a.tour) {
      FollowsExtend(g, a.tour, next);
    }
  }

  /** The return to the start after `n` vertices keeps the ant consistent
      and continues its tour. */
  lemma CloseExtends(g: Graph, n: nat, a: AntView)
    requires g.Valid() && g.N() == n && AntState(n, a.tour, a.visited, a.current)
    requires |a.tour| == n && g.edge[a.current][a.tour[0]]
    ensures AntState(n, a.tour + [a.tour[0]], a.visited, a.current)
    ensures Extends(g, n, a.tour, a.tour + [a.tour[0]])
  {
    CloseKeepsState(n, a.tour, a.visited, a.current);
    if OnEdges(g, a.tour) {
      FollowsExtend(g, a.tour, a.tour[0]);
    }
  }

  /** move_to_next_vertex on the state of an ant, `pick` being the index of
      the chosen candidate. With unvisited neighbours the picked one is
      appended, visited and made current. Without, a tour of `n` vertices
      closes back at the start when there is an edge to it and is marked
      invalid when there is none; any other ant stays as it is. So a move
      keeps the ant consistent and continues its tour, an incomplete ant
      that is not stuck gains exactly one vertex, a stuck ant stays stuck
      on the same tour, and a complete ant does not change. */
  ghost function Moved(g: Graph, n: nat, a: AntView, pick: nat): (r: AntView)
    requires g.Valid() && g.N() == n && AntState(n, a.tour, a.visited, a.current)
    requires Unvisited(a.visited, g.edge[a.current], n) != [] ==> pick < |Unvisited(a.visited, g.edge[a.current], n)|
    ensures AntState(n, r.tour, r.visited, r.current)
    ensures Extends(g, n, a.tour, r.tour)
    ensures |a.tour| <= n && !Stuck(g, n, a) ==> |r.tour| == |a.tour| + 1
    ensures Stuck(g, n, a) ==> r.tour == a.tour && Stuck(g, n, r)
    ensures |a.tour| == n + 1 ==> r == a
  {
    var candidates := Unvisited(a.visited, g.edge[a.current], n);
    FullNoCandidates(n, a.tour, a.visited, a.current, g.edge[a.current]);
    if candidates == [] then
      if |a.tour| == n then
        if g.edge[a.current][a.tour[0]] then
          CloseExtends(g, n, a);
          a.(tour := a.tour + [a.tour[0]])
        else
          a.(cost := Sentinel)
      else
        a
    else
      var next := candidates[pick];
      assert next in candidates;
      StepExtends(g, n, a, next);
      a.(tour := a.tour + [next], visited := a.visited[next := true], current := next)
  }

  /** What an ant holds once construct_tours is over, as a value: a
      consistent state whose tour starts at `s`, is complete or stuck, and
      whose cost is the tour's price. */
  ghost predicate Built(g: Graph, n: nat, a: AntView, s: nat)
    requires g.Valid() && g.N() == n
  {
    && AntState(n, a.tour, a.visited, a.current)
    && a.tour[0] == s
    && OnVertices(g, a.tour) && a.cost == TourCost(g, a.tour)
    && (|a.tour| == n + 1 || Stuck(g, n, a))
  }

  /** `after` is what the turn of ant `a` in round `step` of construct_tours
      leaves of its state `before`: the move `Moved`, with the pick
      `choose(step, a, m)` among the `m` candidates, when the tour is
      incomplete, and no change otherwise. */
  ghost predicate TurnTaken(g: Graph, n: nat, before: AntView, after: AntView,
                            choose: (nat, nat, nat) -> nat, step: nat, a: nat)
    requires g.Valid() && g.N() == n
  {
    && AntState(n, before.tour, before.visited, before.current)
    && var candidates := Unvisited(before.visited, g.edge[before.current], n);
       && (candidates != [] ==> choose(step, a, |candidates|) < |candidates|)
       && after == if |before.tour| < n + 1 then Moved(g, n, before, choose(step, a, |candidates|)) else before
  }

  /** Round `r` of `built` holds `m` ants; ant `a` of round `r` built its
      tour from `start(r, a)`, and none is cheaper than `best`. */
  ghost predicate Recorded(g: Graph, n: nat, built: seq<seq<AntView>>, m: nat, start: (nat, nat) -> nat, best: Cost)
    requires g.Valid() && g.N() == n
  {
    && (forall r :: 0 <= r < |built| ==> |built[r]| == m)
    && (forall r, a :: 0 <= r < |built| && 0 <= a < |built[r]| ==>
          Built(g, n, built[r][a], start(r, a)) && !Cheaper(built[r][a].cost, best))
  }

  /** Appending a round none of whose ants is cheaper than a best that only
      improved keeps the record. */
  lemma RecordedKept(g: Graph, n: nat, built: seq<seq<AntView>>, round: seq<AntView>, m: nat,
                     start: (nat, nat) -> nat, best: Cost, best': Cost)
    requires g.Valid() && g.N() == n && Recorded(g, n, built, m, start, best)
    requires best' == best || Cheaper(best', best)
    requires |round| == m
    requires forall a :: 0 <= a < m ==> Built(g, n, round[a], start(|built|, a)) && !Cheaper(round[a].cost, best')
    ensures Recorded(g, n, built + [round], m, start, best')
  {
    var built' := built + [round];
    forall r, a | 0 <= r < |built'| && 0 <= a < |built'[r]|
      ensures Built(g, n, built'[r][a], start(r, a)) && !Cheaper(built'[r][a].cost, best')
    {
      if r < |built| {
        assert built'[r] == built[r];
        NotCheaperKept(built[r][a].cost, best, best');
      }
    }
  }

  /** Some ant of some round of `built` held cost `c` and tour `t`, and it
      is the first to hold that cost: every ant before it, in an earlier
      round or earlier in its own round, was strictly dearer. */
  ghost predicate HeldBy(built: seq<seq<AntView>>, c: Cost, t: seq<nat>) {
    exists r, a :: 0 <= r < |built| && 0 <= a < |built[r]| && built[r][a].cost == c && built[r][a].tour == t
                   && FirstAt(built, c, r, a)
  }

  /** Every ant before ant `a` of round `r` was strictly dearer than `c`. */
  ghost predicate FirstAt(built: seq<seq<AntView>>, c: Cost, r: nat, a: nat)
    requires r < |built|
  {
    && (forall r', a' :: 0 <= r' < r && 0 <= a' < |built[r']| ==> Cheaper(c, built[r'][a'].cost))
    && (forall a' :: 0 <= a' < a && a' < |built[r]| ==> Cheaper(c, built[r][a'].cost))
  }

  /** What an earlier round held first is still held first once a round
      is appended. */
  lemma HeldByKept(built: seq<seq<AntView>>, round: seq<AntView>, c: Cost, t: seq<nat>)
    requires HeldBy(built, c, t)
    ensures HeldBy(built + [round], c, t)
  {
    var r, a :| 0 <= r < |built| && 0 <= a < |built[r]| && built[r][a].cost == c && built[r][a].tour == t
                && FirstAt(built, c, r, a);
    var built' := built + [round];
    assert forall r' :: 0 <= r' <= r ==> built'[r'] == built[r'];
    assert FirstAt(built', c, r, a);
  }

  /** An ant of the appended round that is strictly cheaper than the best
      so far, none of whose earlier ants in the record can be cheaper than,
      and strictly cheaper than every ant before it in its round, is held
      first. */
  lemma HeldByLast(g: Graph, n: nat, built: seq<seq<AntView>>, round: seq<AntView>, a: nat,
                   m: nat, start: (nat, nat) -> nat, best: Cost)
    requires g.Valid() && g.N() == n && Recorded(g, n, built, m, start, best)
    requires a < |round| && Cheaper(round[a].cost, best)
    requires forall j :: 0 <= j < a ==> Cheaper(round[a].cost, round[j].cost)
    ensures HeldBy(built + [round], round[a].cost, round[a].tour)
  {
    var built' := built + [round];
    var c := round[a].cost;
    assert built'[|built|] == round;
    forall r', a' | 0 <= r' < |built| && 0 <= a' < |built'[r']|
      ensures Cheaper(c, built'[r'][a'].cost)
    {
      assert built'[r'] == built[r'];
      CheaperThanNotCheaper(c, best, built[r'][a'].cost);
    }
    assert FirstAt(built', c, |built|, a);
  }

  /** The best an iteration's scoring settled on, when it replaced the
      best so far, is held first once that round is appended. */
  lemma HeldByRound(g: Graph, n: nat, built: seq<seq<AntView>>, round: seq<AntView>,
                    m: nat, start: (nat, nat) -> nat, best: Cost, c: Cost, t: seq<nat>)
    requires g.Valid() && g.N() == n && Recorded(g, n, built, m, start, best) && Cheaper(c, best)
    requires exists a :: 0 <= a < |round| && c == round[a].cost && t == round[a].tour
                         && forall j :: 0 <= j < a ==> Cheaper(c, round[j].cost)
    ensures HeldBy(built + [round], c, t)
  {
    var a :| 0 <= a < |round| && c == round[a].cost && t == round[a].tour
             && forall j :: 0 <= j < a ==> Cheaper(c, round[j].cost);
    HeldByLast(g, n, built, round, a, m, start, best);
  }

  /** A cost no cheaper than a best stays no cheaper than a better best. */
  lemma NotCheaperKept(c: Cost, best: Cost, best': Cost)
    requires !Cheaper(c, best)
    requires best' == best || Cheaper(best', best)
    ensures !Cheaper(c, best')
  {
  }

  /** Some step `t[k], t[k + 1]` with `k + 1 < m` goes from `i` to `j`. */
  ghost predicate Steps(t: seq<nat>, i: nat, j: nat, m: nat) {
    exists k :: 0 <= k && k + 1 < m && k + 1 < |t| && t[k] == i && t[k + 1] == j
  }

  /** One of the first `m` ants has a finite cost and a tour stepping from
      `i` to `j`. */
  ghost predicate Deposited(ants: seq<Ant>, m: nat, i: nat, j: nat)
    reads ants
  {
    exists k :: 0 <= k < m && k < |ants| && ants[k].cost.Finite? && Steps(ants[k].tour, i, j, |ants[k].tour|)
  }

  /** The ant's cost is the price of its tour on `g`. */
  ghost predicate Priced(a: Ant, g: Graph)
    reads a`tour, a`cost
    requires g.Valid()
  {
    OnVertices(g, a.tour) && a.cost == TourCost(g, a.tour)
  }

  /** Ant: the tour so far (its first vertex is the start), the vertices
      visited, the current vertex and the tour's cost, on a graph of `n`
      vertices. */
  class Ant {
    const n: nat
    var tour: seq<nat>
    var cost: Cost
    var visited: seq<bool>
    var current: nat

    /** The tour without its closing return to the start. */
    ghost function Path(): seq<nat>
      reads this`tour
    {
      OpenPart(tour, n)
    }

    /** The ant's state as a value. */
    ghost function View(): AntView
      reads this`tour, this`visited, this`current, this`cost
    {
      AntView(tour, visited, current, cost)
    }

    /** The ant's state is consistent (see `AntState`). */
    ghost predicate Valid()
      reads this`tour, this`visited, this`current
    {
      AntState(n, tour, visited, current)
    }

    /** Freshly placed at `start`: the tour is just `start`, only `start` is
        visited, the ant stands there and the cost is 0. */
    ghost predicate StartedAt(start: nat)
      reads this
    {
      tour == [start] && current == start && cost == Finite(0.0)
      && |visited| == n && forall v :: 0 <= v < n ==> (visited[v] <==> v == start)
    }

    /** Ant(n_vertices, start_vertex). */
    constructor (n: nat, start: nat)
      requires start < n
      ensures this.n == n && StartedAt(start) && Valid()
    {
      this.n := n;
      tour := [start];
      cost := Finite(0.0);
      current := start;
      visited := seq(n, v => false)[start := true];
    }

    /** reset(start_vertex): back to the freshly placed state at `start`. */
    method Reset(start: nat)
      requires start < n
      modifies this
      ensures StartedAt(start) && Valid()
    {
      tour := [start];
      cost := Finite(0.0);
      visited := seq(n, v => false);
      visited := visited[start := true];
      current := start;
    }

    /** The unvisited vertices the current vertex has an edge to, collected
        by scanning the vertices in increasing order. */
    method UnvisitedNeighbours(g: Graph) returns (r: seq<nat>)
      requires g.Valid() && g.N() == n && |visited| == n && current < n
      ensures r == Candidates(g)
    {
      r := [];
      var adjacent := g.edge[current];
      for i := 0 to n
        invariant r == Unvisited(visited, adjacent, i)
      {
        if !visited[i] && adjacent[i] {
          r := r + [i];
        }
      }
    }

    /** The unvisited vertices the current vertex has an edge to. */
    ghost function Candidates(g: Graph): seq<nat>
      reads this`visited, this`current
      requires g.Valid() && g.N() == n && |visited| == n && current < n
    {
      Unvisited(visited, g.edge[current], n)
    }

    /** move_to_next_vertex, with the random pick among the candidates given
        as `choose(count)`: the new state is `Moved` of the old one, and the
        answer is whether the tour grew. */
    method Move(g: Graph, choose: nat -> nat) returns (moved: bool)
      requires Valid() && g.Valid() && g.N() == n
      requires forall m: nat :: 0 < m ==> choose(m) < m
      modifies this
      ensures Valid()
      ensures Extends(g, n, old(tour), tour)
      ensures View() == Moved(g, n, old(View()), choose(|old(Candidates(g))|))
      ensures moved <==> |tour| == |old(tour)| + 1
    {
      var candidates := UnvisitedNeighbours(g);
      FullNoCandidates(n, tour, visited, current, g.edge[current]);
      if candidates == [] {
        if |tour| == n {
          if g.edge[current][tour[0]] {
            CloseTour(g);
            return true;
          } else {
            cost := Sentinel;
            return false;
          }
        }
        return false;
      }
      var next := candidates[choose(|candidates|)];
      assert next in candidates;
      StepTo(g, next);
      moved := true;
    }

    /** The move to an unvisited neighbour `next`: appended to the tour,
        marked visited and made current. */
    method StepTo(g: Graph, next: nat)
      requires Valid() && g.Valid() && g.N() == n
      requires |tour| < n && next < n && !visited[next] && g.edge[current][next]
      modifies this`tour, this`visited, this`current
      ensures tour == old(tour) + [next] && visited == old(visited)[next := true] && current == next
      ensures Valid()
      ensures OnEdges(g, old(tour)) ==> OnEdges(g, tour)
    {
      StepExtends(g, n, View(), next);
      visited := visited[next := true];
      tour := tour + [next];
      current := next;
    }

    /** The return to the start once `n` vertices are on the tour and there
        is an edge back: the start is appended, nothing else changes. */
    method CloseTour(g: Graph)
      requires Valid() && g.Valid() && g.N() == n
      requires |tour| == n && g.edge[current][tour[0]]
      modifies this`tour
      ensures tour == old(tour) + [old(tour[0])]
      ensures Valid()
      ensures OnEdges(g, old(tour)) ==> OnEdges(g, tour)
    {
      CloseExtends(g, n, View());
      tour := tour + [tour[0]];
    }

    /** calculate_tour_cost: the sentinel unless the tour has `n + 1`
        vertices and ends at its start; otherwise the weights of its steps
        are summed left to right, stopping at the sentinel on the first step
        that is not an edge. */
    method CalculateTourCost(g: Graph)
      requires g.Valid() && g.N() == n && OnVertices(g, tour)
      modifies this`cost
      ensures cost == TourCost(g, tour)
    {
      cost := Finite(0.0);
      if |tour| != n + 1 || tour[|tour| - 1] != tour[0] {
        cost := Sentinel;
        return;
      }
      var i := 0;
      while i < |tour| - 1
        invariant 0 <= i <= n
        invariant Follows(g, tour, i) && cost == Finite(Length(g, tour, i))
      {
        if g.edge[tour[i]][tour[i + 1]] {
          cost := Finite(cost.value + g.weight[tour[i]][tour[i + 1]]);
        } else {
          cost := Sentinel;
          return;
        }
        i := i + 1;
      }
    }
  }

  /** An ant that stayed on edges and holds a tour of `n + 1` vertices has
      a finite price, and its tour passes through every vertex. */
  lemma CompleteTourPrice(a: Ant, g: Graph)
    requires a.Valid() && g.Valid() && g.N() == a.n && OnEdges(g, a.tour)
    requires |a.tour| == a.n + 1
    ensures TourCost(g, a.tour).Finite?
    ensures forall v: nat :: v < a.n ==> v in a.tour
  {
    CompleteCovers(a.n, a.tour, a.visited, a.current);
  }

  /** ACO_Solver: the graph, the pheromone matrix (one cell per ordered
      pair of vertices) and the best tour found so far with its cost. The
      evaporation and deposit amounts are given as functions of their
      inputs, because their floating-point values are not modelled. */
  class Solver {
    const g: Graph
    const n: nat
    const initialPheromone: real
    const pheromones: array2<real>
    var bestTour: seq<nat>
    var bestCost: Cost

    /** The matrix matches the graph, and a finite best cost is the price
        of the best tour. */
    ghost predicate Valid()
      reads this
    {
      && g.Valid() && g.N() == n
      && pheromones.Length0 == n && pheromones.Length1 == n
      && OnVertices(g, bestTour)
      && (bestCost.Finite? ==> TourCost(g, bestTour) == bestCost)
    }

    /** No pheromone lies on a pair of vertices without an edge. */
    ghost predicate OffEdgesClear()
      reads this, pheromones
      requires Valid()
    {
      forall i, j :: 0 <= i < n && 0 <= j < n && !g.edge[i][j] ==> pheromones[i, j] == 0.0
    }

    /** ACO_Solver(g, ..., initial_phero): no best tour yet (the sentinel
        cost), and the pheromones initialised. */
    constructor (g: Graph, initialPheromone: real)
      requires g.Valid()
      ensures Valid() && this.g == g && this.initialPheromone == initialPheromone
      ensures bestCost == Sentinel && bestTour == []
      ensures forall i, j :: 0 <= i < n && 0 <= j < n ==>
                pheromones[i, j] == if g.edge[i][j] then initialPheromone else 0.0
      ensures OffEdgesClear()
    {
      this.g := g;
      n := g.N();
      this.initialPheromone := initialPheromone;
      pheromones := new real[g.N(), g.N()];
      bestTour := [];
      bestCost := Sentinel;
      new;
      InitializePheromones();
    }

    /** initialize_pheromones: every edge gets the initial level, every
        other pair 0. */
    method InitializePheromones()
      requires Valid()
      modifies pheromones
      ensures forall i, j :: 0 <= i < n && 0 <= j < n ==>
                pheromones[i, j] == if g.edge[i][j] then initialPheromone else 0.0
    {
      for i := 0 to n
        invariant forall i', j :: 0 <= i' < i && 0 <= j < n ==>
                    pheromones[i', j] == if g.edge[i'][j] then initialPheromone else 0.0
      {
        for j := 0 to n
          invariant forall i', j' :: 0 <= i' < i && 0 <= j' < n ==>
                      pheromones[i', j'] == if g.edge[i'][j'] then initialPheromone else 0.0
          invariant forall j' :: 0 <= j' < j ==>
                      pheromones[i, j'] == if g.edge[i][j'] then initialPheromone else 0.0
        {
          if g.edge[i][j] {
            pheromones[i, j] := initialPheromone;
          } else {
            pheromones[i, j] := 0.0;
          }
        }
      }
    }

    /** The evaporation step of update_pheromones: every edge's level is
        scaled by `factor` (the `1 - evaporation_rate` of the source); the
        other pairs are not touched. */
    method Evaporate(factor: real)
      requires Valid()
      modifies pheromones
      ensures forall i, j :: 0 <= i < n && 0 <= j < n ==>
                pheromones[i, j] == if g.edge[i][j] then old(pheromones[i, j]) * factor else old(pheromones[i, j])
    {
      for i := 0 to n
        invariant forall i', j :: 0 <= i' < n && 0 <= j < n ==>
                    pheromones[i', j] == if i' < i && g.edge[i'][j] then old(pheromones[i', j]) * factor else old(pheromones[i', j])
      {
        for j := 0 to n
          invariant forall i', j' :: 0 <= i' < n && 0 <= j' < n ==>
                      pheromones[i', j'] == if (i' < i || (i' == i && j' < j)) && g.edge[i'][j'] then old(pheromones[i', j']) * factor else old(pheromones[i', j'])
        {
          if g.edge[i][j] {
            pheromones[i, j] := pheromones[i, j] * factor;
          }
        }
      }
    }

    /** deposit_pheromone: `amount` is added to the cell of every step of
        `tour` that is an edge; cells of pairs the tour does not step along
        by an edge keep their level, so a tour of at most one vertex changes
        nothing, and with a non-negative amount no level drops. */
    method DepositPheromone(tour: seq<nat>, amount: real)
      requires Valid() && OnVertices(g, tour)
      modifies pheromones
      ensures forall i, j :: 0 <= i < n && 0 <= j < n && !(g.edge[i][j] && Steps(tour, i, j, |tour|)) ==>
                pheromones[i, j] == old(pheromones[i, j])
      ensures 0.0 <= amount ==> forall i, j :: 0 <= i < n && 0 <= j < n ==> old(pheromones[i, j]) <= pheromones[i, j]
    {
      if |tour| > 1 {
        for k := 0 to |tour| - 1
          invariant forall i, j :: 0 <= i < n && 0 <= j < n && !(g.edge[i][j] && Steps(tour, i, j, k + 1)) ==>
                      pheromones[i, j] == old(pheromones[i, j])
          invariant 0.0 <= amount ==> forall i, j :: 0 <= i < n && 0 <= j < n ==> old(pheromones[i, j]) <= pheromones[i, j]
        {
          var u, v := tour[k], tour[k + 1];
          if g.edge[u][v] {
            pheromones[u, v] := pheromones[u, v] + amount;
          }
        }
      }
    }

    /** update_pheromones: evaporation by `factor` on every edge, then a
        deposit of `amountFor(cost)` along the tour of every ant whose cost
        is finite, then one along the best tour when its cost is finite.
        Pairs without an edge keep their level; an edge that none of those
        tours steps along is only evaporated. */
    method UpdatePheromones(ants: seq<Ant>, factor: real, amountFor: real -> real)
      requires Valid()
      requires forall k :: 0 <= k < |ants| ==> ants[k].Valid() && ants[k].n == n
      modifies pheromones
      ensures forall i, j :: 0 <= i < n && 0 <= j < n && !g.edge[i][j] ==> pheromones[i, j] == old(pheromones[i, j])
      ensures forall i, j ::
                (0 <= i < n && 0 <= j < n && g.edge[i][j] && !Deposited(ants, |ants|, i, j)
                 && !(bestCost.Finite? && Steps(bestTour, i, j, |bestTour|))) ==>
                pheromones[i, j] == old(pheromones[i, j]) * factor
    {
      Evaporate(factor);
      for k := 0 to |ants|
        invariant forall i, j :: 0 <= i < n && 0 <= j < n && !g.edge[i][j] ==> pheromones[i, j] == old(pheromones[i, j])
        invariant forall i, j :: 0 <= i < n && 0 <= j < n && g.edge[i][j] && !Deposited(ants, k, i, j) ==>
                    pheromones[i, j] == old(pheromones[i, j]) * factor
      {
        if ants[k].cost.Finite? {
          DepositPheromone(ants[k].tour, amountFor(ants[k].cost.value));
        }
      }
      if bestCost.Finite? {
        DepositPheromone(bestTour, amountFor(bestCost.value));
      }
    }

    /** construct_tours: `n` rounds in which every ant whose tour is not yet
        complete moves once (the pick of ant `a` in round `s` among `m`
        candidates is `choose(s, a, m)`), then every tour is priced and the
        best tour replaced by each strictly cheaper one. Tours only grow
        along edges; `n` rounds are enough for every ant to end with a
        complete tour or stuck; every ant holds its tour's price; the best
        cost never rises, is no worse than any ant's, and when it changed it
        is that of the first ant to reach it, whose tour visits every
        vertex. */
    method ConstructTours(ants: seq<Ant>, choose: (nat, nat, nat) -> nat)
      requires Valid()
      requires forall k :: 0 <= k < |ants| ==> ants[k].Valid() && ants[k].n == n
      requires Distinct(ants)
      requires forall s, a, m: nat :: 0 < m ==> choose(s, a, m) < m
      modifies ants, this`bestTour, this`bestCost
      ensures Valid()
      ensures forall k :: 0 <= k < |ants| ==> ants[k].Valid() && Priced(ants[k], g)
      ensures forall k :: 0 <= k < |ants| ==> Extends(g, n, old(ants[k].tour), ants[k].tour)
      ensures forall k :: 0 <= k < |ants| ==>
                ants[k].Valid() && (|ants[k].tour| == n + 1 || Stuck(g, ants[k].n, ants[k].View()))
      ensures forall k :: 0 <= k < |ants| ==> !Cheaper(ants[k].cost, bestCost)
      ensures bestCost == old(bestCost) || Cheaper(bestCost, old(bestCost))
      ensures bestCost == old(bestCost) ==> bestTour == old(bestTour)
      ensures bestCost == old(bestCost) || exists k :: 0 <= k < |ants| && bestCost == ants[k].cost && bestTour == ants[k].tour
      ensures bestCost != old(bestCost) ==>
                exists k :: 0 <= k < |ants| && bestCost == ants[k].cost && bestTour == ants[k].tour
                            && forall j :: 0 <= j < k ==> Cheaper(bestCost, ants[j].cost)
      ensures bestCost != old(bestCost) ==> forall v: nat :: v < n ==> v in bestTour
    {
      for step := 0 to n
        modifies ants
        invariant forall k :: 0 <= k < |ants| ==> ants[k].Valid() && Extends(g, n, old(ants[k].tour), ants[k].tour)
        invariant forall k :: 0 <= k < |ants| ==>
                    ants[k].Valid() && (|ants[k].tour| == n + 1 || Stuck(g, ants[k].n, ants[k].View()) || step + 1 <= |ants[k].tour|)
      {
        ghost var before := seq(|ants|, k requires 0 <= k < |ants| reads ants => ants[k].tour);
        AdvanceRound(ants, step, choose);
        forall k | 0 <= k < |ants|
          ensures Extends(g, n, old(ants[k].tour), ants[k].tour)
        {
          ExtendsTransitive(g, n, old(ants[k].tour), before[k], ants[k].tour);
        }
      }
      ScoreAnts(ants);
    }

    /** One round of construct_tours: each ant, in order, makes the move
        `Moved` with its own pick if its tour has fewer than `n + 1`
        vertices, and stays as it is otherwise. */
    method AdvanceRound(ants: seq<Ant>, step: nat, choose: (nat, nat, nat) -> nat)
      requires Valid()
      requires forall k :: 0 <= k < |ants| ==> ants[k].Valid() && ants[k].n == n
      requires Distinct(ants)
      requires forall s, a, m: nat :: 0 < m ==> choose(s, a, m) < m
      modifies ants
      ensures Valid()
      ensures forall k :: 0 <= k < |ants| ==> ants[k].Valid()
      ensures forall k :: 0 <= k < |ants| ==> Extends(g, n, old(ants[k].tour), ants[k].tour)
      ensures forall k :: 0 <= k < |ants| ==> TurnTaken(g, n, old(ants[k].View()), ants[k].View(), choose, step, k)
    {
      ghost var before := seq(|ants|, k requires 0 <= k < |ants| reads ants => ants[k].View());
      for i := 0 to |ants|
        invariant Valid()
        invariant AdvancedUpTo(ants, i, before, step, choose)
      {
        AdvanceNext(ants, i, before, step, choose);
      }
    }

    /** The first `i` ants have taken their turn of round `step` from their
        states in `before`, and the others still hold theirs. */
    ghost predicate AdvancedUpTo(ants: seq<Ant>, i: nat, before: seq<AntView>, step: nat,
                                 choose: (nat, nat, nat) -> nat)
      reads ants`tour, ants`visited, ants`current, ants`cost
    {
      && g.Valid() && g.N() == n && i <= |ants| == |before|
      && (forall k :: 0 <= k < |ants| ==> ants[k].Valid() && Extends(g, n, before[k].tour, ants[k].tour))
      && (forall k :: 0 <= k < i ==> TurnTaken(g, n, before[k], ants[k].View(), choose, step, k))
      && (forall k :: i <= k < |ants| ==> ants[k].View() == before[k])
    }

    /** One step of the round: ant `i` takes its turn, and no other ant
        changes. */
    method AdvanceNext(ants: seq<Ant>, i: nat, ghost before: seq<AntView>, step: nat,
                       choose: (nat, nat, nat) -> nat)
      requires Valid() && i < |ants| && ants[i].n == n && Distinct(ants)
      requires forall s, a, m: nat :: 0 < m ==> choose(s, a, m) < m
      requires AdvancedUpTo(ants, i, before, step, choose)
      modifies ants[i]
      ensures AdvancedUpTo(ants, i + 1, before, step, choose)
    {
      AdvanceAnt(ants[i], step, i, choose);
      assert forall k :: 0 <= k < |ants| && k != i ==> ants[k] != ants[i];
    }

    /** Ant `a`'s turn in round `step` of construct_tours: it moves, with
        pick `choose(step, a, m)` among `m` candidates, when its tour has
        fewer than `n + 1` vertices. */
    method AdvanceAnt(ant: Ant, step: nat, a: nat, choose: (nat, nat, nat) -> nat)
      requires Valid() && ant.Valid() && ant.n == n
      requires forall s, a, m: nat :: 0 < m ==> choose(s, a, m) < m
      modifies ant
      ensures ant.Valid() && Extends(g, n, old(ant.tour), ant.tour)
      ensures TurnTaken(g, n, old(ant.View()), ant.View(), choose, step, a)
    {
      if |ant.tour| < n + 1 {
        var _ := ant.Move(g, m => choose(step, a, m));
      }
    }

    /** The pricing loop of construct_tours: each ant's tour is priced, and
        a strictly cheaper price replaces the best tour and cost. So the
        best ends no worse than the old best or any ant, and when it changed
        it is the first ant strictly cheaper than every ant before it, so a
        later ant of equal cost does not displace it; its tour visits every
        vertex. */
    method ScoreAnts(ants: seq<Ant>)
      requires Valid()
      requires forall k :: 0 <= k < |ants| ==> ants[k].Valid() && ants[k].n == n
      requires Distinct(ants)
      modifies ants`cost, this`bestTour, this`bestCost
      ensures Valid()
      ensures forall k :: 0 <= k < |ants| ==> Priced(ants[k], g)
      ensures forall k :: 0 <= k < |ants| ==> !Cheaper(ants[k].cost, bestCost)
      ensures bestCost == old(bestCost) || Cheaper(bestCost, old(bestCost))
      ensures bestCost == old(bestCost) ==> bestTour == old(bestTour)
      ensures bestCost == old(bestCost) || exists k :: 0 <= k < |ants| && bestCost == ants[k].cost && bestTour == ants[k].tour
      ensures bestCost != old(bestCost) ==>
                exists k :: 0 <= k < |ants| && bestCost == ants[k].cost && bestTour == ants[k].tour
                            && forall j :: 0 <= j < k ==> Cheaper(bestCost, ants[j].cost)
      ensures bestCost != old(bestCost) ==> forall v: nat :: v < n ==> v in bestTour
    {
      ghost var from := -1;
      for k := 0 to |ants|
        invariant Valid()
        invariant ScoredUpTo(ants, k, from, old(bestCost), old(bestTour))
      {
        from := ScoreNext(ants, k, from, old(bestCost), old(bestTour));
      }
    }

    /** The scoring loop has priced the first `k` ants: none of them is
        cheaper than the best, which is no worse than `best0`. With `from`
        at -1 the best is still `best0` with `tour0`; otherwise it is the
        cost and tour of ant `from`, strictly cheaper than `best0` and than
        every ant before `from`, and its tour visits every vertex. */
    ghost predicate ScoredUpTo(ants: seq<Ant>, k: nat, from: int, best0: Cost, tour0: seq<nat>)
      reads this`bestCost, this`bestTour, ants`tour, ants`cost
    {
      && g.Valid() && k <= |ants|
      && (forall j :: 0 <= j < k ==> Priced(ants[j], g) && !Cheaper(ants[j].cost, bestCost))
      && (from == -1 ==> bestCost == best0 && bestTour == tour0)
      && (from != -1 ==>
            && 0 <= from < k && bestCost == ants[from].cost && bestTour == ants[from].tour
            && Cheaper(bestCost, best0)
            && (forall j :: 0 <= j < from ==> Cheaper(bestCost, ants[j].cost))
            && forall v: nat :: v < n ==> v in bestTour)
    }

    /** One pass of the scoring loop: ant `k` is priced and, when strictly
        cheaper, becomes the best, which `from` then names. */
    method ScoreNext(ants: seq<Ant>, k: nat, ghost from: int, ghost best0: Cost, ghost tour0: seq<nat>)
      returns (ghost from': int)
      requires Valid() && k < |ants| && ants[k].Valid() && ants[k].n == n
      requires Distinct(ants)
      requires ScoredUpTo(ants, k, from, best0, tour0)
      modifies ants`cost, this`bestTour, this`bestCost
      ensures Valid() && ScoredUpTo(ants, k + 1, from', best0, tour0)
    {
      ghost var bestBefore := bestCost;
      var improved := ScoreAnt(ants[k]);
      forall j | 0 <= j < k
        ensures ants[j].cost == old(ants[j].cost) && Priced(ants[j], g)
        ensures !Cheaper(ants[j].cost, bestCost)
      {
        assert ants[j] != ants[k];
        NotCheaperKept(ants[j].cost, bestBefore, bestCost);
      }
      if improved {
        forall j | 0 <= j < k
          ensures Cheaper(bestCost, ants[j].cost)
        {
          CheaperThanNotCheaper(bestCost, bestBefore, ants[j].cost);
        }
        if from != -1 {
          CheaperTransitive(bestCost, bestBefore, best0);
        }
        from' := k;
      } else {
        from' := from;
      }
    }

    /** One ant of the pricing loop: its tour is priced, and a strictly
        cheaper price becomes the best cost, with the ant's tour, which then
        visits every vertex, as the best tour. */
    method ScoreAnt(ant: Ant) returns (improved: bool)
      requires Valid() && ant.Valid() && ant.n == n
      modifies ant`cost, this`bestTour, this`bestCost
      ensures Valid() && Priced(ant, g)
      ensures improved <==> Cheaper(ant.cost, old(bestCost))
      ensures improved ==> bestCost == ant.cost && bestTour == ant.tour
      ensures improved ==> forall v: nat :: v < n ==> v in ant.tour
      ensures !improved ==> bestCost == old(bestCost) && bestTour == old(bestTour)
    {
      ant.CalculateTourCost(g);
      improved := Cheaper(ant.cost, bestCost);
      if improved {
        CompleteCovers(n, ant.tour, ant.visited, ant.current);
        bestCost := ant.cost;
        bestTour := ant.tour;
      }
    }

    /** run: `numAnts` ants placed at `start(0, a)`, then `iterations`
        rounds of construct_tours, update_pheromones and a reset of each ant
        to `start(r + 1, a)`; the picks of round `r` are `choose(r, ...)`.
        `built[r][a]` is what ant `a` held at the end of round `r`'s
        construct_tours: a consistent tour from `start(r, a)`, complete or
        stuck, and priced. None of them is cheaper than the final best, the
        best cost never rises, a changed best is the first of them to reach
        it and visits every vertex, and pairs without an edge keep no
        pheromone. */
    method Run(numAnts: nat, iterations: nat, start: (nat, nat) -> nat, choose: (nat, nat, nat, nat) -> nat,
               factor: real, amountFor: real -> real) returns (ghost built: seq<seq<AntView>>)
      requires Valid() && OffEdgesClear()
      requires 0 < numAnts ==> forall r, a: nat :: start(r, a) < n
      requires forall r, s, a, m: nat :: 0 < m ==> choose(r, s, a, m) < m
      modifies pheromones, this`bestTour, this`bestCost
      ensures Valid() && OffEdgesClear()
      ensures |built| == iterations && Recorded(g, n, built, numAnts, start, bestCost)
      ensures bestCost == old(bestCost) || Cheaper(bestCost, old(bestCost))
      ensures bestCost == old(bestCost) || HeldBy(built, bestCost, bestTour)
      ensures bestCost != old(bestCost) ==> forall v: nat :: v < n ==> v in bestTour
    {
      var ants := PlaceAnts(numAnts, a => start(0, a));
      built := [];
      for r := 0 to iterations
        invariant Valid() && OffEdgesClear()
        invariant Distinct(ants) && |ants| == numAnts
        invariant forall k :: 0 <= k < |ants| ==> fresh(ants[k]) && ants[k].Valid() && ants[k].n == n
        invariant forall k :: 0 <= k < |ants| ==> ants[k].StartedAt(start(r, k))
        invariant |built| == r && Recorded(g, n, built, numAnts, start, bestCost)
        invariant bestCost == old(bestCost) || Cheaper(bestCost, old(bestCost))
        invariant bestCost == old(bestCost) || HeldBy(built, bestCost, bestTour)
        invariant bestCost != old(bestCost) ==> forall v: nat :: v < n ==> v in bestTour
      {
        ghost var bestBefore := bestCost;
        ghost var round := Iteration(ants, r, start, choose, factor, amountFor);
        RecordedKept(g, n, built, round, numAnts, start, bestBefore, bestCost);
        if bestCost != bestBefore {
          HeldByRound(g, n, built, round, numAnts, start, bestBefore, bestCost, bestTour);
        } else if bestCost != old(bestCost) {
          HeldByKept(built, round, bestCost, bestTour);
        }
        built := built + [round];
        if bestCost != bestBefore && bestBefore != old(bestCost) {
          CheaperTransitive(bestCost, bestBefore, old(bestCost));
        }
      }
    }

    /** One iteration of run: construct_tours with the picks of round `r`,
        update_pheromones, and every ant reset to `start(r + 1, a)`.
        `round[a]` is what ant `a` held after construct_tours. */
    method Iteration(ants: seq<Ant>, r: nat, start: (nat, nat) -> nat, choose: (nat, nat, nat, nat) -> nat,
                     factor: real, amountFor: real -> real) returns (ghost round: seq<AntView>)
      requires Valid() && OffEdgesClear()
      requires Distinct(ants)
      requires forall k :: 0 <= k < |ants| ==> ants[k].Valid() && ants[k].n == n && ants[k].StartedAt(start(r, k))
      requires 0 < |ants| ==> forall r, a: nat :: start(r, a) < n
      requires forall r, s, a, m: nat :: 0 < m ==> choose(r, s, a, m) < m
      modifies ants, pheromones, this`bestTour, this`bestCost
      ensures Valid() && OffEdgesClear()
      ensures forall k :: 0 <= k < |ants| ==> ants[k].Valid() && ants[k].StartedAt(start(r + 1, k))
      ensures |round| == |ants|
      ensures forall a :: 0 <= a < |ants| ==> Built(g, n, round[a], start(r, a)) && !Cheaper(round[a].cost, bestCost)
      ensures bestCost == old(bestCost) || Cheaper(bestCost, old(bestCost))
      ensures bestCost == old(bestCost) ==> bestTour == old(bestTour)
      ensures bestCost == old(bestCost) || exists a :: 0 <= a < |ants| && bestCost == round[a].cost && bestTour == round[a].tour
      ensures bestCost != old(bestCost) ==>
                exists a :: 0 <= a < |ants| && bestCost == round[a].cost && bestTour == round[a].tour
                            && forall j :: 0 <= j < a ==> Cheaper(bestCost, round[j].cost)
      ensures bestCost != old(bestCost) ==> forall v: nat :: v < n ==> v in bestTour
    {
      ConstructTours(ants, (s, a, m) => choose(r, s, a, m));
      round := RecordRound(ants, r, start);
      UpdatePheromones(ants, factor, amountFor);
      ResetAnts(ants, a => start(r + 1, a));
    }

    /** The state every ant holds after construct_tours, as values. */
    ghost method RecordRound(ants: seq<Ant>, r: nat, start: (nat, nat) -> nat) returns (round: seq<AntView>)
      requires Valid()
      requires forall k :: 0 <= k < |ants| ==> ants[k].Valid() && ants[k].n == n && Priced(ants[k], g)
      requires forall k :: 0 <= k < |ants| ==> 1 <= |ants[k].tour| && ants[k].tour[0] == start(r, k)
      requires forall k :: 0 <= k < |ants| ==> ants[k].Valid() && (|ants[k].tour| == n + 1 || Stuck(g, ants[k].n, ants[k].View()))
      ensures |round| == |ants|
      ensures forall k :: 0 <= k < |ants| ==> round[k] == ants[k].View() && Built(g, n, round[k], start(r, k))
    {
      round := seq(|ants|, k requires 0 <= k < |ants| reads ants => ants[k].View());
    }

    /** The ant-creation loop of run: ant `a` is a new ant placed at
        `start(a)`. */
    method PlaceAnts(numAnts: nat, start: nat -> nat) returns (ants: seq<Ant>)
      requires 0 < numAnts ==> forall a: nat :: start(a) < n
      ensures |ants| == numAnts && Distinct(ants)
      ensures forall k :: 0 <= k < |ants| ==> fresh(ants[k]) && ants[k].n == n && ants[k].StartedAt(start(k)) && ants[k].Valid()
    {
      ants := [];
      for a := 0 to numAnts
        invariant |ants| == a && Distinct(ants)
        invariant forall k :: 0 <= k < a ==> fresh(ants[k]) && ants[k].n == n && ants[k].StartedAt(start(k)) && ants[k].Valid()
      {
        var ant := new Ant(n, start(a));
        ants := ants + [ant];
      }
    }

    /** The reset loop of run: ant `a` is placed afresh at `start(a)`. */
    method ResetAnts(ants: seq<Ant>, start: nat -> nat)
      requires Distinct(ants) && forall k :: 0 <= k < |ants| ==> ants[k].n == n
      requires 0 < |ants| ==> forall a: nat :: start(a) < n
      modifies ants
      ensures forall k :: 0 <= k < |ants| ==> ants[k].StartedAt(start(k)) && ants[k].Valid()
    {
      for k := 0 to |ants|
        invariant forall j :: 0 <= j < k ==> ants[j].StartedAt(start(j)) && ants[j].Valid()
      {
        ants[k].Reset(start(k));
      }
    }
  }
}