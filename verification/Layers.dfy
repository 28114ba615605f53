/** The required-component layers of blocklet/meta: a breadth-first expansion of the
    required dependencies of one component, cut off after `deep` waves, then de-duplicated
    from the deepest wave outwards. */
module Layers {

  import opened Common

  datatype Dependency = Dependency(did: Did, required: bool)

  datatype Child = Child(did: Did, dependencies: seq<Dependency>)

  /** The components and the optional caller's filter (the constant-true function when absent). */
  datatype Graph = Graph(children: seq<Child>, filter: Child -> bool)

  // ---------------------------------------------------------------- edges

  /** `children.find`: the first component with the DID. */
  function FindFirst(children: seq<Child>, did: Did): Option<Child> {
    if children == [] then None
    else if children[0].did == did then Some(children[0])
    else FindFirst(children[1..], did)
  }

  /** `childrenMap`: a later component overwrites an earlier one with the same DID. */
  function FindLast(children: seq<Child>, did: Did): Option<Child> {
    if children == [] then None
    else if children[|children| - 1].did == did then Some(children[|children| - 1])
    else FindLast(children[..|children| - 1], did)
  }

  predicate Accepts(g: Graph, v: Dependency) {
    match FindLast(g.children, v.did)
    case None => false
    case Some(child) => v.required && g.filter(child)
  }

  function AcceptedDids(g: Graph, dependencies: seq<Dependency>): seq<Did> {
    if dependencies == [] then []
    else (if Accepts(g, dependencies[0]) then [dependencies[0].did] else [])
         + AcceptedDids(g, dependencies[1..])
  }

  /** The present, required and filter-passing dependencies of a DID, in declaration order. */
  function Required(g: Graph, did: Did): seq<Did> {
    match FindFirst(g.children, did)
    case None => []
    case Some(child) => AcceptedDids(g, child.dependencies)
  }

  /** The edges as a function value; the theory below holds for any such function. */
  type Edges = Did -> seq<Did>

  function EdgesOf(g: Graph): Edges {
    (did: Did) => Required(g, did)
  }

  ghost function Successors(next: Edges, from: set<Did>): set<Did> {
    set u, v | u in from && v in next(u) :: v
  }

  // ---------------------------------------------------------------- reachability

  /** A walk lists every DID it passes, both ends included. */
  ghost predicate Walk(next: Edges, walk: seq<Did>) {
    && walk != []
    && forall i :: 0 <= i < |walk| - 1 ==> walk[i + 1] in next(walk[i])
  }

  ghost predicate WalkBetween(next: Edges, from: Did, walk: seq<Did>, to: Did) {
    Walk(next, walk) && walk[0] == from && walk[|walk| - 1] == to
  }

  /** `to` is at the end of a walk of exactly `edges` edges. */
  ghost predicate Reaches(next: Edges, from: Did, edges: nat, to: Did) {
    exists walk :: WalkBetween(next, from, walk, to) && |walk| == edges + 1
  }

  /** Everything within `edges` edges of the target. */
  ghost function Ball(next: Edges, target: Did, edges: nat): set<Did> {
    if edges == 0 then {target}
    else Ball(next, target, edges - 1) + Successors(next, Ball(next, target, edges - 1))
  }

  /** Everything whose shortest walk from the target has exactly `edges` edges. */
  ghost function Sphere(next: Edges, target: Did, edges: nat): set<Did> {
    if edges == 0 then {target} else Ball(next, target, edges) - Ball(next, target, edges - 1)
  }

  lemma {:induction false} BallIsReachable(next: Edges, target: Did, edges: nat, v: Did)
    ensures v in Ball(next, target, edges) <==> exists k :: 0 <= k <= edges && Reaches(next, target, k, v)
  {
    if v in Ball(next, target, edges) {
      var k := WalkFromBall(next, target, edges, v);
      assert Reaches(next, target, k, v);
    }
    if k :| 0 <= k <= edges && Reaches(next, target, k, v) {
      var walk :| WalkBetween(next, target, walk, v) && |walk| == k + 1;
      WalkStaysInBall(next, target, walk, k);
      BallGrows(next, target, k, edges);
    }
  }

  lemma {:induction false} BallGrows(next: Edges, target: Did, k: nat, n: nat)
    requires k <= n
    ensures Ball(next, target, k) <= Ball(next, target, n)
    decreases n
  {
    if k < n { BallGrows(next, target, k, n - 1); }
  }

  lemma {:induction false} WalkFromBall(next: Edges, target: Did, edges: nat, v: Did) returns (k: nat)
    requires v in Ball(next, target, edges)
    ensures k <= edges && Reaches(next, target, k, v)
    decreases edges
  {
    if edges == 0 {
      assert WalkBetween(next, target, [target], target);
      k := 0;
    } else if v in Ball(next, target, edges - 1) {
      k := WalkFromBall(next, target, edges - 1, v);
    } else {
      var u :| u in Ball(next, target, edges - 1) && v in next(u);
      var j := WalkFromBall(next, target, edges - 1, u);
      ReachesExtends(next, target, j, u, v);
      k := j + 1;
    }
  }

  lemma ReachesExtends(next: Edges, target: Did, k: nat, u: Did, v: Did)
    requires Reaches(next, target, k, u) && v in next(u)
    ensures Reaches(next, target, k + 1, v)
  {
    var walk :| WalkBetween(next, target, walk, u) && |walk| == k + 1;
    assert WalkBetween(next, target, walk + [v], v);
  }

  /** A DID at distance `edges` is at the end of a walk of exactly that length. */
  lemma WalkFromSphere(next: Edges, target: Did, edges: nat, v: Did)
    requires v in Sphere(next, target, edges)
    ensures Reaches(next, target, edges, v)
  {
    var k := WalkFromBall(next, target, edges, v);
    if k < edges {
      BallIsReachable(next, target, edges - 1, v);
    }
  }

  lemma {:induction false} WalkStaysInBall(next: Edges, target: Did, walk: seq<Did>, k: nat)
    requires Walk(next, walk) && walk[0] == target && k < |walk|
    ensures walk[k] in Ball(next, target, k)
  {
    if k > 0 {
      WalkStaysInBall(next, target, walk, k - 1);
      assert walk[(k - 1) + 1] in next(walk[k - 1]);
    }
  }

  // ---------------------------------------------------------------- waves

  /** One pass of the expansion over a wave, given the DIDs used up before it. */
  function Expand(next: Edges, wave: seq<Did>, used: set<Did>): seq<Did> {
    if wave == [] then []
    else (if wave[0] in used then [] else next(wave[0])) + Expand(next, wave[1..], used + {wave[0]})
  }

  /** Wave k holds the DIDs met by following k edges; wave 0 is the target itself. */
  function Wave(next: Edges, target: Did, k: nat): seq<Did> {
    if k == 0 then [target] else Expand(next, Wave(next, target, k - 1), UsedBefore(next, target, k - 1))
  }

  /** The DIDs expanded before wave k is. */
  function UsedBefore(next: Edges, target: Did, k: nat): set<Did> {
    if k == 0 then {} else UsedBefore(next, target, k - 1) + Elements(Wave(next, target, k - 1))
  }

  /** The waves n, ..., 1, deepest first. */
  function Waves(next: Edges, target: Did, n: nat): seq<seq<Did>> {
    if n == 0 then [] else [Wave(next, target, n)] + Waves(next, target, n - 1)
  }

  lemma {:induction false} ExpandIsSuccessors(next: Edges, wave: seq<Did>, used: set<Did>)
    ensures Elements(Expand(next, wave, used)) == Successors(next, Elements(wave) - used)
  {
    if wave != [] {
      var w := wave[0];
      ExpandIsSuccessors(next, wave[1..], used + {w});
      assert wave == [w] + wave[1..];
      assert Elements(wave) == {w} + Elements(wave[1..]);
      var first := if w in used then [] else next(w);
      var rest := Expand(next, wave[1..], used + {w});
      assert Elements(first + rest) == Elements(first) + Elements(rest);
      assert Elements(wave) - used ==
             (if w in used then {} else {w}) + (Elements(wave[1..]) - (used + {w}));
    }
  }

  /** Expanding each DID only the first time it is met loses nothing: wave k + 1 holds exactly
      the successors of the DIDs at distance k, and after it the whole ball has been used. */
  lemma {:induction false} WaveIsSphere(next: Edges, target: Did, k: nat)
    ensures Elements(Wave(next, target, k + 1)) == Successors(next, Sphere(next, target, k))
    ensures UsedBefore(next, target, k + 1) == Ball(next, target, k)
  {
    ExpandIsSuccessors(next, Wave(next, target, k), UsedBefore(next, target, k));
    if k > 0 {
      WaveIsSphere(next, target, k - 1);
      BallSplit(next, target, k);
    } else {
      assert Wave(next, target, 0) == [target] && Elements([target]) == {target};
    }
  }

  lemma {:induction false} BallSplit(next: Edges, target: Did, k: nat)
    requires k > 0
    ensures Ball(next, target, k) == Ball(next, target, k - 1) + Successors(next, Sphere(next, target, k - 1))
  {
    if k > 1 {
      BallGrows(next, target, k - 2, k - 1);
      assert Ball(next, target, k - 1) == Ball(next, target, k - 2) + Sphere(next, target, k - 1);
      assert Successors(next, Ball(next, target, k - 2)) <= Ball(next, target, k - 1);
    }
  }

  // ---------------------------------------------------------------- de-duplication

  function DedupeRow(row: seq<Did>, seen: set<Did>): seq<Did> {
    if row == [] then []
    else if row[0] in seen then DedupeRow(row[1..], seen)
    else [row[0]] + DedupeRow(row[1..], seen + {row[0]})
  }

  function Dedupe(queue: seq<seq<Did>>, seen: set<Did>): seq<seq<Did>> {
    if queue == [] then []
    else [DedupeRow(queue[0], seen)] + Dedupe(queue[1..], seen + Elements(queue[0]))
  }

  function NonEmpty(queue: seq<seq<Did>>): seq<seq<Did>> {
    if queue == [] then []
    else (if queue[0] == [] then [] else [queue[0]]) + NonEmpty(queue[1..])
  }

  /** The layers the function returns for n waves. */
  function LayersOf(next: Edges, target: Did, n: nat): seq<seq<Did>> {
    NonEmpty(Dedupe(Waves(next, target, n), {}))
  }

  ghost predicate Listed(layers: seq<seq<Did>>, v: Did) {
    exists i :: 0 <= i < |layers| && v in layers[i]
  }

  lemma {:induction false} DedupeRowKeeps(row: seq<Did>, seen: set<Did>)
    ensures Elements(DedupeRow(row, seen)) == Elements(row) - seen
    ensures Distinct(DedupeRow(row, seen))
  {
    if row != [] {
      assert row == [row[0]] + row[1..];
      DedupeRowKeeps(row[1..], seen);
      DedupeRowKeeps(row[1..], seen + {row[0]});
      if row[0] !in seen {
        var rest := DedupeRow(row[1..], seen + {row[0]});
        assert row[0] !in Elements(rest);
        assert Elements([row[0]] + rest) == {row[0]} + Elements(rest);
      }
    }
  }

  // ---------------------------------------------------------------- which layer a DID lands in

  /** How many rows are left from the first row that holds v; 0 when no row does. */
  ghost function RowsLeft(queue: seq<seq<Did>>, v: Did): nat {
    if queue == [] then 0
    else if v in queue[0] then |queue|
    else RowsLeft(queue[1..], v)
  }

  ghost predicate ListedExactly(out: seq<seq<Did>>, queue: seq<seq<Did>>, seen: set<Did>) {
    forall v :: Listed(out, v) <==> v !in seen && RowsLeft(queue, v) > 0
  }

  ghost predicate OrderedByRows(out: seq<seq<Did>>, queue: seq<seq<Did>>) {
    forall a, b, v, w :: 0 <= a < |out| && 0 <= b < |out| && v in out[a] && w in out[b]
      ==> (a < b <==> RowsLeft(queue, v) > RowsLeft(queue, w))
  }

  ghost predicate CleanRows(out: seq<seq<Did>>) {
    forall a :: 0 <= a < |out| ==> out[a] != [] && Distinct(out[a])
  }

  lemma {:induction false} DedupedRows(queue: seq<seq<Did>>, seen: set<Did>)
    ensures var out := NonEmpty(Dedupe(queue, seen));
            ListedExactly(out, queue, seen) && OrderedByRows(out, queue) && CleanRows(out)
  {
    if queue != [] {
      DedupedRows(queue[1..], seen + Elements(queue[0]));
      DedupeRowKeeps(queue[0], seen);
      var row := DedupeRow(queue[0], seen);
      var rest := NonEmpty(Dedupe(queue[1..], seen + Elements(queue[0])));
      assert Dedupe(queue, seen)[1..] == Dedupe(queue[1..], seen + Elements(queue[0]));
      assert NonEmpty(Dedupe(queue, seen)) == (if row == [] then [] else [row]) + rest;
      RowOnTop(row, rest, queue, seen);
    }
  }

  lemma RowsLeftTop(queue: seq<seq<Did>>, seen: set<Did>)
    requires queue != []
    ensures forall v :: RowsLeft(queue, v) == if v in Elements(queue[0]) then |queue| else RowsLeft(queue[1..], v)
  {
  }

  /** Putting one de-duplicated row in front keeps the three facts. */
  lemma RowOnTop(row: seq<Did>, rest: seq<seq<Did>>, queue: seq<seq<Did>>, seen: set<Did>)
    requires queue != []
    requires Elements(row) == Elements(queue[0]) - seen && Distinct(row)
    requires ListedExactly(rest, queue[1..], seen + Elements(queue[0]))
    requires OrderedByRows(rest, queue[1..]) && CleanRows(rest)
    ensures var out := (if row == [] then [] else [row]) + rest;
            ListedExactly(out, queue, seen) && OrderedByRows(out, queue) && CleanRows(out)
  {
    hide RowsLeft, Listed;
    RowsLeftTop(queue, seen);
    var out := (if row == [] then [] else [row]) + rest;
    forall v
      ensures Listed(out, v) <==> v !in seen && RowsLeft(queue, v) > 0
    {
      ListedOnTop(row, rest, v);
      assert v in row <==> v in Elements(row);
    }
    forall a, b, v, w | 0 <= a < |out| && 0 <= b < |out| && v in out[a] && w in out[b]
      ensures a < b <==> RowsLeft(queue, v) > RowsLeft(queue, w)
    {
      RankOnTop(row, rest, queue, seen, a, v);
      RankOnTop(row, rest, queue, seen, b, w);
    }
  }

  lemma ListedOnTop(row: seq<Did>, rest: seq<seq<Did>>, v: Did)
    ensures Listed((if row == [] then [] else [row]) + rest, v) <==> v in row || Listed(rest, v)
  {
    var out := (if row == [] then [] else [row]) + rest;
    var shift := |out| - |rest|;
    if i :| 0 <= i < |rest| && v in rest[i] { assert v in out[i + shift]; }
    if i :| 0 <= i < |out| && v in out[i] { assert i >= shift ==> v in rest[i - shift]; }
    if v in row { assert v in out[0]; }
  }

  lemma RankOnTop(row: seq<Did>, rest: seq<seq<Did>>, queue: seq<seq<Did>>, seen: set<Did>, a: nat, v: Did)
    requires queue != []
    requires Elements(row) == Elements(queue[0]) - seen
    requires ListedExactly(rest, queue[1..], seen + Elements(queue[0]))
    requires var out := (if row == [] then [] else [row]) + rest; a < |out| && v in out[a]
    ensures var shift := if row == [] then 0 else 1;
            if a < shift then RowsLeft(queue, v) == |queue|
            else && v in rest[a - shift]
                 && RowsLeft(queue, v) == RowsLeft(queue[1..], v) < |queue|
  {
    RowsLeftBound(queue[1..], v);
    var shift := if row == [] then 0 else 1;
    if a < shift {
      assert v in Elements(row);
    } else {
      assert v in rest[a - shift];
      assert Listed(rest, v);
    }
  }

  lemma {:induction false} RowsLeftBound(queue: seq<seq<Did>>, v: Did)
    ensures RowsLeft(queue, v) <= |queue|
  {
    if queue != [] { RowsLeftBound(queue[1..], v); }
  }

  /** Whether some DID at a distance from the target requires v. */
  ghost function DependentsAt(next: Edges, target: Did, v: Did): nat -> bool {
    (distance: nat) => v in Successors(next, Sphere(next, target, distance))
  }

  /** One more than the last number below n with the property; 0 when there is none. */
  ghost function LastBelow(n: nat, holds: nat -> bool): (d: nat)
    ensures d <= n
    ensures d > 0 ==> holds(d - 1)
    ensures forall k: nat :: d <= k < n ==> !holds(k)
  {
    if n == 0 then 0 else if holds(n - 1) then n else LastBelow(n - 1, holds)
  }

  /** One more than the distance of the farthest dependent of v among the DIDs closer than n
      edges to the target; 0 when v has no such dependent. */
  ghost function FarthestDependent(next: Edges, target: Did, n: nat, v: Did): nat {
    LastBelow(n, DependentsAt(next, target, v))
  }

  lemma HasDependent(next: Edges, target: Did, distance: nat, v: Did)
    ensures DependentsAt(next, target, v)(distance) <==> v in Successors(next, Sphere(next, target, distance))
  {
  }

  lemma RowsLeftCons(row: seq<Did>, queue: seq<seq<Did>>, v: Did)
    ensures RowsLeft([row] + queue, v) == if v in row then |queue| + 1 else RowsLeft(queue, v)
  {
    assert ([row] + queue)[1..] == queue;
  }

  lemma InElements<T>(s: seq<T>, x: T)
    ensures x in s <==> x in Elements(s)
  {
  }

  lemma InWave(next: Edges, target: Did, k: nat, v: Did)
    ensures v in Wave(next, target, k + 1) <==> v in Successors(next, Sphere(next, target, k))
  {
    WaveIsSphere(next, target, k);
    InElements(Wave(next, target, k + 1), v);
  }

  lemma RowsLeftOfNone(v: Did)
    ensures RowsLeft([], v) == 0
  {
  }

  lemma {:induction false} RowsLeftInWaves(next: Edges, target: Did, n: nat, v: Did)
    ensures |Waves(next, target, n)| == n
    ensures RowsLeft(Waves(next, target, n), v) == FarthestDependent(next, target, n, v)
  {
    hide DependentsAt, Sphere, Successors, Wave, RowsLeft;
    if n == 0 {
      RowsLeftOfNone(v);
    } else {
      RowsLeftInWaves(next, target, n - 1, v);
      HasDependent(next, target, n - 1, v);
      RowsLeftCons(Wave(next, target, n), Waves(next, target, n - 1), v);
      InWave(next, target, n - 1, v);
    }
  }

  /** The exact placement rule, for every graph, cyclic or not: the layers list a DID exactly
      when it has a dependent closer than n edges to the target, no layer is empty and none
      repeats a DID, and one DID lies in an earlier layer than another exactly when its farthest
      dependent is farther from the target. In particular no DID lies in two layers. */
  lemma LayerPlacement(next: Edges, target: Did, n: nat)
    ensures var out := LayersOf(next, target, n);
            && (forall v :: Listed(out, v) <==> FarthestDependent(next, target, n, v) > 0)
            && CleanRows(out)
            && (forall a, b, v, w :: 0 <= a < |out| && 0 <= b < |out| && v in out[a] && w in out[b]
                 ==> (a < b <==> FarthestDependent(next, target, n, v) > FarthestDependent(next, target, n, w)))
  {
    var queue := Waves(next, target, n);
    DedupedRows(queue, {});
    forall v
      ensures RowsLeft(queue, v) == FarthestDependent(next, target, n, v)
    {
      RowsLeftInWaves(next, target, n, v);
    }
  }

  /** Every DID at the end of a walk of 1 to n edges is listed, and nothing else. */
  lemma LayersAreReachable(next: Edges, target: Did, n: nat, v: Did)
    ensures Listed(LayersOf(next, target, n), v) <==> exists k :: 1 <= k <= n && Reaches(next, target, k, v)
  {
    hide Ball, Sphere, LayersOf, DependentsAt, Listed, CleanRows;
    LayerPlacement(next, target, n);
    var d := FarthestDependent(next, target, n, v);
    if d > 0 {
      HasDependent(next, target, d - 1, v);
      var u :| u in Sphere(next, target, d - 1) && v in next(u);
      WalkFromSphere(next, target, d - 1, u);
      ReachesExtends(next, target, d - 1, u, v);
    }
    if k :| 1 <= k <= n && Reaches(next, target, k, v) {
      var walk :| WalkBetween(next, target, walk, v) && |walk| == k + 1;
      WalkStaysInBall(next, target, walk, k - 1);
      var u := walk[k - 1];
      assert v in next(u) by { assert walk[(k - 1) + 1] in next(walk[k - 1]); }
      var j := SphereOf(next, target, k - 1, u);
      HasDependent(next, target, j, v);
    }
  }

  // ---------------------------------------------------------------- what the edges of a graph are

  ghost predicate FirstWith(children: seq<Child>, i: nat, did: Did) {
    i < |children| && children[i].did == did && forall j :: 0 <= j < i ==> children[j].did != did
  }

  ghost predicate LastWith(children: seq<Child>, i: nat, did: Did) {
    i < |children| && children[i].did == did && forall j :: i < j < |children| ==> children[j].did != did
  }

  /** The dependency is required, and the last component with its DID passes the filter. */
  ghost predicate Wanted(g: Graph, v: Dependency) {
    v.required && exists j: nat :: LastWith(g.children, j, v.did) && g.filter(g.children[j])
  }

  ghost predicate WantedAt(g: Graph, dependencies: seq<Dependency>, k: nat, v: Did) {
    k < |dependencies| && dependencies[k].did == v && Wanted(g, dependencies[k])
  }

  ghost predicate WantsFrom(g: Graph, i: nat, u: Did, v: Did) {
    FirstWith(g.children, i, u) && exists k: nat :: WantedAt(g, g.children[i].dependencies, k, v)
  }

  /** The first component with DID u has a wanted dependency on v. */
  ghost predicate DependsOn(g: Graph, u: Did, v: Did) {
    exists i: nat :: WantsFrom(g, i, u, v)
  }

  /** The places of the wanted ones among the first n dependencies. */
  ghost function WantedBefore(g: Graph, dependencies: seq<Dependency>, n: nat): set<nat>
    requires n <= |dependencies|
  {
    set k: nat | k < n && Wanted(g, dependencies[k])
  }

  /** The DIDs of the wanted dependencies and no others, each at its rank among them. */
  ghost predicate WantedInOrder(g: Graph, dependencies: seq<Dependency>, dids: seq<Did>) {
    && |dids| == |WantedBefore(g, dependencies, |dependencies|)|
    && forall k :: 0 <= k < |dependencies| && Wanted(g, dependencies[k]) ==>
         var rank := |WantedBefore(g, dependencies, k)|; rank < |dids| && dids[rank] == dependencies[k].did
  }

  lemma {:induction false} FindFirstIs(children: seq<Child>, did: Did)
    ensures FindFirst(children, did).None? ==> forall i: nat :: !FirstWith(children, i, did)
    ensures FindFirst(children, did).Some? ==>
              exists i: nat :: FirstWith(children, i, did) && children[i] == FindFirst(children, did).value
  {
    if children != [] {
      if children[0].did == did {
        assert FirstWith(children, 0, did);
      } else {
        FindFirstIs(children[1..], did);
        if FindFirst(children, did).Some? {
          var i: nat :| FirstWith(children[1..], i, did) && children[1..][i] == FindFirst(children, did).value;
          assert FirstWith(children, i + 1, did);
        }
        if i: nat :| FirstWith(children, i, did) { assert FirstWith(children[1..], i - 1, did); }
      }
    }
  }

  lemma {:induction false} FindLastIs(children: seq<Child>, did: Did)
    ensures FindLast(children, did).None? ==> forall i: nat :: !LastWith(children, i, did)
    ensures FindLast(children, did).Some? ==>
              exists i: nat :: LastWith(children, i, did) && children[i] == FindLast(children, did).value
  {
    if children != [] {
      var n := |children| - 1;
      if children[n].did == did {
        assert LastWith(children, n, did);
      } else {
        FindLastIs(children[..n], did);
        if FindLast(children, did).Some? {
          var i: nat :| LastWith(children[..n], i, did) && children[..n][i] == FindLast(children, did).value;
          assert LastWith(children, i, did);
        }
        if i: nat :| LastWith(children, i, did) { assert LastWith(children[..n], i, did); }
      }
    }
  }

  lemma AcceptsWanted(g: Graph, v: Dependency)
    ensures Accepts(g, v) <==> Wanted(g, v)
  {
    FindLastIs(g.children, v.did);
    assert forall i: nat, j: nat :: LastWith(g.children, i, v.did) && LastWith(g.children, j, v.did) ==> i == j;
  }

  lemma AcceptedSnoc(g: Graph, dependencies: seq<Dependency>, v: Dependency)
    ensures AcceptedDids(g, dependencies + [v])
         == AcceptedDids(g, dependencies) + if Accepts(g, v) then [v.did] else []
    decreases |dependencies|
  {
    hide Accepts;
    var all := dependencies + [v];
    if dependencies == [] {
      assert all[0] == v && all[1..] == [];
    } else {
      assert all[0] == dependencies[0] && all[1..] == dependencies[1..] + [v];
      AcceptedSnoc(g, dependencies[1..], v);
    }
  }

  lemma WantedOneMore(g: Graph, dependencies: seq<Dependency>, v: Dependency)
    ensures var n, all := |dependencies|, dependencies + [v];
            && (forall k :: 0 <= k <= n ==> WantedBefore(g, all, k) == WantedBefore(g, dependencies, k))
            && WantedBefore(g, all, n + 1) == WantedBefore(g, dependencies, n) + if Wanted(g, v) then {n} else {}
  {
    hide Wanted;
    var n, all := |dependencies|, dependencies + [v];
    assert forall k :: 0 <= k < n ==> all[k] == dependencies[k];
    assert all[n] == v;
  }

  lemma {:induction false} AcceptedInOrder(g: Graph, dependencies: seq<Dependency>)
    ensures WantedInOrder(g, dependencies, AcceptedDids(g, dependencies))
    decreases |dependencies|
  {
    hide Wanted, Accepts, WantedInOrder, AcceptedDids;
    if dependencies == [] {
      NoneWanted(g);
    } else {
      var n := |dependencies| - 1;
      var before, v := dependencies[..n], dependencies[n];
      assert dependencies == before + [v];
      AcceptedInOrder(g, before);
      AcceptedSnoc(g, before, v);
      AcceptsWanted(g, v);
      InOrderSnoc(g, before, v, AcceptedDids(g, before));
    }
  }

  lemma NoneWanted(g: Graph)
    ensures WantedInOrder(g, [], AcceptedDids(g, []))
  {
  }

  lemma InOrderSnoc(g: Graph, before: seq<Dependency>, v: Dependency, dids: seq<Did>)
    requires WantedInOrder(g, before, dids)
    ensures WantedInOrder(g, before + [v], dids + if Wanted(g, v) then [v.did] else [])
  {
    hide Wanted, WantedBefore;
    var n, all := |before|, before + [v];
    WantedOneMore(g, before, v);
    NotYet(g, before);
    forall k | 0 <= k < n && Wanted(g, all[k])
      ensures |WantedBefore(g, all, k)| < |dids| && dids[|WantedBefore(g, all, k)|] == all[k].did
    {
      assert all[k] == before[k];
    }
    assert all[n] == v && WantedBefore(g, all, n) == WantedBefore(g, before, n);
  }

  lemma NotYet(g: Graph, dependencies: seq<Dependency>)
    ensures |dependencies| !in WantedBefore(g, dependencies, |dependencies|)
  {
  }

  lemma {:induction false} AcceptedAre(g: Graph, dependencies: seq<Dependency>, v: Did)
    ensures v in AcceptedDids(g, dependencies) <==> exists k: nat :: WantedAt(g, dependencies, k, v)
  {
    hide Wanted, Accepts;
    if dependencies != [] {
      AcceptsWanted(g, dependencies[0]);
      AcceptedAre(g, dependencies[1..], v);
      if k: nat :| WantedAt(g, dependencies[1..], k, v) { assert WantedAt(g, dependencies, k + 1, v); }
      if k: nat :| WantedAt(g, dependencies, k, v) {
        if k > 0 { assert WantedAt(g, dependencies[1..], k - 1, v); }
      }
      if Accepts(g, dependencies[0]) && dependencies[0].did == v { assert WantedAt(g, dependencies, 0, v); }
    }
  }

  /** There is an edge from u to v exactly when the first component with DID u has a required
      dependency on v and the last component with DID v is there and passes the filter. The edges of
      u come in the order of its declaration, once for each such dependency. */
  lemma EdgesAreDependencies(g: Graph, u: Did)
    ensures forall v :: v in EdgesOf(g)(u) <==> DependsOn(g, u, v)
    ensures forall i: nat :: FirstWith(g.children, i, u) ==> WantedInOrder(g, g.children[i].dependencies, EdgesOf(g)(u))
  {
    hide WantedInOrder, Wanted, AcceptedDids;
    FindFirstIs(g.children, u);
    if FindFirst(g.children, u).Some? {
      var i: nat :| FirstWith(g.children, i, u) && g.children[i] == FindFirst(g.children, u).value;
      assert forall k: nat :: FirstWith(g.children, k, u) ==> k == i;
      AcceptedInOrder(g, g.children[i].dependencies);
      forall v
        ensures v in EdgesOf(g)(u) <==> WantsFrom(g, i, u, v)
      {
        AcceptedAre(g, g.children[i].dependencies, v);
      }
    }
  }

  /** From the target to v along dependencies, with one step at least and n at most. */
  ghost predicate DependencyWalk(g: Graph, target: Did, n: nat, walk: seq<Did>, v: Did) {
    && 2 <= |walk| <= n + 1 && walk[0] == target && walk[|walk| - 1] == v
    && forall i :: 0 <= i < |walk| - 1 ==> DependsOn(g, walk[i], walk[i + 1])
  }

  /** The target needs v, directly or through others. */
  ghost predicate Needed(g: Graph, target: Did, n: nat, v: Did) {
    exists walk :: DependencyWalk(g, target, n, walk, v)
  }

  /** Exactly what the target needs, directly or through others, is listed. */
  lemma LayersListDependencies(g: Graph, target: Did, n: nat, v: Did)
    ensures Listed(LayersOf(EdgesOf(g), target, n), v) <==> Needed(g, target, n, v)
  {
    hide Listed, LayersOf, EdgesOf, DependsOn;
    var next := EdgesOf(g);
    LayersAreReachable(next, target, n, v);
    forall u
      ensures forall w :: w in next(u) <==> DependsOn(g, u, w)
    {
      EdgesAreDependencies(g, u);
    }
    if k :| 1 <= k <= n && Reaches(next, target, k, v) {
      var walk :| WalkBetween(next, target, walk, v) && |walk| == k + 1;
      assert DependencyWalk(g, target, n, walk, v);
    }
    if walk :| DependencyWalk(g, target, n, walk, v) {
      assert WalkBetween(next, target, walk, v);
      assert Reaches(next, target, |walk| - 1, v);
    }
  }

  lemma {:induction false} SphereOf(next: Edges, target: Did, edges: nat, u: Did) returns (j: nat)
    requires u in Ball(next, target, edges)
    ensures j <= edges && u in Sphere(next, target, j)
    decreases edges
  {
    if edges > 0 && u in Ball(next, target, edges - 1) {
      j := SphereOf(next, target, edges - 1, u);
    } else {
      j := edges;
    }
  }

  /** When all walks to v have the same length, its farthest dependent is just before it. */
  lemma UniformDepth(next: Edges, target: Did, n: nat, v: Did, length: nat)
    requires forall k: nat :: Reaches(next, target, k, v) ==> k == length
    requires FarthestDependent(next, target, n, v) > 0
    ensures FarthestDependent(next, target, n, v) == length
    ensures v in Sphere(next, target, length)
  {
    hide DependentsAt, Sphere;
    var d := FarthestDependent(next, target, n, v);
    HasDependent(next, target, d - 1, v);
    var u :| u in Sphere(next, target, d - 1) && v in next(u);
    WalkFromSphere(next, target, d - 1, u);
    ReachesExtends(next, target, d - 1, u, v);
    BallIsReachable(next, target, d, v);
    var j := SphereOf(next, target, d, v);
    WalkFromSphere(next, target, j, v);
  }

  lemma DependentOfSphere(next: Edges, target: Did, n: nat, v: Did, length: nat, w: Did)
    requires length < n && v in Sphere(next, target, length) && w in next(v)
    ensures FarthestDependent(next, target, n, w) > length
  {
    hide DependentsAt;
    HasDependent(next, target, length, w);
  }

  /** When all walks from the target to v have the same length, a required dependency of v lies in a
      strictly earlier layer than v if and only if that length is shorter than n. */
  lemma UniformDependencyComesFirst(next: Edges, target: Did, n: nat, v: Did, length: nat, w: Did, a: nat, b: nat)
    requires forall k: nat :: Reaches(next, target, k, v) ==> k == length
    requires w in next(v)
    requires var out := LayersOf(next, target, n); a < |out| && b < |out| && w in out[a] && v in out[b]
    ensures a < b <==> length < n
  {
    hide LayersOf, FarthestDependent, Sphere, Reaches, CleanRows;
    LayerPlacement(next, target, n);
    assert Listed(LayersOf(next, target, n), v);
    UniformDepth(next, target, n, v, length);
    FarthestIsWithin(next, target, n, v);
    FarthestIsWithin(next, target, n, w);
    if length < n { DependentOfSphere(next, target, n, v, length, w); }
  }

  lemma FarthestIsWithin(next: Edges, target: Did, n: nat, v: Did)
    ensures FarthestDependent(next, target, n, v) <= n
  {
  }

  /** T requires V and W, and V requires W. */
  function Fork(): Edges {
    (did: Did) =>
      if did == Did("T") then [Did("V"), Did("W")] else if did == Did("V") then [Did("W")] else []
  }

  /** For instance, a length of exactly n is too long: all walks to V have one edge, and with one wave
      its dependency W lies in the same layer. */
  lemma LengthMustStayBelow(k: nat)
    ensures Reaches(Fork(), Did("T"), k, Did("V")) ==> k == 1
    ensures Did("W") in Fork()(Did("V")) && LayersOf(Fork(), Did("T"), 1) == [[Did("V"), Did("W")]]
  {
    var next, t, v, w := Fork(), Did("T"), Did("V"), Did("W");
    if walk :| WalkBetween(next, t, walk, v) && |walk| == k + 1 {
      if k >= 1 { assert walk[(k - 1) + 1] in next(walk[k - 1]); }
      if k >= 2 { assert walk[(k - 2) + 1] in next(walk[k - 2]); }
    }
    WaveOfOne(next, t);
    assert Waves(next, t, 1) == [[v, w]] + Waves(next, t, 0);
    assert [v, w][1..] == [w] && [w][1..] == [];
    assert DedupeRow([v, w], {}) == [v, w];
    assert Dedupe([[v, w]], {}) == [[v, w]] + Dedupe([], {} + Elements([v, w]));
  }

  lemma WaveOfOne(next: Edges, target: Did)
    ensures Wave(next, target, 1) == next(target)
  {
    assert Expand(next, [target], {}) == next(target) + [];
    assert Wave(next, target, 0) == [target];
  }

  // ---------------------------------------------------------------- the imperative code

  /** The `usedDid` set shared by the expansions. */
  class UsedDids {
    var used: set<Did>

    constructor ()
      ensures used == {}
    {
      used := {};
    }

    method RequiredDependents(g: Graph, did: Did) returns (dids: seq<Did>)
      modifies this
      ensures used == old(used) + {did}
      ensures dids == if did in old(used) then [] else EdgesOf(g)(did)
      ensures did !in old(used) ==> forall v :: v in dids <==> DependsOn(g, did, v)
    {
      EdgesAreDependencies(g, did);
      if did in used {
        return [];
      }
      used := used + {did};
      dids := Required(g, did);
    }

    method ExpandWave(g: Graph, wave: seq<Did>) returns (newDependents: seq<Did>)
      modifies this
      ensures newDependents == Expand(EdgesOf(g), wave, old(used))
      ensures used == old(used) + Elements(wave)
    {
      newDependents := [];
      for i := 0 to |wave|
        invariant newDependents == Expand(EdgesOf(g), wave[..i], old(used))
        invariant used == old(used) + Elements(wave[..i])
      {
        ExpandSnoc(EdgesOf(g), wave[..i], wave[i], old(used));
        assert wave[..i + 1] == wave[..i] + [wave[i]];
        var dependents := RequiredDependents(g, wave[i]);
        newDependents := newDependents + dependents;
      }
      assert wave[..|wave|] == wave;
    }

    /** One turn of the main loop: expands the newest wave and puts a non-empty result in front. */
    method GrowQueue(g: Graph, queue: seq<seq<Did>>, ghost target: Did, ghost k: nat) returns (grown: seq<seq<Did>>)
      requires k > 0 && |queue| >= 1 && QueueAfter(EdgesOf(g), target, k, queue, used)
      modifies this
      ensures |grown| >= 1 && QueueAfter(EdgesOf(g), target, k + 1, grown, used)
    {
      ghost var before := used;
      var newDependents := ExpandWave(g, queue[0]);
      QueueStep(EdgesOf(g), target, k, queue, before, newDependents, used);
      grown := if |newDependents| > 0 then [newDependents] + queue else queue;
    }

    /** The main loop: deep - 1 turns after the dependencies of the target itself. */
    method FillQueue(g: Graph, targetDid: Did, deep: int) returns (queue: seq<seq<Did>>)
      requires used == {}
      modifies this
      ensures QueueAfter(EdgesOf(g), targetDid, if deep < 1 then 1 else deep, queue, used)
    {
      hide QueueAfter;
      var requiredDependents := RequiredDependents(g, targetDid);
      queue := [requiredDependents];
      assert queue == [EdgesOf(g)(targetDid)] && used == {targetDid};
      WavesOfOne(EdgesOf(g), targetDid);
      var i := 0;
      while i < deep - 1
        invariant 0 <= i && (1 <= deep ==> i <= deep - 1) && (deep < 1 ==> i == 0)
        invariant |queue| >= 1 && QueueAfter(EdgesOf(g), targetDid, i + 1, queue, used)
      {
        queue := GrowQueue(g, queue, targetDid, i + 1);
        i := i + 1;
      }
    }
  }

  lemma ElementsHead(row: seq<Did>)
    requires row != []
    ensures Elements(row) == {row[0]} + Elements(row[1..])
  {
    assert row == [row[0]] + row[1..];
  }

  lemma {:induction false} ExpandSnoc(next: Edges, wave: seq<Did>, did: Did, used: set<Did>)
    ensures Expand(next, wave + [did], used) ==
            Expand(next, wave, used) + if did in used + Elements(wave) then [] else next(did)
  {
    if wave == [] {
      assert ([did])[1..] == [] && [] + [did] == [did];
    } else {
      TailConcat(wave, [did]);
      ExpandSnoc(next, wave[1..], did, used + {wave[0]});
      ElementsHead(wave);
      hide Elements;
      ConcatIsAssociative(if wave[0] in used then [] else next(wave[0]), Expand(next, wave[1..], used + {wave[0]}),
                          if did in used + Elements(wave) then [] else next(did));
    }
  }

  /** The inner loop of the de-duplication: splices out of one row what was used before it or
      earlier in it, walking the row while it shrinks. */
  method DedupeRowInPlace(input: seq<Did>, usedBefore: set<Did>) returns (row: seq<Did>, used: set<Did>)
    ensures row == DedupeRow(input, usedBefore)
    ensures used == usedBefore + Elements(input)
  {
    row, used := input, usedBefore;
    var j := 0;
    assert row[..0] + DedupeRow(row[0..], used) == DedupeRow(input, usedBefore) by { assert row[0..] == input; }
    assert row[0..] == input;
    while j < |row|
      invariant 0 <= j <= |row|
      invariant row[..j] + DedupeRow(row[j..], used) == DedupeRow(input, usedBefore)
      invariant used + Elements(row[j..]) == usedBefore + Elements(input)
      decreases |row| - j
    {
      if row[j] in used {
        SpliceStep(row, j, used);
        row := row[..j] + row[j + 1..];
      } else {
        KeepStep(row, j, used);
        used := used + {row[j]};
        j := j + 1;
      }
    }
    assert row[..j] == row && row[j..] == [];
  }

  lemma SpliceStep(row: seq<Did>, j: nat, used: set<Did>)
    requires j < |row| && row[j] in used
    ensures var row' := row[..j] + row[j + 1..];
            && row'[..j] + DedupeRow(row'[j..], used) == row[..j] + DedupeRow(row[j..], used)
            && used + Elements(row'[j..]) == used + Elements(row[j..])
  {
    var row' := row[..j] + row[j + 1..];
    assert row'[..j] == row[..j] && row'[j..] == row[j + 1..] == row[j..][1..];
    assert row[j..] == [row[j]] + row[j + 1..];
  }

  lemma KeepStep(row: seq<Did>, j: nat, used: set<Did>)
    requires j < |row| && row[j] !in used
    ensures row[..j + 1] + DedupeRow(row[j + 1..], used + {row[j]}) == row[..j] + DedupeRow(row[j..], used)
    ensures (used + {row[j]}) + Elements(row[j + 1..]) == used + Elements(row[j..])
  {
    assert row[j + 1..] == row[j..][1..];
    assert row[j..] == [row[j]] + row[j + 1..];
    assert row[..j + 1] == row[..j] + [row[j]];
  }

  lemma RowStep(was: seq<seq<Did>>, queue: seq<seq<Did>>, i: nat, row: seq<Did>, used: set<Did>)
    requires |was| == |queue| && i < |queue| && was[i..] == queue[i..]
    requires row == DedupeRow(queue[i], used)
    ensures was[i] == queue[i] && was[i := row][i + 1..] == queue[i + 1..]
    ensures was[i := row][..i + 1] + Dedupe(queue[i + 1..], used + Elements(queue[i]))
            == was[..i] + Dedupe(queue[i..], used)
  {
    hide DedupeRow, Elements;
    assert was[i] == was[i..][0] == queue[i..][0];
    assert was[i := row][i + 1..] == was[i..][1..] == queue[i..][1..] == queue[i + 1..];
    assert was[i := row][..i + 1] == was[..i] + [row];
    ConcatIsAssociative(was[..i], [row], Dedupe(queue[i + 1..], used + Elements(queue[i])));
  }

  method RemoveDuplicates(queue: seq<seq<Did>>) returns (result: seq<seq<Did>>)
    ensures result == Dedupe(queue, {})
  {
    result := queue;
    var used: set<Did> := {};
    var i := 0;
    assert result[..0] == [] && queue[0..] == queue;
    while i < |result|
      invariant |result| == |queue| && 0 <= i <= |queue|
      invariant result[i..] == queue[i..]
      invariant result[..i] + Dedupe(queue[i..], used) == Dedupe(queue, {})
    {
      hide Dedupe, DedupeRow, Elements;
      var row, usedAfter := DedupeRowInPlace(result[i], used);
      assert result[i] == result[i..][0] == queue[i..][0];
      RowStep(result, queue, i, row, used);
      result, used := result[i := row], usedAfter;
      i := i + 1;
    }
    assert result[..i] == result;
  }

  method GetRequiredComponentsLayers(g: Graph, targetDid: Did, deep: int := 9) returns (layers: seq<seq<Did>>)
    ensures layers == LayersOf(EdgesOf(g), targetDid, if deep < 1 then 1 else deep)
    ensures forall v :: Listed(layers, v) <==> Needed(g, targetDid, if deep < 1 then 1 else deep, v)
  {
    hide Needed, Listed;
    ghost var n := if deep < 1 then 1 else deep;
    forall v
      ensures Listed(LayersOf(EdgesOf(g), targetDid, n), v) <==> Needed(g, targetDid, n, v)
    {
      LayersListDependencies(g, targetDid, n, v);
    }
    if |g.children| == 0 {
      NoChildrenNoLayers(g, targetDid, if deep < 1 then 1 else deep);
      return [];
    }
    var usedDid := new UsedDids();
    var queue := usedDid.FillQueue(g, targetDid, deep);
    QueueGivesLayers(EdgesOf(g), targetDid, if deep < 1 then 1 else deep, queue, usedDid.used);
    var deduped := RemoveDuplicates(queue);
    layers := NonEmpty(deduped);
  }

  ghost predicate QueueAfter(next: Edges, target: Did, k: nat, queue: seq<seq<Did>>, used: set<Did>) {
    exists empty: nat :: QueueHolds(next, target, k, queue, empty, used)
  }

  /** What the queue holds after k waves: the waves themselves, except for `empty` empty ones
      that were never put on it. */
  ghost predicate QueueHolds(next: Edges, target: Did, k: nat, queue: seq<seq<Did>>, empty: nat, used: set<Did>) {
    && queue != []
    && Waves(next, target, k) == Blank(empty) + queue
    && used == UsedBefore(next, target, k)
    && (empty > 0 ==> Elements(queue[0]) <= used)
  }

  lemma QueueGivesLayers(next: Edges, target: Did, k: nat, queue: seq<seq<Did>>, used: set<Did>)
    requires QueueAfter(next, target, k, queue, used)
    ensures NonEmpty(Dedupe(queue, {})) == LayersOf(next, target, k)
  {
    var empty: nat :| QueueHolds(next, target, k, queue, empty, used);
    DropEmptyWaves(queue, empty, {});
  }

  lemma QueueStep(next: Edges, target: Did, k: nat, queue: seq<seq<Did>>, used: set<Did>,
                  newDependents: seq<Did>, usedAfter: set<Did>)
    requires k > 0 && queue != [] && QueueAfter(next, target, k, queue, used)
    requires newDependents == Expand(next, queue[0], used) && usedAfter == used + Elements(queue[0])
    ensures QueueAfter(next, target, k + 1, if |newDependents| > 0 then [newDependents] + queue else queue, usedAfter)
  {
    hide Expand, Wave, UsedBefore, Elements;
    var empty: nat :| QueueHolds(next, target, k, queue, empty, used);
    NextWave(next, target, k, queue, empty, used, newDependents, usedAfter);
    assert Waves(next, target, k + 1) == [newDependents] + Waves(next, target, k);
    ConcatIsAssociative([newDependents], Blank(empty), queue);
    if newDependents == [] {
      assert [newDependents] + Blank(empty) == Blank(empty + 1);
      assert QueueHolds(next, target, k + 1, queue, empty + 1, usedAfter);
    } else {
      assert Blank(0) == [] && [newDependents] + Blank(0) == [newDependents];
      ConcatNothing([newDependents] + queue);
      assert QueueHolds(next, target, k + 1, [newDependents] + queue, 0, usedAfter);
    }
  }

  /** Expanding the head of the queue gives the next wave, also when the wave before it was empty
      and never put on the queue. */
  lemma NextWave(next: Edges, target: Did, k: nat, queue: seq<seq<Did>>, empty: nat, used: set<Did>,
                 newDependents: seq<Did>, usedAfter: set<Did>)
    requires k > 0 && QueueHolds(next, target, k, queue, empty, used)
    requires newDependents == Expand(next, queue[0], used) && usedAfter == used + Elements(queue[0])
    ensures Wave(next, target, k + 1) == newDependents && UsedBefore(next, target, k + 1) == usedAfter
    ensures Elements(queue[0]) <= usedAfter
    ensures empty > 0 ==> newDependents == []
  {
    ExpandIsSuccessors(next, queue[0], used);
    var wave := Wave(next, target, k);
    assert wave == Waves(next, target, k)[0] == (Blank(empty) + queue)[0];
    if empty > 0 {
      assert Elements(queue[0]) - used == {};
      NothingFromNothing(next, newDependents);
      assert wave == [];
    }
  }

  ghost function Blank(n: nat): seq<seq<Did>> {
    seq(n, _ => [])
  }

  lemma WavesOfOne(next: Edges, target: Did)
    ensures QueueAfter(next, target, 1, [next(target)], {target})
  {
    assert Expand(next, [target], {}) == next(target) + [];
    assert Wave(next, target, 0) == [target] && Elements([target]) == {target};
    assert UsedBefore(next, target, 0) == {};
    assert Wave(next, target, 1) == next(target);
    assert Waves(next, target, 1) == [next(target)] + Waves(next, target, 0);
    assert Blank(0) + [next(target)] == [next(target)];
    assert QueueHolds(next, target, 1, [next(target)], 0, {target});
  }

  lemma ElementsEmpty(row: seq<Did>)
    ensures row == [] || row[0] in Elements(row)
  {
  }

  lemma NothingFromNothing(next: Edges, row: seq<Did>)
    requires Elements(row) == Successors(next, {})
    ensures row == []
  {
    assert Elements(row) == {};
    ElementsEmpty(row);
  }

  lemma {:induction false} DropEmptyWaves(queue: seq<seq<Did>>, empty: nat, seen: set<Did>)
    ensures NonEmpty(Dedupe(Blank(empty) + queue, seen)) == NonEmpty(Dedupe(queue, seen))
  {
    var padded := Blank(empty) + queue;
    if empty == 0 {
      assert padded == queue;
    } else {
      DropEmptyWaves(queue, empty - 1, seen);
      assert padded[1..] == Blank(empty - 1) + queue;
      assert seen + Elements([]) == seen;
      assert Dedupe(padded, seen)[1..] == Dedupe(padded[1..], seen);
    }
  }

  lemma ListedHead(out: seq<seq<Did>>)
    requires out != [] && CleanRows(out)
    ensures exists v :: Listed(out, v)
  {
    assert Listed(out, out[0][0]);
  }

  lemma {:induction false} NoEdgesNoDependents(next: Edges, target: Did, n: nat, v: Did)
    requires forall u :: next(u) == []
    ensures FarthestDependent(next, target, n, v) == 0
  {
    if n > 0 {
      assert Successors(next, Sphere(next, target, n - 1)) == {};
      HasDependent(next, target, n - 1, v);
      NoEdgesNoDependents(next, target, n - 1, v);
    }
  }

  lemma NoChildrenNoLayers(g: Graph, target: Did, n: nat)
    requires g.children == []
    ensures LayersOf(EdgesOf(g), target, n) == []
  {
    var next := EdgesOf(g);
    LayerPlacement(next, target, n);
    var out := LayersOf(next, target, n);
    forall v
      ensures !Listed(out, v)
    {
      NoEdgesNoDependents(next, target, n, v);
    }
    if out != [] { ListedHead(out); }
  }

  /** T requires B and C, B requires E, E requires C, and C requires D. */
  function Detour(): Graph {
    var on := (did: string) => Dependency(Did(did), true);
    Graph([Child(Did("T"), [on("B"), on("C")]), Child(Did("B"), [on("E")]), Child(Did("E"), [on("C")]),
           Child(Did("C"), [on("D")]), Child(Did("D"), [])], _ => true)
  }

  lemma {:induction false} FindUnique(children: seq<Child>, i: nat)
    requires i < |children|
    requires forall j, k :: 0 <= j < k < |children| ==> children[j].did != children[k].did
    ensures FindFirst(children, children[i].did) == Some(children[i])
    ensures FindLast(children, children[i].did) == Some(children[i])
  {
    if i > 0 { FindUniqueFirst(children, i); }
    if i < |children| - 1 { FindUnique(children[..|children| - 1], i); }
  }

  lemma {:induction false} FindUniqueFirst(children: seq<Child>, i: nat)
    requires i < |children|
    requires forall j, k :: 0 <= j < k < |children| ==> children[j].did != children[k].did
    ensures FindFirst(children, children[i].did) == Some(children[i])
  {
    if i > 0 { FindUniqueFirst(children[1..], i - 1); }
  }

  lemma {:induction false} FindNone(children: seq<Child>, did: Did)
    requires forall j :: 0 <= j < |children| ==> children[j].did != did
    ensures FindFirst(children, did) == None
  {
    if children != [] { FindNone(children[1..], did); }
  }

  lemma DetourEdges()
    ensures var next := EdgesOf(Detour());
            && next(Did("T")) == [Did("B"), Did("C")] && next(Did("B")) == [Did("E")]
            && next(Did("E")) == [Did("C")] && next(Did("C")) == [Did("D")]
            && forall did :: did !in {Did("T"), Did("B"), Did("E"), Did("C")} ==> next(did) == []
  {
    var g := Detour();
    forall i | 0 <= i < 5
      ensures FindFirst(g.children, g.children[i].did) == Some(g.children[i])
      ensures FindLast(g.children, g.children[i].did) == Some(g.children[i])
    {
      FindUnique(g.children, i);
    }
    forall did | did !in {Did("T"), Did("B"), Did("E"), Did("C")}
      ensures EdgesOf(g)(did) == []
    {
      if did == Did("D") {
        assert g.children[4].did == did;
      } else {
        FindNone(g.children, did);
      }
    }
    assert g.children[0].did == Did("T") && g.children[1].did == Did("B") && g.children[2].did == Did("E");
    assert g.children[3].did == Did("C") && g.children[4].did == Did("D");
  }

  /** The layers are not a topological order in general: here C requires D, and both are listed,
      yet the layer of C comes first. */
  lemma LayersAreNotTopological()
    ensures var next := EdgesOf(Detour());
            var out := LayersOf(next, Did("T"), 9);
            && Did("D") in next(Did("C"))
            && Listed(out, Did("C")) && Listed(out, Did("D"))
            && forall i, j :: 0 <= i < |out| && 0 <= j < |out| && Did("C") in out[i] && Did("D") in out[j] ==> i < j
  {
    hide LayersOf, FarthestDependent, Sphere, Successors, EdgesOf, CleanRows;
    var next := EdgesOf(Detour());
    DetourEdges();
    DetourDepths(next);
    LayerPlacement(next, Did("T"), 9);
  }

  lemma SuccessorsOfOne(next: Edges, u: Did)
    ensures Successors(next, {u}) == Elements(next(u))
  {
    assert forall v :: v in Elements(next(u)) <==> v in next(u);
  }

  ghost predicate DetourShape(next: Edges) {
    && (forall did :: did !in {Did("T"), Did("B"), Did("E"), Did("C")} ==> next(did) == [])
    && next(Did("T")) == [Did("B"), Did("C")] && next(Did("B")) == [Did("E")]
    && next(Did("E")) == [Did("C")] && next(Did("C")) == [Did("D")]
  }

  lemma DetourBall(next: Edges)
    requires DetourShape(next)
    ensures Ball(next, Did("T"), 1) == {Did("T"), Did("B"), Did("C")} && Did("E") in Ball(next, Did("T"), 2)
  {
    var t := Did("T");
    assert Ball(next, t, 1) == {t} + Successors(next, {t});
    SuccessorsOfOne(next, t);
    assert Elements(next(t)) == {Did("B"), Did("C")};
    assert Did("E") in next(Did("B")) && Did("B") in Ball(next, t, 1);
  }

  lemma DetourSuccessors(next: Edges)
    requires DetourShape(next)
    ensures Did("C") in Successors(next, Sphere(next, Did("T"), 2))
    ensures Did("D") in Successors(next, Sphere(next, Did("T"), 1))
  {
    DetourBall(next);
    assert Did("E") in Sphere(next, Did("T"), 2) && Did("C") in next(Did("E"));
    assert Did("C") in Sphere(next, Did("T"), 1) && Did("D") in next(Did("C"));
  }

  lemma DetourLate(next: Edges, k: nat)
    requires DetourShape(next) && 2 <= k
    ensures Did("D") !in Successors(next, Sphere(next, Did("T"), k))
  {
    DetourBall(next);
    BallGrows(next, Did("T"), 1, k - 1);
  }

  lemma DetourDepths(next: Edges)
    requires DetourShape(next)
    ensures FarthestDependent(next, Did("T"), 9, Did("C")) > FarthestDependent(next, Did("T"), 9, Did("D")) > 0
  {
    hide DependentsAt, Sphere, Successors, DetourShape;
    var t := Did("T");
    DetourSuccessors(next);
    HasDependent(next, t, 2, Did("C"));
    HasDependent(next, t, 1, Did("D"));
    var d := FarthestDependent(next, t, 9, Did("D"));
    if d > 2 {
      DetourLate(next, d - 1);
      HasDependent(next, t, d - 1, Did("D"));
    }
  }
}
